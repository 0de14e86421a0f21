/** Small vocabulary shared by every other module. */
module Common {

  datatype Option<+T> = None | Some(value: T)

  const TWO_TO_63: int := 0x8000_0000_0000_0000
  const TWO_TO_64: int := 0x1_0000_0000_0000_0000

  /** Go's conversion of a uint64 to an int64: the same 64 bits, read as two's complement. */
  function ToInt64(u: nat): (r: int)
    ensures -TWO_TO_63 <= r < TWO_TO_63
    ensures u < TWO_TO_63 ==> r == u
    ensures (u - r) % TWO_TO_64 == 0
  {
    var low := u % TWO_TO_64;
    if low < TWO_TO_63 then low else low - TWO_TO_64
  }

  lemma LeastExists(s: set<nat>)
    requires s != {}
    ensures exists x :: x in s && forall y :: y in s ==> x <= y
  {
    var x :| x in s;
    if y :| y in s && y < x {
      var rest := s - {x};
      assert y in rest;
      LeastExists(rest);
      var m :| m in rest && forall z :: z in rest ==> m <= z;
      forall z | z in s ensures m <= z {
        assert z == x || z in rest;
      }
    }
  }

  /** `ORDER BY id LIMIT 1`: the smallest id of a set, if it has one. */
  function Least(s: set<nat>): (r: Option<nat>)
    ensures r.None? <==> s == {}
    ensures r.Some? ==> r.value in s && forall y :: y in s ==> r.value <= y
  {
    if s == {} then None
    else
      LeastExists(s);
      var x :| x in s && forall y :: y in s ==> x <= y;
      Some(x)
  }
}
