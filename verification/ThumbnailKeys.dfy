/** The cache key as the string it is stored under: distinct entries never share one. */
module ThumbnailKeys {

  const UINT32: int := 0x1_0000_0000

  datatype Entry = Entry(version: nat, hash: string, page: nat, width: nat, height: nat, format: string)

  /** Page and bounds are uint32; the hash is hex, which has no slash in it. */
  predicate WellFormed(e: Entry) {
    e.page < UINT32 && e.width < UINT32 && e.height < UINT32 && '/' !in e.hash
  }

  function Digit(d: nat): char
    requires d < 10
  {
    ['0', '1', '2', '3', '4', '5', '6', '7', '8', '9'][d]
  }

  /** %d of an unsigned number. */
  function Decimal(n: nat): string {
    if n < 10 then [Digit(n)] else Decimal(n / 10) + [Digit(n % 10)]
  }

  function DigitValue(c: char): nat {
    if '0' <= c <= '9' then c as nat - '0' as nat else 0
  }

  function Value(s: string): nat {
    if s == [] then 0 else 10 * Value(s[..|s| - 1]) + DigitValue(s[|s| - 1])
  }

  lemma {:induction false} DecimalReadsBack(n: nat)
    ensures Value(Decimal(n)) == n
    ensures forall c :: c in Decimal(n) ==> '0' <= c <= '9'
  {
    if n >= 10 {
      DecimalReadsBack(n / 10);
      assert Decimal(n)[..|Decimal(n)| - 1] == Decimal(n / 10);
    }
  }

  function ObjectKey(e: Entry): string {
    "thumbnails/" + (e.hash + ("/" + ("p" + (Decimal(e.page) + ("/" + (Decimal(e.width) + ("x" + (Decimal(e.height)
    + ("." + e.format)))))))))
  }

  /** The printing of a number other than 0 does not begin with 0. */
  lemma {:induction false} NoLeadingZero(n: nat)
    ensures Decimal(n) != "" && (n > 0 ==> Decimal(n)[0] != '0')
    ensures n < 10 ==> |Decimal(n)| == 1
  {
    if n >= 10 {
      NoLeadingZero(n / 10);
    }
  }

  /** The stored form of a key. */
  lemma ObjectKeyIs(e: Entry)
    ensures ObjectKey(e)
         == "thumbnails/" + e.hash + "/p" + Decimal(e.page) + "/" + Decimal(e.width) + "x" + Decimal(e.height) + "." + e.format
  {
    assert "/" + ("p" + Decimal(e.page)) == "/p" + Decimal(e.page);
    hide Decimal;
  }

  lemma DropPrefix(p: string, a: string, b: string)
    requires p + a == p + b
    ensures a == b
  {
    assert a == (p + a)[|p|..] && b == (p + b)[|p|..];
  }

  function IndexOf(s: string, c: char): nat {
    if s == [] || s[0] == c then 0 else 1 + IndexOf(s[1..], c)
  }

  lemma {:induction false} FirstSeparator(a: string, x: string, sep: char)
    requires sep !in a
    ensures IndexOf(a + ([sep] + x), sep) == |a|
  {
    if a == [] {
      assert a + ([sep] + x) == [sep] + x;
    } else {
      FirstSeparator(a[1..], x, sep);
      assert (a + ([sep] + x))[1..] == a[1..] + ([sep] + x);
    }
  }

  /** What precedes a separator neither side contains, and what follows it, are determined by the whole. */
  lemma CutAt(a: string, b: string, x: string, y: string, sep: char)
    requires sep !in a && sep !in b
    requires a + ([sep] + x) == b + ([sep] + y)
    ensures a == b && x == y
  {
    var s, t := a + ([sep] + x), b + ([sep] + y);
    FirstSeparator(a, x, sep);
    FirstSeparator(b, y, sep);
    assert a == s[..|a|] && b == t[..|b|];
    assert x == s[|a| + 1..] && y == t[|b| + 1..];
  }

  lemma CutNumber(n: nat, m: nat, x: string, y: string, sep: char)
    requires !('0' <= sep <= '9')
    requires Decimal(n) + ([sep] + x) == Decimal(m) + ([sep] + y)
    ensures n == m && x == y
  {
    DecimalReadsBack(n);
    DecimalReadsBack(m);
    CutAt(Decimal(n), Decimal(m), x, y, sep);
  }

  /** Two entries have the same object key exactly when they agree on all it is made of; the version is not
      part of it, the hash is. */
  lemma KeysAreInjective(e: Entry, f: Entry)
    requires WellFormed(e) && WellFormed(f)
    ensures ObjectKey(e) == ObjectKey(f)
       <==> e.hash == f.hash && e.page == f.page && e.width == f.width && e.height == f.height && e.format == f.format
  {
    if ObjectKey(e) == ObjectKey(f) {
      hide Decimal;
      var eh, fh := Decimal(e.height) + ("." + e.format), Decimal(f.height) + ("." + f.format);
      var ew, fw := Decimal(e.width) + ("x" + eh), Decimal(f.width) + ("x" + fh);
      var ep, fp := Decimal(e.page) + ("/" + ew), Decimal(f.page) + ("/" + fw);
      DropPrefix("thumbnails/", e.hash + ("/" + ("p" + ep)), f.hash + ("/" + ("p" + fp)));
      CutAt(e.hash, f.hash, "p" + ep, "p" + fp, '/');
      DropPrefix("p", ep, fp);
      CutNumber(e.page, f.page, ew, fw, '/');
      CutNumber(e.width, f.width, eh, fh, 'x');
      CutNumber(e.height, f.height, e.format, f.format, '.');
    }
  }

  // ---- the accounting row's own key ----

  /** Go's conversion of a uint32 to an int32. */
  function ToInt32(u: nat): (r: int)
    requires u < UINT32
    ensures -0x8000_0000 <= r < 0x8000_0000 && (r - u) % UINT32 == 0
  {
    if u < 0x8000_0000 then u else u - UINT32
  }

  datatype RowKey = RowKey(version: nat, page: int, width: int, height: int, format: string)

  function RowKeyOf(e: Entry): RowKey
    requires WellFormed(e)
  {
    RowKey(e.version, ToInt32(e.page), ToInt32(e.width), ToInt32(e.height), e.format)
  }

  /** The row is kept under the entry's own fields; sizes that fit an int32 are kept as they are. */
  lemma RowKeyIs(e: Entry)
    requires e.page < 0x8000_0000 && e.width < 0x8000_0000 && e.height < 0x8000_0000 && '/' !in e.hash
    ensures WellFormed(e) && RowKeyOf(e) == RowKey(e.version, e.page, e.width, e.height, e.format)
  {
  }

  /** content_hash is unique and so is the id: on the versions that exist each determines the other. */
  ghost predicate Bijective(es: set<Entry>) {
    forall e, f :: e in es && f in es ==> (e.version == f.version <==> e.hash == f.hash)
  }

  /** The row key, the object key and the entry determine one another. */
  lemma KeysAgree(es: set<Entry>, e: Entry, f: Entry)
    requires Bijective(es) && e in es && f in es && WellFormed(e) && WellFormed(f)
    ensures RowKeyOf(e) == RowKeyOf(f) <==> e == f
    ensures ObjectKey(e) == ObjectKey(f) <==> e == f
  {
    KeysAreInjective(e, f);
  }
}
