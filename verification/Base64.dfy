/** base64url without padding (section 5 of RFC 4648), decoded as leniently as the decoder the tokens use:
    line breaks are skipped and stray trailing bits ignored. */
module Base64 {
  import opened Common

  type Byte = x: int | 0 <= x < 256
  type Sextet = x: int | 0 <= x < 64

  /** A to Z, a to z, 0 to 9, minus and underscore. */
  function Letter(v: Sextet): char {
    if v < 26 then (v + 65) as char
    else if v < 52 then (v + 71) as char
    else if v < 62 then (v - 4) as char
    else if v == 62 then '-'
    else '_'
  }

  function ValueOf(c: char): Option<Sextet> {
    if 'A' <= c <= 'Z' then Some(c as int - 65)
    else if 'a' <= c <= 'z' then Some(c as int - 71)
    else if '0' <= c <= '9' then Some(c as int + 4)
    else if c == '-' then Some(62)
    else if c == '_' then Some(63)
    else None
  }

  predicate LineBreak(c: char) {
    c == '\r' || c == '\n'
  }

  lemma LetterReadsBack(v: Sextet)
    ensures ValueOf(Letter(v)) == Some(v) && !LineBreak(Letter(v))
  {
  }

  /** The URL and filename safe alphabet of section 5 of RFC 4648, in its order. */
  lemma LettersAre(v: Sextet)
    ensures v < 26 ==> Letter(v) as int == 'A' as int + v
    ensures 26 <= v < 52 ==> Letter(v) as int == 'a' as int + (v - 26)
    ensures 52 <= v < 62 ==> Letter(v) as int == '0' as int + (v - 52)
    ensures v == 62 ==> Letter(v) == '-'
    ensures v == 63 ==> Letter(v) == '_'
  {
  }

  /** What a text may hold. */
  lemma LettersOnly(c: char)
    ensures ValueOf(c).Some? <==> 'A' <= c <= 'Z' || 'a' <= c <= 'z' || '0' <= c <= '9' || c == '-' || c == '_'
    ensures LineBreak(c) <==> c == '\r' || c == '\n'
  {
  }

  function Spell(vs: seq<Sextet>): string {
    if vs == [] then "" else [Letter(vs[0])] + Spell(vs[1..])
  }

  /** The values of a text's letters; None when it holds anything else. */
  function Read(s: string): Option<seq<Sextet>> {
    if s == "" then Some([])
    else if LineBreak(s[0]) then Read(s[1..])
    else
      match (ValueOf(s[0]), Read(s[1..]))
      case (Some(v), Some(vs)) => Some([v] + vs)
      case _ => None
  }

  lemma {:induction false} SpellReadsBack(vs: seq<Sextet>)
    ensures Read(Spell(vs)) == Some(vs)
    ensures |Spell(vs)| == |vs|
  {
    if vs != [] {
      SpellReadsBack(vs[1..]);
      LetterReadsBack(vs[0]);
      assert Spell(vs)[0] == Letter(vs[0]) && Spell(vs)[1..] == Spell(vs[1..]);
      assert vs == [vs[0]] + vs[1..];
    }
  }

  /** Three bytes are four sextets; one or two left over are two or three, the last padded with zero bits. */
  function Pack(bs: seq<Byte>): seq<Sextet> {
    if |bs| == 0 then []
    else if |bs| == 1 then [bs[0] / 4, Upper(bs[0], 0)]
    else if |bs| == 2 then [bs[0] / 4, Upper(bs[0], bs[1]), Lower(bs[1], 0)]
    else [bs[0] / 4, Upper(bs[0], bs[1]), Lower(bs[1], bs[2]), bs[2] % 64] + Pack(bs[3..])
  }

  /** The last two bits of a and the first four of b. */
  function Upper(a: int, b: int): Sextet
    requires 0 <= a < 256 && 0 <= b < 256
  {
    a % 4 * 16 + b / 16
  }

  /** The last four bits of a and the first two of b. */
  function Lower(a: int, b: int): Sextet
    requires 0 <= a < 256 && 0 <= b < 256
  {
    a % 16 * 4 + b / 64
  }

  function Byte0(v: int, w: int): Byte
    requires 0 <= v < 64 && 0 <= w < 64
  {
    v * 4 + w / 16
  }

  function Byte1(v: int, w: int): Byte
    requires 0 <= v < 64 && 0 <= w < 64
  {
    v % 16 * 16 + w / 4
  }

  function Byte2(v: int, w: int): Byte
    requires 0 <= v < 64 && 0 <= w < 64
  {
    v % 4 * 64 + w
  }

  /** A single sextet left over is no byte at all. */
  function Unpack(vs: seq<Sextet>): Option<seq<Byte>> {
    if |vs| == 0 then Some([])
    else if |vs| == 1 then None
    else if |vs| == 2 then Some([Byte0(vs[0], vs[1])])
    else if |vs| == 3 then Some([Byte0(vs[0], vs[1]), Byte1(vs[1], vs[2])])
    else
      match Unpack(vs[4..])
      case None => None
      case Some(rest) => Some([Byte0(vs[0], vs[1]), Byte1(vs[1], vs[2]), Byte2(vs[2], vs[3])] + rest)
  }

  lemma ThreeBytes(a: Byte, b: Byte, c: Byte)
    ensures Byte0(a / 4, Upper(a, b)) == a
    ensures Byte1(Upper(a, b), Lower(b, c)) == b
    ensures Byte2(Lower(b, c), c % 64) == c
  {
  }

  lemma {:induction false} PackUnpacks(bs: seq<Byte>)
    ensures Unpack(Pack(bs)) == Some(bs)
  {
    hide Upper, Lower, Byte0, Byte1, Byte2;
    if |bs| >= 3 {
      PackUnpacks(bs[3..]);
      ThreeBytes(bs[0], bs[1], bs[2]);
      assert Pack(bs)[4..] == Pack(bs[3..]);
      assert bs == [bs[0], bs[1], bs[2]] + bs[3..];
    } else if |bs| == 2 {
      ThreeBytes(bs[0], bs[1], 0);
      assert bs == [bs[0], bs[1]];
    } else if |bs| == 1 {
      ThreeBytes(bs[0], 0, 0);
      assert bs == [bs[0]];
    }
  }

  /** The number whose digits these are. */
  function Number(digits: seq<int>, base: int): int {
    if digits == [] then 0 else Number(digits[..|digits| - 1], base) * base + digits[|digits| - 1]
  }

  lemma NumberOf2(a: int, b: int, base: int)
    ensures Number([a, b], base) == a * base + b
  {
    assert [a, b][..1] == [a] && [a][..0] == [];
    assert Number([], base) * base == 0;
    assert Number([a], base) == a;
  }

  lemma NumberOf3(a: int, b: int, c: int, base: int)
    ensures Number([a, b, c], base) == (a * base + b) * base + c
  {
    assert [a, b, c][..2] == [a, b];
    NumberOf2(a, b, base);
  }

  lemma NumberOf4(a: int, b: int, c: int, d: int, base: int)
    ensures Number([a, b, c, d], base) == ((a * base + b) * base + c) * base + d
  {
    assert [a, b, c, d][..3] == [a, b, c];
    NumberOf3(a, b, c, base);
  }

  /** The sextets are the bytes' own bits, in order, the last padded with zeros (section 4 of RFC 4648). */
  lemma PackIsBits(a: Byte, b: Byte, c: Byte, rest: seq<Byte>)
    ensures exists head :: Pack([a, b, c] + rest) == head + Pack(rest) && |head| == 4 && Number(head, 64) == Number([a, b, c], 256)
    ensures |Pack([a, b])| == 3 && Number(Pack([a, b]), 64) == Number([a, b], 256) * 4
    ensures |Pack([a])| == 2 && Number(Pack([a]), 64) == a * 16
    ensures Pack([]) == []
  {
    assert ([a, b, c] + rest)[3..] == rest;
    var head: seq<int> := [a / 4, Upper(a, b), Lower(b, c), c % 64];
    assert Pack([a, b, c] + rest) == head + Pack(rest);
    NumberOf4(head[0], head[1], head[2], head[3], 64);
    NumberOf3(a, b, c, 256);
    NumberOf3(a / 4, Upper(a, b), Lower(b, 0), 64);
    NumberOf2(a, b, 256);
    NumberOf2(a / 4, Upper(a, 0), 64);
    assert Pack([a, b]) == [a / 4, Upper(a, b), Lower(b, 0)] && Pack([a]) == [a / 4, Upper(a, 0)];
    hide Number;
  }

  lemma BytesAreBits(v: Sextet, w: Sextet, x: Sextet, y: Sextet)
    ensures Byte0(v, w) == (v * 64 + w) / 16
    ensures Byte0(v, w) * 256 + Byte1(w, x) == ((v * 64 + w) * 64 + x) / 4
    ensures (Byte0(v, w) * 256 + Byte1(w, x)) * 256 + Byte2(x, y) == ((v * 64 + w) * 64 + x) * 64 + y
  {
  }

  /** And the bytes are the sextets' bits, whatever the padding holds. */
  lemma UnpackIsBits(v: Sextet, w: Sextet, x: Sextet, y: Sextet)
    ensures Unpack([v, w]) == Some([Number([v, w], 64) / 16])
    ensures exists bs :: Unpack([v, w, x]) == Some(bs) && |bs| == 2 && Number(bs, 256) == Number([v, w, x], 64) / 4
    ensures exists bs :: Unpack([v, w, x, y]) == Some(bs) && |bs| == 3 && Number(bs, 256) == Number([v, w, x, y], 64)
  {
    hide Number, Byte0, Byte1, Byte2;
    BytesAreBits(v, w, x, y);
    NumberOf2(v, w, 64);
    NumberOf3(v, w, x, 64);
    NumberOf4(v, w, x, y, 64);
    NumberOf2(Byte0(v, w), Byte1(w, x), 256);
    NumberOf3(Byte0(v, w), Byte1(w, x), Byte2(x, y), 256);
    assert [v, w, x, y][4..] == [] && Unpack([]) == Some([]);
    assert Unpack([v, w, x]) == Some([Byte0(v, w), Byte1(w, x)]);
    assert Unpack([v, w, x, y]) == Some([Byte0(v, w), Byte1(w, x), Byte2(x, y)] + []);
    assert [Byte0(v, w), Byte1(w, x), Byte2(x, y)] + [] == [Byte0(v, w), Byte1(w, x), Byte2(x, y)];
  }

  function Encode(bs: seq<Byte>): string {
    Spell(Pack(bs))
  }

  function Decode(s: string): Option<seq<Byte>> {
    match Read(s)
    case None => None
    case Some(vs) => Unpack(vs)
  }

  /** Every byte sequence comes back from its own encoding. */
  lemma RoundTrip(bs: seq<Byte>)
    ensures Decode(Encode(bs)) == Some(bs)
  {
    SpellReadsBack(Pack(bs));
    PackUnpacks(bs);
  }

  lemma EncodeIsInjective(a: seq<Byte>, b: seq<Byte>)
    ensures Encode(a) == Encode(b) ==> a == b
  {
    RoundTrip(a);
    RoundTrip(b);
  }

  function Letters(s: string): string {
    if s == "" then "" else if LineBreak(s[0]) then Letters(s[1..]) else [s[0]] + Letters(s[1..])
  }

  lemma {:induction false} ReadAccepts(s: string)
    ensures Read(s).Some? <==> forall c :: c in Letters(s) ==> ValueOf(c).Some?
    ensures Read(s).Some? ==> |Read(s).value| == |Letters(s)|
  {
    if s != "" {
      ReadAccepts(s[1..]);
      if !LineBreak(s[0]) {
        assert s[0] in Letters(s);
        assert forall c :: c in Letters(s[1..]) ==> c in Letters(s);
      }
    }
  }

  lemma FourFewer(n: nat)
    requires n >= 4
    ensures (n - 4) % 4 == n % 4
  {
  }

  lemma {:induction false} UnpackAccepts(vs: seq<Sextet>)
    ensures Unpack(vs).Some? <==> |vs| % 4 != 1
  {
    hide Byte0, Byte1, Byte2;
    if |vs| >= 4 {
      UnpackAccepts(vs[4..]);
      FourFewer(|vs|);
    }
  }

  /** Exactly what is accepted: any line breaks, otherwise only letters, not one more than a multiple of four. */
  lemma DecodeAcceptsExactly(s: string)
    ensures Decode(s).Some? <==> (forall c :: c in Letters(s) ==> ValueOf(c).Some?) && |Letters(s)| % 4 != 1
  {
    ReadAccepts(s);
    if Read(s).Some? {
      UnpackAccepts(Read(s).value);
    }
  }
}
