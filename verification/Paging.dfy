/** Cursor paging over one query's results: tokens, pages, and following them to the end. */
module Paging {
  import opened Common
  import B = Base64

  const DEFAULT_PAGE_SIZE := 20
  const MAX_PAGE_SIZE := 100
  const MAX_PAGE_OFFSET := 0x4000_0000
  const UINT32 := 0x1_0000_0000

  /** A cursor before it is marshalled: the digest of its query, and an offset. */
  datatype Token = Token(query: string, offset: int)

  /** JSON and the query digest; neither's inside is modelled. */
  datatype Codec = Codec(marshal: Token -> seq<B.Byte>, unmarshal: seq<B.Byte> -> Option<Token>, digest: string -> string)

  /** What is marshalled is never empty and reads back. */
  ghost predicate Faithful(c: Codec) {
    forall t :: c.marshal(t) != [] && c.unmarshal(c.marshal(t)) == Some(t)
  }

  datatype Result<+T> = Ok(value: T) | InvalidArgument(reason: Refusal)

  datatype Refusal = EmptyQuery | NotAToken | OtherQuery | OutOfRange

  function EncodePageToken(c: Codec, query: string, offset: int): string {
    B.Encode(c.marshal(Token(c.digest(query), offset)))
  }

  function DecodePageToken(c: Codec, token: string, query: string): (r: Result<int>)
    ensures r.Ok? ==> 0 <= r.value <= 0x4000_0000
  {
    if token == "" then Ok(0)
    else
      match B.Decode(token)
      case None => InvalidArgument(NotAToken)
      case Some(body) =>
        match c.unmarshal(body)
        case None => InvalidArgument(NotAToken)
        case Some(t) =>
          if t.query != c.digest(query) then InvalidArgument(OtherQuery)
          else if t.offset < 0 || t.offset > MAX_PAGE_OFFSET then InvalidArgument(OutOfRange)
          else Ok(t.offset)
  }

  /** A token is accepted for its own query, or one with the same digest, exactly when its offset is in range,
      and then gives back that offset. */
  lemma TokenReadsBack(c: Codec, query: string, other: string, offset: int)
    requires Faithful(c)
    ensures var token := EncodePageToken(c, query, offset);
            && token != ""
            && DecodePageToken(c, token, other)
               == if c.digest(query) != c.digest(other) then InvalidArgument(OtherQuery)
                  else if offset < 0 || offset > 0x4000_0000 then InvalidArgument(OutOfRange)
                  else Ok(offset)
  {
    var t := Token(c.digest(query), offset);
    var body := c.marshal(t);
    assert body != [] && c.unmarshal(body) == Some(t);
    B.RoundTrip(body);
    NotEmpty(body);
  }

  lemma NotEmpty(body: seq<B.Byte>)
    requires body != []
    ensures B.Encode(body) != ""
  {
    B.RoundTrip(body);
    assert B.Decode("") == Some([]);
  }

  /** Go's conversion of an int64 to an int32. */
  function ToInt32(x: int): (r: int)
    ensures -0x8000_0000 <= r < 0x8000_0000 && (r - x) % UINT32 == 0
  {
    var low := x % UINT32;
    if low < 0x8000_0000 then low else low - UINT32
  }

  function ResolvePageSize(requested: nat): (size: nat)
    ensures 1 <= size <= 100
    ensures 1 <= requested <= 100 ==> size == requested
    ensures requested == 0 ==> size == 20
    ensures requested > 100 ==> size == 100
  {
    if requested == 0 then DEFAULT_PAGE_SIZE else if requested < MAX_PAGE_SIZE then requested else MAX_PAGE_SIZE
  }

  /** No accepted offset, and no limit, is changed by the narrowing at the query boundary. */
  lemma NarrowingNeverWraps(c: Codec, token: string, query: string, requested: nat)
    ensures var offset := DecodePageToken(c, token, query);
            offset.Ok? ==> ToInt32(offset.value) == offset.value
    ensures ToInt32(ResolvePageSize(requested)) + 1 == ResolvePageSize(requested) + 1 <= 101
  {
  }

  // ---- a page ----

  /** SELECT ... LIMIT limit OFFSET offset over a fixed result list. */
  function Window<T>(rows: seq<T>, offset: int, limit: int): seq<T>
    requires 0 <= offset && 0 <= limit
  {
    if offset >= |rows| then [] else if offset + limit >= |rows| then rows[offset..] else rows[offset..offset + limit]
  }

  datatype Response<+T> = Response(hits: seq<T>, next: string)

  function SearchPage<T>(c: Codec, rows: seq<T>, query: string, blank: bool, token: string, requested: nat): Result<Response<T>> {
    if blank then InvalidArgument(EmptyQuery)
    else
      match DecodePageToken(c, token, query)
      case InvalidArgument(reason) => InvalidArgument(reason)
      case Ok(offset) =>
        var size := ResolvePageSize(requested);
        NarrowingNeverWraps(c, token, query, requested);
        var found := Window(rows, ToInt32(offset), ToInt32(size) + 1);
        if |found| > size then Ok(Response(found[..size], EncodePageToken(c, query, offset + size)))
        else Ok(Response(found, ""))
  }

  /** An issued token answers with the rows from its offset on, as many as the page holds, and with a token that
      leads on from them exactly when rows are left; a blank query and a refused token answer nothing. */
  lemma SearchAnswers<T(!new)>(c: Codec, rows: seq<T>, query: string, blank: bool, offset: nat, requested: nat)
    requires Faithful(c) && offset <= MAX_PAGE_OFFSET
    ensures var size := if requested == 0 then 20 else if requested > 100 then 100 else requested;
            var end := if offset >= |rows| then offset else if offset + size > |rows| then |rows| else offset + size;
            var r := SearchPage(c, rows, query, blank, EncodePageToken(c, query, offset), requested);
            && (r == InvalidArgument(EmptyQuery) <==> blank)
            && (!blank ==>
                  && r.Ok? && |r.value.hits| == end - offset
                  && (forall i :: offset <= i < end ==> r.value.hits[i - offset] == rows[i])
                  && r.value.next == if end < |rows| then EncodePageToken(c, query, end) else "")
    ensures SearchPage(c, rows, query, blank, "", requested) == SearchPage(c, rows, query, blank, EncodePageToken(c, query, 0), requested)
  {
    TokenReadsBack(c, query, query, offset);
    TokenReadsBack(c, query, query, 0);
    NarrowingNeverWraps(c, EncodePageToken(c, query, offset), query, requested);
    hide EncodePageToken, ToInt32;
    var decoded := DecodePageToken(c, EncodePageToken(c, query, offset), query);
    assert ToInt32(offset) == offset;
    hide DecodePageToken;
  }

  method Search<T>(c: Codec, rows: seq<T>, query: string, blank: bool, token: string, requested: nat)
    returns (r: Result<Response<T>>)
    ensures r == SearchPage(c, rows, query, blank, token, requested)
  {
    if blank {
      return InvalidArgument(EmptyQuery);
    }
    var decoded := DecodePageToken(c, token, query);
    if decoded.InvalidArgument? {
      return InvalidArgument(decoded.reason);
    }
    var pageSize := ResolvePageSize(requested);
    NarrowingNeverWraps(c, token, query, requested);
    // One row past the page decides whether there is a next page.
    var found := Window(rows, ToInt32(decoded.value), ToInt32(pageSize) + 1);
    var hasMore := |found| > pageSize;
    if hasMore {
      found := found[..pageSize];
    }
    var hits: seq<T> := [];
    for i := 0 to |found|
      invariant hits == found[..i]
    {
      hits := hits + [found[i]];
    }
    assert hits == found;
    var next := "";
    if hasMore {
      next := EncodePageToken(c, query, decoded.value + |found|);
    }
    return Ok(Response(hits, next));
  }

  // ---- following the tokens ----

  /** Where a client stands: about to ask with a token, at the end, or refused. */
  datatype Walk<+T> = At(token: string, got: seq<T>) | Done(got: seq<T>) | Refused(got: seq<T>, reason: Refusal)

  /** One more request, if there is one to make. */
  function Ask<T>(c: Codec, rows: seq<T>, query: string, w: Walk<T>, requested: nat): Walk<T> {
    match w
    case At(token, got) =>
      (match SearchPage(c, rows, query, false, token, requested)
       case InvalidArgument(reason) => Refused(got, reason)
       case Ok(page) => if page.next == "" then Done(got + page.hits) else At(page.next, got + page.hits))
    case ended => ended
  }

  /** The client after n requests; sizes(i) is the page size it asks for in request i. */
  function Follow<T>(c: Codec, rows: seq<T>, query: string, sizes: nat -> nat, n: nat): Walk<T> {
    if n == 0 then At("", []) else Ask(c, rows, query, Follow(c, rows, query, sizes, n - 1), sizes(n - 1))
  }

  /** A client that has been given the first k rows and a token for the rest. */
  ghost predicate Standing<T(!new)>(c: Codec, rows: seq<T>, query: string, w: Walk<T>, n: nat) {
    && |w.got| <= |rows| && w.got == rows[..|w.got|]
    && (w.Done? ==> w.got == rows)
    && (w.At? ==> n <= |w.got| && (|w.got| > 0 ==> |w.got| < |rows|)
                  && DecodePageToken(c, w.token, query)
                     == if |w.got| <= MAX_PAGE_OFFSET then Ok(|w.got|) else InvalidArgument(OutOfRange))
    && (w.Refused? ==> w.reason == OutOfRange && MAX_PAGE_OFFSET < |w.got| < |rows|)
  }

  lemma OnePage<T(!new)>(c: Codec, rows: seq<T>, query: string, w: Walk<T>, n: nat, requested: nat)
    requires Faithful(c) && w.At? && Standing(c, rows, query, w, n) && |w.got| <= MAX_PAGE_OFFSET
    ensures var k, size := |w.got|, ResolvePageSize(requested);
            var page := SearchPage(c, rows, query, false, w.token, requested);
            && page.Ok?
            && (k + size < |rows| ==> page.value == Response(rows[k..k + size], EncodePageToken(c, query, k + size)))
            && (k + size >= |rows| ==> page.value == Response(rows[k..], ""))
  {
    hide EncodePageToken, DecodePageToken;
    NarrowingNeverWraps(c, w.token, query, requested);
  }

  lemma AskStands<T(!new)>(c: Codec, rows: seq<T>, query: string, w: Walk<T>, n: nat, requested: nat)
    requires Faithful(c) && Standing(c, rows, query, w, n)
    ensures Standing(c, rows, query, Ask(c, rows, query, w, requested), n + 1)
  {
    hide EncodePageToken, DecodePageToken;
    if w.At? && |w.got| <= MAX_PAGE_OFFSET {
      OnePage(c, rows, query, w, n, requested);
      hide SearchPage;
      var end := |w.got| + ResolvePageSize(requested);
      TokenReadsBack(c, query, query, end);
      if end < |rows| {
        assert rows[..|w.got|] + rows[|w.got|..end] == rows[..end];
      } else {
        assert rows[..|w.got|] + rows[|w.got|..] == rows;
      }
    }
  }

  lemma StartStands<T(!new)>(c: Codec, rows: seq<T>, query: string)
    ensures Standing(c, rows, query, At("", []), 0)
  {
  }

  lemma {:induction false} FollowStands<T(!new)>(c: Codec, rows: seq<T>, query: string, sizes: nat -> nat, n: nat)
    requires Faithful(c)
    ensures Standing(c, rows, query, Follow(c, rows, query, sizes, n), n)
    decreases n
  {
    hide Ask, Standing;
    if n == 0 {
      StartStands(c, rows, query);
    } else {
      FollowStands(c, rows, query, sizes, n - 1);
      AskStands(c, rows, query, Follow(c, rows, query, sizes, n - 1), n - 1, sizes(n - 1));
    }
  }

  /** Following next-page tokens ends, and what was collected is exactly the list, with no gap and no repeat,
      whatever page size each request asks for. */
  lemma FollowingCollectsEverything<T(!new)>(c: Codec, rows: seq<T>, query: string, sizes: nat -> nat)
    requires Faithful(c) && |rows| <= 0x4000_0001
    ensures Follow(c, rows, query, sizes, |rows| + 1) == Done(rows)
  {
    FollowStands(c, rows, query, sizes, |rows| + 1);
  }

  lemma {:induction false} OneByOne<T(!new)>(c: Codec, rows: seq<T>, query: string, sizes: nat -> nat, n: nat)
    requires Faithful(c) && n < |rows| && n <= MAX_PAGE_OFFSET + 1 && forall i :: sizes(i) == 1
    ensures var w := Follow(c, rows, query, sizes, n);
            w.At? && |w.got| == n && w.got == rows[..n]
    decreases n
  {
    hide SearchPage, EncodePageToken, DecodePageToken;
    if n > 0 {
      OneByOne(c, rows, query, sizes, n - 1);
      FollowStands(c, rows, query, sizes, n - 1);
      OnePage(c, rows, query, Follow(c, rows, query, sizes, n - 1), n - 1, 1);
      TokenReadsBack(c, query, query, n);
      assert rows[..n] == rows[..n - 1] + rows[n - 1..n];
    }
  }

  /** One row more, and a client that asks for pages of one is refused in the middle of the list. */
  lemma DeeperIsRefused<T(!new)>(c: Codec, rows: seq<T>, query: string, sizes: nat -> nat)
    requires Faithful(c) && |rows| > MAX_PAGE_OFFSET + 1 && forall i :: sizes(i) == 1
    ensures Follow(c, rows, query, sizes, MAX_PAGE_OFFSET + 2) == Refused(rows[..MAX_PAGE_OFFSET + 1], OutOfRange)
  {
    OneByOne(c, rows, query, sizes, MAX_PAGE_OFFSET + 1);
    FollowStands(c, rows, query, sizes, MAX_PAGE_OFFSET + 1);
  }

  predicate Collects<T(==)>(c: Codec, rows: seq<T>, query: string, sizes: nat -> nat) {
    Follow(c, rows, query, sizes, |rows| + 1) == Done(rows)
  }

  /** So the list is collected under every choice of page sizes exactly when it is no longer than that. */
  lemma CollectsEverythingIff<T(!new)>(c: Codec, rows: seq<T>, query: string)
    requires Faithful(c)
    ensures (forall sizes: nat -> nat :: Collects(c, rows, query, sizes)) <==> |rows| <= 0x4000_0001
  {
    if |rows| <= MAX_PAGE_OFFSET + 1 {
      forall sizes: nat -> nat ensures Collects(c, rows, query, sizes) {
        FollowingCollectsEverything(c, rows, query, sizes);
      }
    } else {
      var ones := (i: nat) => 1;
      DeeperIsRefused(c, rows, query, ones);
      RefusedStays(c, rows, query, ones, MAX_PAGE_OFFSET + 2, |rows| + 1);
      assert !Collects(c, rows, query, ones);
    }
  }

  lemma {:induction false} RefusedStays<T(!new)>(c: Codec, rows: seq<T>, query: string, sizes: nat -> nat, n: nat, m: nat)
    requires n <= m && Follow(c, rows, query, sizes, n).Refused?
    ensures Follow(c, rows, query, sizes, m).Refused?
    decreases m
  {
    if n < m {
      RefusedStays(c, rows, query, sizes, n, m - 1);
    }
  }
}
