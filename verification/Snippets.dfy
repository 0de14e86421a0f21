/** Splitting a highlighted excerpt at its markers, and what an excerpt is made of. */
module Snippets {
  import opened Common

  const OPEN := "<b>"
  const CLOSE := "</b>"

  datatype Segment = Segment(text: string, highlighted: bool)

  // ---- substrings ----

  predicate OccursAt(s: string, sub: string, i: int) {
    0 <= i && i + |sub| <= |s| && s[i..i + |sub|] == sub
  }

  predicate Free(s: string, sub: string) {
    forall i :: 0 <= i <= |s| ==> !OccursAt(s, sub, i)
  }

  /** strings.Index: the first occurrence. */
  function Index(s: string, sub: string): (r: Option<nat>)
    ensures r.None? <==> Free(s, sub)
    ensures r.Some? ==> OccursAt(s, sub, r.value) && forall i :: 0 <= i < r.value ==> !OccursAt(s, sub, i)
  {
    IndexFrom(s, sub, 0)
  }

  function IndexFrom(s: string, sub: string, from: nat): (r: Option<nat>)
    requires from <= |s|
    ensures r.None? <==> forall i :: from <= i <= |s| ==> !OccursAt(s, sub, i)
    ensures r.Some? ==> from <= r.value && OccursAt(s, sub, r.value) && forall i :: from <= i < r.value ==> !OccursAt(s, sub, i)
    decreases |s| - from
  {
    if OccursAt(s, sub, from) then Some(from) else if from == |s| then None else IndexFrom(s, sub, from + 1)
  }

  lemma FirstOccurrence(s: string, sub: string, i: nat)
    requires OccursAt(s, sub, i) && forall j :: 0 <= j < i ==> !OccursAt(s, sub, j)
    ensures Index(s, sub) == Some(i)
  {
    var r := Index(s, sub);
    assert !Free(s, sub);
  }

  // ---- what an excerpt is made of ----

  /** A stretch of plain text and the highlighted stretch right after it. */
  datatype Piece = Piece(plain: string, high: string)

  datatype Cut = Cut(pieces: seq<Piece>, tail: string)

  function Written(c: Cut): string
    decreases |c.pieces|
  {
    if c.pieces == [] then c.tail
    else c.pieces[0].plain + (OPEN + (c.pieces[0].high + (CLOSE + Written(Cut(c.pieces[1..], c.tail)))))
  }

  /** A marker opened in s and closed after it. */
  predicate HasPair(s: string) {
    Index(s, OPEN).Some? && Index(s[Index(s, OPEN).value..], CLOSE).Some?
  }

  /** Plain text opens nothing, highlighted text closes nothing, and the tail holds no complete pair. */
  predicate Proper(c: Cut) {
    && (forall i :: 0 <= i < |c.pieces| ==> Free(c.pieces[i].plain, OPEN) && Free(c.pieces[i].high, CLOSE))
    && !HasPair(c.tail)
  }

  /** An opening marker, right after text that holds none, is where the first one is. */
  lemma OpensAfter(plain: string, rest: string)
    requires Free(plain, OPEN)
    ensures Index(plain + (OPEN + rest), OPEN) == Some(|plain|)
  {
    var s := plain + (OPEN + rest);
    assert s[|plain|..|plain| + 3] == OPEN;
    forall j | 0 <= j < |plain| ensures !OccursAt(s, OPEN, j) {
      NoStraddle(plain, OPEN + rest, OPEN, j);
    }
    FirstOccurrence(s, OPEN, |plain|);
  }

  /** A marker cannot begin in a text without one and end past it, when what follows begins with '<'. */
  lemma NoStraddle(text: string, next: string, marker: string, j: nat)
    requires marker == OPEN || marker == CLOSE
    requires Free(text, marker) && j < |text| && next != [] && next[0] == '<'
    ensures !OccursAt(text + next, marker, j)
  {
    var s := text + next;
    if j + |marker| <= |text| {
      assert s[j..j + |marker|] == text[j..j + |marker|];
      assert !OccursAt(text, marker, j);
    } else if j + |marker| <= |s| {
      assert s[|text|] == '<' && s[j..j + |marker|][|text| - j] == s[|text|];
    }
  }

  /** A closing marker right after highlighted text that holds none is the first one. */
  lemma ClosesAfter(high: string, rest: string)
    requires Free(high, CLOSE)
    ensures Index(OPEN + (high + (CLOSE + rest)), CLOSE) == Some(3 + |high|)
  {
    var inner := high + (CLOSE + rest);
    var s := OPEN + inner;
    assert s[3 + |high|..3 + |high| + 4] == CLOSE;
    forall j | 0 <= j < 3 + |high| ensures !OccursAt(s, CLOSE, j) {
      if j < 3 {
        assert s[j..j + 4][0] == s[j] && s[j..j + 4][1] == s[j + 1];
        assert s[..3] == OPEN && s[0] == s[..3][0] && s[1] == s[..3][1] && s[2] == s[..3][2];
      } else {
        NoStraddleOrEnd(high, CLOSE + rest, j - 3);
        assert j + 4 <= |s| ==> s[j..j + 4] == inner[j - 3..j + 1];
      }
    }
    FirstOccurrence(s, CLOSE, 3 + |high|);
  }

  lemma NoStraddleOrEnd(high: string, next: string, j: nat)
    requires Free(high, CLOSE) && j < |high| && next != [] && next[0] == '<'
    ensures !OccursAt(high + next, CLOSE, j)
  {
    NoStraddle(high, next, CLOSE, j);
  }

  /** One turn of the loop: where the next complete pair opens, and how far on it closes. */
  function Turn(s: string): (r: Option<(nat, nat)>)
    ensures r.None? <==> !HasPair(s)
    ensures r.Some? ==> Index(s, OPEN) == Some(r.value.0) && Index(s[r.value.0..], CLOSE) == Some(r.value.1)
                        && 3 <= r.value.1 && r.value.0 + r.value.1 + 4 <= |s|
  {
    match Index(s, OPEN)
    case None => None
    case Some(open) =>
      match Index(s[open..], CLOSE)
      case None => None
      case Some(after) =>
        MarkersApart(s, open, after);
        Some((open, after))
  }

  /** The text before the marker and the text between the two. */
  function PieceAt(s: string, open: nat, after: nat): Piece
    requires 3 <= after && open + after + 4 <= |s|
  {
    Piece(s[..open], s[open + 3..open + after])
  }

  function RestAt(s: string, open: nat, after: nat): (r: string)
    requires 3 <= after && open + after + 4 <= |s|
    ensures |r| < |s|
  {
    s[open + after + 4..]
  }

  /** Where the loop of snippetSegments cuts. */
  function CutOf(s: string): (c: Cut)
    ensures Written(c) == s && Proper(c)
    decreases |s|
  {
    match Turn(s)
    case None => Cut([], s)
    case Some((open, after)) =>
      var rest := CutOf(RestAt(s, open, after));
      CutIsProper(s, open, after, rest);
      Cut([PieceAt(s, open, after)] + rest.pieces, rest.tail)
  }

  lemma MarkersApart(s: string, open: nat, after: nat)
    requires OccursAt(s, OPEN, open) && OccursAt(s[open..], CLOSE, after)
    ensures 3 <= after && open + after + 4 <= |s|
  {
    assert s[open..open + 3] == OPEN;
    assert s[open] == '<' && s[open + 1] == 'b' && s[open + 2] == '>' by {
      assert s[open..open + 3][0] == s[open] && s[open..open + 3][1] == s[open + 1] && s[open..open + 3][2] == s[open + 2];
    }
    var t := s[open..];
    assert t[after..after + 4][0] == t[after] && t[after..after + 4][1] == t[after + 1];
  }

  lemma SliceOfSlice(s: string, from: nat, n: nat, i: nat, j: nat)
    requires from <= n <= |s| && i <= j <= n - from
    ensures s[from..n][i..j] == s[from + i..from + j]
  {
    var t, u := s[from..n][i..j], s[from + i..from + j];
    assert |t| == |u| && forall k :: 0 <= k < |t| ==> t[k] == u[k];
  }

  lemma FreeSlice(s: string, sub: string, from: nat, n: nat)
    requires from <= n <= |s| && sub != []
    requires forall i :: 0 <= i < n ==> !OccursAt(s, sub, i)
    ensures Free(s[from..n], sub)
  {
    forall i | 0 <= i <= n - from ensures !OccursAt(s[from..n], sub, i) {
      if i + |sub| <= n - from {
        SliceOfSlice(s, from, n, i, i + |sub|);
        assert !OccursAt(s, sub, from + i);
      }
    }
  }

  /** One cut: the text before the marker, the marker, the highlight, its end, and what is left. */
  lemma OnePiece(s: string, open: nat, after: nat)
    requires OccursAt(s, OPEN, open) && OccursAt(s[open..], CLOSE, after)
    requires 3 <= after && open + after + 4 <= |s|
    ensures s == s[..open] + (OPEN + (s[open + 3..open + after] + (CLOSE + s[open + after + 4..])))
  {
    assert s[open..open + 3] == OPEN;
    assert s[open + after..open + after + 4] == CLOSE by {
      assert s[open..][after..after + 4] == s[open + after..open + after + 4];
    }
    assert s == s[..open] + s[open..];
    assert s[open..] == s[open..open + 3] + s[open + 3..];
    assert s[open + 3..] == s[open + 3..open + after] + s[open + after..];
    assert s[open + after..] == s[open + after..open + after + 4] + s[open + after + 4..];
  }

  lemma CutIsProper(s: string, open: nat, after: nat, rest: Cut)
    requires Index(s, OPEN) == Some(open) && Index(s[open..], CLOSE) == Some(after)
    requires 3 <= after && open + after + 4 <= |s|
    requires Written(rest) == RestAt(s, open, after) && Proper(rest)
    ensures var c := Cut([PieceAt(s, open, after)] + rest.pieces, rest.tail);
            Written(c) == s && Proper(c)
  {
    OnePiece(s, open, after);
    PieceIsFree(s, open, after);
    OneMore(PieceAt(s, open, after), rest);
    hide Written, Proper;
  }

  lemma OneMore(p: Piece, rest: Cut)
    requires Proper(rest) && Free(p.plain, OPEN) && Free(p.high, CLOSE)
    ensures var c := Cut([p] + rest.pieces, rest.tail);
            Proper(c) && Written(c) == p.plain + (OPEN + (p.high + (CLOSE + Written(rest))))
  {
    hide OccursAt, Free, Index, HasPair;
    assert ([p] + rest.pieces)[1..] == rest.pieces;
  }

  lemma PieceIsFree(s: string, open: nat, after: nat)
    requires Index(s, OPEN) == Some(open) && Index(s[open..], CLOSE) == Some(after)
    requires 3 <= after && open + after + 4 <= |s|
    ensures Free(PieceAt(s, open, after).plain, OPEN) && Free(PieceAt(s, open, after).high, CLOSE)
  {
    FreeSlice(s, OPEN, 0, open);
    assert s[0..open] == s[..open];
    FreeSlice(s[open..], CLOSE, 3, after);
    SliceOfSlice(s, open, |s|, 3, after);
    assert s[open..|s|] == s[open..];
    hide OccursAt, Free, Index;
  }

  lemma Parts(plain: string, high: string, w: string)
    ensures var s := plain + (OPEN + (high + (CLOSE + w)));
            var n, m := |plain|, 3 + |high|;
            && n + m + 4 <= |s| && s[..n] == plain && s[n..] == OPEN + (high + (CLOSE + w))
            && s[n + 3..n + m] == high && s[n + m + 4..] == w
  {
    var inner := OPEN + (high + (CLOSE + w));
    var s := plain + inner;
    var n, m := |plain|, 3 + |high|;
    assert s[n..] == inner;
    assert inner[3..m] == high && inner[m + 4..] == w;
    assert s[n + 3..n + m] == inner[3..m] && s[n + m + 4..] == inner[m + 4..];
  }

  /** The first cut of a proper writing is its first piece. */
  lemma FirstCut(p: Piece, w: string)
    requires Free(p.plain, OPEN) && Free(p.high, CLOSE)
    ensures var s := p.plain + (OPEN + (p.high + (CLOSE + w)));
            var n, m := |p.plain|, 3 + |p.high|;
            n + m + 4 <= |s| && Turn(s) == Some((n, m)) && PieceAt(s, n, m) == p && RestAt(s, n, m) == w
  {
    hide OccursAt, Free, Index;
    OpensAfter(p.plain, p.high + (CLOSE + w));
    ClosesAfter(p.high, w);
    Parts(p.plain, p.high, w);
    TurnFinds(p.plain + (OPEN + (p.high + (CLOSE + w))), |p.plain|, 3 + |p.high|);
  }

  lemma CutStep(s: string, open: nat, after: nat)
    requires Turn(s) == Some((open, after))
    ensures var rest := CutOf(RestAt(s, open, after));
            CutOf(s) == Cut([PieceAt(s, open, after)] + rest.pieces, rest.tail)
  {
    hide Turn, Written, Proper, HasPair, Index, Free, OccursAt, PieceAt, RestAt;
  }

  lemma TurnFinds(s: string, open: nat, after: nat)
    requires Index(s, OPEN) == Some(open) && open <= |s| && Index(s[open..], CLOSE) == Some(after)
    ensures Turn(s) == Some((open, after))
  {
  }

  /** An excerpt is cut in exactly one proper way. */
  lemma {:induction false} ProperCutIsUnique(c: Cut)
    requires Proper(c)
    ensures CutOf(Written(c)) == c
    decreases |c.pieces|
  {
    hide OccursAt, Free, Index;
    if c.pieces == [] {
      NothingFound(c.tail);
    } else {
      var p, rest := c.pieces[0], Cut(c.pieces[1..], c.tail);
      ProperCutIsUnique(rest);
      assert Written(c) == p.plain + (OPEN + (p.high + (CLOSE + Written(rest))));
      hide Written, CutOf, HasPair, Turn, PieceAt, RestAt;
      FirstCut(p, Written(rest));
      CutStep(Written(c), |p.plain|, 3 + |p.high|);
      assert c.pieces == [p] + rest.pieces;
    }
  }

  // ---- segments ----

  function Shown(text: string, highlighted: bool): seq<Segment> {
    if text == "" then [] else [Segment(text, highlighted)]
  }

  function ShownPieces(pieces: seq<Piece>): seq<Segment> {
    if pieces == [] then []
    else Shown(pieces[0].plain, false) + Shown(pieces[0].high, true) + ShownPieces(pieces[1..])
  }

  /** The segments of an excerpt. One that shows nothing at all is given back whole, markers included. */
  function Segments(s: string): seq<Segment> {
    var c := CutOf(s);
    var shown := ShownPieces(c.pieces) + Shown(c.tail, false);
    if shown == [] then [Segment(s, false)] else shown
  }

  function Texts(segments: seq<Segment>): string {
    if segments == [] then "" else segments[0].text + Texts(segments[1..])
  }

  /** What is left of an excerpt without its complete marker pairs. */
  function Unmarked(pieces: seq<Piece>, tail: string): string {
    if pieces == [] then tail else pieces[0].plain + (pieces[0].high + Unmarked(pieces[1..], tail))
  }

  lemma TextsOne(text: string, highlighted: bool, rest: seq<Segment>)
    ensures Texts(Shown(text, highlighted) + rest) == text + Texts(rest)
  {
    if text == "" {
      assert Shown(text, highlighted) + rest == rest;
    } else {
      assert (Shown(text, highlighted) + rest)[1..] == rest;
    }
  }

  lemma {:induction false} ShownTexts(pieces: seq<Piece>, tail: string)
    ensures Texts(ShownPieces(pieces) + Shown(tail, false)) == Unmarked(pieces, tail)
  {
    if pieces == [] {
      TextsOne(tail, false, []);
      assert ShownPieces(pieces) + Shown(tail, false) == Shown(tail, false) + [];
    } else {
      var p, rest := pieces[0], ShownPieces(pieces[1..]) + Shown(tail, false);
      ShownTexts(pieces[1..], tail);
      TextsOne(p.plain, false, Shown(p.high, true) + rest);
      TextsOne(p.high, true, rest);
      assert ShownPieces(pieces) + Shown(tail, false) == Shown(p.plain, false) + (Shown(p.high, true) + rest);
    }
  }

  /** Whatever the excerpt, it is one proper writing, and its segments' texts are that writing without the
      marker pairs; only an excerpt of nothing but empty pairs keeps them. */
  lemma SegmentsKeepTheText(s: string)
    ensures var c := CutOf(s);
            && Written(c) == s && Proper(c)
            && (Texts(Segments(s)) == Unmarked(c.pieces, c.tail)
                || (Unmarked(c.pieces, c.tail) == "" && Segments(s) == [Segment(s, false)]))
  {
    var c := CutOf(s);
    ShownTexts(c.pieces, c.tail);
  }

  /** Nothing but k highlights of nothing. */
  function EmptyPairs(k: nat): string {
    if k == 0 then "" else OPEN + (CLOSE + EmptyPairs(k - 1))
  }

  function EmptyPieces(k: nat): seq<Piece> {
    if k == 0 then [] else [Piece("", "")] + EmptyPieces(k - 1)
  }

  lemma {:induction false} EmptyPiecesWritten(k: nat)
    ensures Proper(Cut(EmptyPieces(k), "")) && Written(Cut(EmptyPieces(k), "")) == EmptyPairs(k)
    ensures Unmarked(EmptyPieces(k), "") == "" && (k > 0 ==> EmptyPairs(k) != "")
  {
    hide OccursAt, Free, Index, HasPair;
    if k == 0 {
      NothingToCut("");
    } else {
      NothingToCut("");
      NothingToClose();
      EmptyPiecesWritten(k - 1);
      var rest := Cut(EmptyPieces(k - 1), "");
      OneMore(Piece("", ""), rest);
      hide Written, Proper;
      assert EmptyPieces(k)[1..] == rest.pieces;
      assert "" + (OPEN + ("" + (CLOSE + Written(rest)))) == OPEN + (CLOSE + Written(rest));
    }
  }

  lemma NothingToClose()
    ensures Free("", CLOSE)
  {
  }

  lemma {:induction false} NothingUnmarked(c: Cut)
    requires Unmarked(c.pieces, c.tail) == ""
    ensures Written(c) == EmptyPairs(|c.pieces|)
    decreases |c.pieces|
  {
    if c.pieces != [] {
      NothingUnmarked(Cut(c.pieces[1..], c.tail));
      assert c.pieces[0] == Piece("", "");
      assert "" + (OPEN + ("" + (CLOSE + EmptyPairs(|c.pieces| - 1)))) == OPEN + (CLOSE + EmptyPairs(|c.pieces| - 1));
    }
  }

  /** The texts concatenate to the excerpt without its complete marker pairs, as the contract of segments
      promises, except for exactly one family: one or more highlights of nothing and nothing else. */
  lemma TextIsKeptIff(s: string)
    ensures var c := CutOf(s);
            Texts(Segments(s)) == Unmarked(c.pieces, c.tail) <==> !exists k: nat :: k > 0 && s == EmptyPairs(k)
  {
    var c := CutOf(s);
    KeptUnlessNothingShows(s);
    hide Segments, CutOf, Proper;
    if Unmarked(c.pieces, c.tail) == "" {
      NothingUnmarked(c);
    }
    if k: nat :| k > 0 && s == EmptyPairs(k) {
      EmptyPiecesWritten(k);
      ProperCutIsUnique(Cut(EmptyPieces(k), ""));
    }
  }

  lemma KeptUnlessNothingShows(s: string)
    ensures var c := CutOf(s);
            && Written(c) == s
            && (Texts(Segments(s)) == Unmarked(c.pieces, c.tail) <==> s == "" || Unmarked(c.pieces, c.tail) != "")
  {
    var c := CutOf(s);
    ShownTexts(c.pieces, c.tail);
    SegmentsKeepTheText(s);
    hide CutOf, Written, ShownPieces;
    NothingShownIff(c.pieces, c.tail);
    assert Texts([Segment(s, false)]) == s + Texts([]);
  }

  lemma {:induction false} NothingShownIff(pieces: seq<Piece>, tail: string)
    ensures ShownPieces(pieces) + Shown(tail, false) == [] <==> Unmarked(pieces, tail) == ""
  {
    if pieces != [] {
      NothingShownIff(pieces[1..], tail);
    }
  }

  /** An excerpt that highlights nothing is given back with its markers. */
  lemma MarkersStay()
    ensures Segments("<b></b>") == [Segment("<b></b>", false)]
    ensures Texts(Segments("<b></b>")) != Unmarked(CutOf("<b></b>").pieces, CutOf("<b></b>").tail)
  {
    assert EmptyPairs(1) == "<b></b>";
    EmptyPiecesWritten(1);
    ProperCutIsUnique(Cut(EmptyPieces(1), ""));
    TextIsKeptIff("<b></b>");
    hide CutOf, EmptyPairs;
  }

  // ---- printing ----

  function Print(segments: seq<Segment>): string {
    if segments == [] then ""
    else (if segments[0].highlighted then OPEN + (segments[0].text + CLOSE) else segments[0].text) + Print(segments[1..])
  }

  /** Plain text opens nothing, highlighted text closes nothing, none is empty, no two plain ones adjoin. */
  predicate Printable(segments: seq<Segment>) {
    && (forall i :: 0 <= i < |segments| ==>
          && segments[i].text != ""
          && if segments[i].highlighted then Free(segments[i].text, CLOSE) else Free(segments[i].text, OPEN))
    && (forall i :: 0 <= i < |segments| - 1 ==> segments[i].highlighted || segments[i + 1].highlighted)
  }

  /** The pieces a list of segments is printed as. */
  function Pieces(segments: seq<Segment>): Cut
    decreases |segments|
  {
    if segments == [] then Cut([], "")
    else if segments[0].highlighted then
      var rest := Pieces(segments[1..]);
      Cut([Piece("", segments[0].text)] + rest.pieces, rest.tail)
    else if |segments| == 1 then Cut([], segments[0].text)
    else
      var rest := Pieces(segments[2..]);
      Cut([Piece(segments[0].text, segments[1].text)] + rest.pieces, rest.tail)
  }

  /** Printing a plain stretch and the highlight after it writes one more piece. */
  lemma OneMorePiece(p: Piece, rest: Cut)
    requires Proper(rest) && Free(p.plain, OPEN) && Free(p.high, CLOSE)
    ensures var c := Cut([p] + rest.pieces, rest.tail);
            && Proper(c)
            && Written(c) == p.plain + (OPEN + (p.high + CLOSE) + Written(rest))
            && ShownPieces(c.pieces) == Shown(p.plain, false) + Shown(p.high, true) + ShownPieces(rest.pieces)
  {
    hide OccursAt, Free, Index, HasPair;
    var c := Cut([p] + rest.pieces, rest.tail);
    assert c.pieces[1..] == rest.pieces;
    assert OPEN + (p.high + (CLOSE + Written(rest))) == OPEN + (p.high + CLOSE) + Written(rest);
  }

  /** c prints and shows the segments. */
  ghost predicate Prints(c: Cut, segments: seq<Segment>) {
    Proper(c) && Written(c) == Print(segments) && ShownPieces(c.pieces) + Shown(c.tail, false) == segments
  }

  lemma PrintHighlighted(h: Segment, rest: Cut, more: seq<Segment>)
    requires Prints(rest, more) && h.highlighted && h.text != "" && Free(h.text, CLOSE)
    ensures Prints(Cut([Piece("", h.text)] + rest.pieces, rest.tail), [h] + more)
  {
    hide OccursAt, Free, Index, HasPair;
    NothingToCut("");
    OneMorePiece(Piece("", h.text), rest);
    hide ShownPieces, Written, Proper;
    PrintOne(h, more);
    assert "" + Print([h] + more) == Print([h] + more);
    assert Shown("", false) + Shown(h.text, true) == [h];
    assert [h] + ShownPieces(rest.pieces) + Shown(rest.tail, false) == [h] + more;
  }

  lemma PrintPlain(p: Segment, h: Segment, rest: Cut, more: seq<Segment>)
    requires Prints(rest, more) && h.highlighted && h.text != "" && Free(h.text, CLOSE)
    requires !p.highlighted && p.text != "" && Free(p.text, OPEN)
    ensures Prints(Cut([Piece(p.text, h.text)] + rest.pieces, rest.tail), [p] + ([h] + more))
  {
    hide OccursAt, Free, Index, HasPair;
    OneMorePiece(Piece(p.text, h.text), rest);
    hide ShownPieces, Written, Proper;
    PrintOne(p, [h] + more);
    PrintOne(h, more);
    assert Shown(p.text, false) + Shown(h.text, true) == [p, h];
    assert [p, h] + ShownPieces(rest.pieces) + Shown(rest.tail, false) == [p] + ([h] + more);
  }

  lemma PrintOne(x: Segment, more: seq<Segment>)
    ensures Print([x] + more) == (if x.highlighted then OPEN + (x.text + CLOSE) else x.text) + Print(more)
  {
    assert ([x] + more)[1..] == more;
  }

  lemma {:induction false} PiecesPrint(segments: seq<Segment>)
    requires Printable(segments)
    ensures Prints(Pieces(segments), segments)
    decreases |segments|
  {
    hide OccursAt, Free, Index, HasPair;
    if segments == [] {
      NothingToCut("");
    } else if segments[0].highlighted {
      PiecesPrint(segments[1..]);
      PrintHighlighted(segments[0], Pieces(segments[1..]), segments[1..]);
      hide Prints;
      assert segments == [segments[0]] + segments[1..];
    } else if |segments| == 1 {
      NothingToCut(segments[0].text);
      PrintOne(segments[0], []);
      assert segments == [segments[0]] + [];
    } else {
      PiecesPrint(segments[2..]);
      PrintPlain(segments[0], segments[1], Pieces(segments[2..]), segments[2..]);
      hide Prints;
      assert segments == [segments[0]] + ([segments[1]] + segments[2..]);
    }
  }

  lemma NothingToCut(text: string)
    ensures Free("", OPEN)
    ensures Free(text, OPEN) ==> !HasPair(text)
  {
  }

  /** Splitting inverts printing. */
  lemma SplittingInvertsPrinting(segments: seq<Segment>)
    requires segments != [] && Printable(segments)
    ensures Segments(Print(segments)) == segments
  {
    PiecesPrint(segments);
    ProperCutIsUnique(Pieces(segments));
  }

  // ---- the loop ----

  lemma {:induction false} ShownOneMore(pieces: seq<Piece>, p: Piece)
    ensures ShownPieces(pieces + [p]) == ShownPieces(pieces) + Shown(p.plain, false) + Shown(p.high, true)
  {
    if pieces == [] {
      assert pieces + [p] == [p];
    } else {
      ShownOneMore(pieces[1..], p);
      assert (pieces + [p])[1..] == pieces[1..] + [p];
    }
  }

  method SnippetSegments(snippet: string) returns (segments: seq<Segment>)
    ensures segments == Segments(snippet)
    ensures segments != []
  {
    hide CutOf, Index, ShownPieces;
    segments := [];
    var rest := snippet;
    ghost var done: seq<Piece> := [];
    NothingShown();
    assert [] + CutOf(rest).pieces == CutOf(rest).pieces;
    while true
      invariant CutOf(snippet) == Cut(done + CutOf(rest).pieces, CutOf(rest).tail)
      invariant segments == ShownPieces(done)
      decreases |rest|
    {
      NothingFound(rest);
      var open := Index(rest, OPEN);
      if open.None? {
        break;
      }
      var closing := Index(rest[open.value..], CLOSE);
      if closing.None? {
        // An unclosed marker is not a highlight.
        break;
      }
      TurnFinds(rest, open.value, closing.value);
      CutStep(rest, open.value, closing.value);
      var end := open.value + closing.value;
      ghost var p := PieceAt(rest, open.value, closing.value);
      ghost var left := CutOf(RestAt(rest, open.value, closing.value)).pieces;
      assert done + ([p] + left) == (done + [p]) + left;
      ShownOneMore(done, p);
      segments := segments + Shown(rest[..open.value], false);
      segments := segments + Shown(rest[open.value + 3..end], true);
      rest, done := rest[end + 4..], done + [p];
    }
    assert done + [] == done;
    segments := segments + Shown(rest, false);
    if segments == [] {
      segments := [Segment(snippet, false)];
    }
  }

  lemma NothingShown()
    ensures ShownPieces([]) == []
  {
  }

  /** The loop stops where nothing more is cut. */
  lemma NothingFound(s: string)
    ensures !HasPair(s) ==> CutOf(s) == Cut([], s)
  {
  }
}
