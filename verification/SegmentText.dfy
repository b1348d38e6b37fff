/** What a segment says of the text: its own source, in both units, at the engine's place, in its
    token's colour; and which colour every byte of the document takes. */
module SegmentText {
  import opened Wrappers
  import opened Text
  import opened Semantic
  import opened Sites
  import opened SegmentFacts
  import G = GuardFacts
  import C = Columns
  import D = Documents
  import T = Trace

  /** Segment `s` is the text from index `from` to index `to`: its bytes, its length in UTF-16
      units and in scalar values, and its place. */
  ghost predicate Selects(text: string, s: Segment, from: nat, to: nat) {
    && from <= to <= |text| && '\n' !in text[from..to]
    && s.start == Offset(text, from) && s.end == Offset(text, to)
    && s.len == Width(Utf16, text, to) - Width(Utf16, text, from) && s.lenChars == to - from
    && D.Position(s.row, s.col) == EnginePlace(Utf16, text, from) && s.colChars == from - ColumnBegin(text, from)
  }

  /** Segment `s` is of this kind and is some of the text from index `lo` to index `hi`. */
  ghost predicate SelectsWithin(text: string, s: Segment, kind: nat, lo: nat, hi: nat) {
    s.kind == kind && exists from: nat, to: nat :: lo <= from && to <= hi && Selects(text, s, from, to)
  }

  /** The token says how long its text is; one that spans lines is cut by its text alone. */
  predicate OwnLength(t: T.TokenPoint) {
    SpansLines(t) || (t.src != "" && t.len == ByteLen(t.src))
  }

  lemma {:induction false} ColumnChars(text: string, t: T.TokenPoint, k: nat)
    requires Consistent(text, t, k)
    ensures ColumnOf(text, t).chars == k - ColumnBegin(text, k)
  {
    FloorOfOffset(text, k);
    C.WalkBackIsWindow(Utf16, text, k, k - ColumnBegin(text, k));
  }

  lemma {:induction false} WidthInToken(enc: Encoding, text: string, t: T.TokenPoint, k: nat, a: nat)
    requires SitsAt(text, t, k) && a <= |t.src|
    ensures Width(enc, text, k + a) == Width(enc, text, k) + Width(enc, t.src, a)
  {
    WidthOfSlice(enc, text, k, k + a);
    var own := text[k..k + |t.src|];
    assert own[..a] == text[k..k + a];
    assert own == t.src;
    WidthOfPrefix(enc, t.src, text[k..k + a], a);
  }

  /** What a piece of a token measures, in the text itself. */
  lemma {:induction false} PieceMeasures(
    text: string, t: T.TokenPoint, kind: nat, col: C.Column, k: nat, a: nat, i: nat)
    requires SitsAt(text, t, k) && a <= |t.src|
    ensures var s, b := PieceAt(text, t, kind, col, a, i), LineEnd(t.src, a, NextFeed(t.src, a));
      s.len == Width(Utf16, text, k + b) - Width(Utf16, text, k + a) && s.lenChars == b - a
  {
    WidthInToken(Utf16, text, t, k, a);
    WidthInToken(Utf16, text, t, k, LineEnd(t.src, a, NextFeed(t.src, a)));
  }

  lemma {:induction false} NoFeedInLine(text: string, t: T.TokenPoint, k: nat, a: nat, b: nat)
    requires SitsAt(text, t, k) && a <= b <= |t.src| && forall x :: a <= x < b ==> t.src[x] != '\n'
    ensures '\n' !in text[k + a..k + b]
  {
    forall x | k + a <= x < k + b ensures text[x] != '\n' {
      assert text[x] == text[k..k + |t.src|][x - k];
    }
  }

  lemma {:induction false} PieceColumn(text: string, t: T.TokenPoint, kind: nat, k: nat, a: nat, i: nat)
    requires Consistent(text, t, k) && G.IsLine(text, t, k, a, i)
    ensures PieceAt(text, t, kind, ColumnOf(text, t), a, i).colChars == k + a - ColumnBegin(text, k + a)
  {
    if i == 0 {
      ColumnChars(text, t, k);
    } else {
      assert text[k + a - 1] == text[k..k + |t.src|][a - 1];
    }
  }

  lemma {:induction false} PieceSelects(text: string, t: T.TokenPoint, kind: nat, k: nat, a: nat, i: nat)
    requires Consistent(text, t, k) && G.IsLine(text, t, k, a, i)
    ensures Selects(text, PieceAt(text, t, kind, ColumnOf(text, t), a, i), k + a,
                    k + LineEnd(t.src, a, NextFeed(t.src, a)))
  {
    var col := ColumnOf(text, t);
    PieceRange(text, t, kind, col, k, a, i);
    PieceMeasures(text, t, kind, col, k, a, i);
    NoFeedInLine(text, t, k, a, LineEnd(t.src, a, NextFeed(t.src, a)));
    G.PieceStands(text, t, kind, k, a, i);
    PieceColumn(text, t, kind, k, a, i);
  }

  /** The segments are the pieces of the token's lines from index `a` on, its `i`th line. */
  ghost predicate Listed(
    text: string, t: T.TokenPoint, kind: nat, col: C.Column, ss: seq<Segment>, a: nat, i: nat)
    decreases |ss|
  {
    if a > |t.src| then ss == []
    else
      && ss != [] && ss[0] == PieceAt(text, t, kind, col, a, i)
      && Listed(text, t, kind, col, ss[1..], NextFeed(t.src, a) + 1, i + 1)
  }

  lemma {:induction false} ListedCons(
    text: string, t: T.TokenPoint, kind: nat, col: C.Column, s: Segment, rest: seq<Segment>, a: nat, i: nat)
    requires a <= |t.src| && s == PieceAt(text, t, kind, col, a, i)
    requires Listed(text, t, kind, col, rest, NextFeed(t.src, a) + 1, i + 1)
    ensures Listed(text, t, kind, col, [s] + rest, a, i)
  {
    assert ([s] + rest)[1..] == rest;
  }

  lemma {:induction false} LinesAreListed(text: string, t: T.TokenPoint, kind: nat, col: C.Column, a: nat, i: nat)
    ensures Listed(text, t, kind, col, LinesFrom(text, t, kind, col, a, i), a, i)
    decreases |t.src| + 1 - a
  {
    if a <= |t.src| {
      var next := NextFeed(t.src, a) + 1;
      LinesAreListed(text, t, kind, col, next, i + 1);
      var piece, rest := PieceAt(text, t, kind, col, a, i), LinesFrom(text, t, kind, col, next, i + 1);
      ListedCons(text, t, kind, col, piece, rest, a, i);
      LinesFromStep(text, t, kind, col, a, i);
    }
  }

  /** Each segment of a token that spans lines is the piece of one of its lines. */
  lemma {:induction false} LineOfPiece(
    text: string, t: T.TokenPoint, kind: nat, col: C.Column, ss: seq<Segment>, a: nat, i: nat, n: nat)
    returns (b: nat)
    requires Listed(text, t, kind, col, ss, a, i) && n < |ss|
    ensures a <= b <= |t.src| && ss[n] == PieceAt(text, t, kind, col, b, i + n)
    ensures if n == 0 then b == a else a < b && t.src[b - 1] == '\n'
    ensures Newlines(t.src, b) == Newlines(t.src, a) + n
    decreases n
  {
    b := a;
    if n > 0 {
      b := LineOfPiece(text, t, kind, col, ss[1..], NextFeed(t.src, a) + 1, i + 1, n - 1);
      NewlinesGrow(t.src, a, NextFeed(t.src, a));
    }
  }

  /** The piece of a token that spans lines, and the line of the text it is of. */
  lemma {:induction false} LineOf(text: string, t: T.TokenPoint, kind: nat, s: Segment) returns (b: nat, n: nat)
    requires SpansLines(t) && s in Pieces(text, t, kind)
    ensures b <= |t.src| && s == PieceAt(text, t, kind, ColumnOf(text, t), b, n)
    ensures if n == 0 then b == 0 else b > 0 && t.src[b - 1] == '\n'
    ensures Newlines(t.src, b) == n
  {
    var ss, col := Pieces(text, t, kind), ColumnOf(text, t);
    n :| n < |ss| && ss[n] == s;
    LinesAreListed(text, t, kind, col, 0, 0);
    b := LineOfPiece(text, t, kind, col, ss, 0, 0, n);
  }

  lemma {:induction false} LineInText(text: string, t: T.TokenPoint, k: nat, b: nat, m: nat)
    requires SitsAt(text, t, k) && b <= |t.src| && Newlines(t.src, b) == m
    requires if b == 0 then m == 0 else m > 0 && t.src[b - 1] == '\n'
    ensures G.IsLine(text, t, k, b, m)
  {
    NewlinesOfSlice(text, k, k + b);
    var own := text[k..k + |t.src|];
    assert own[..b] == text[k..k + b];
    assert own == t.src;
    NewlinesOfPrefix(t.src, text[k..k + b], b);
  }

  lemma {:induction false} WholeSelects(text: string, t: T.TokenPoint, kind: nat, k: nat)
    requires Consistent(text, t, k) && OwnLength(t) && !SpansLines(t)
    ensures var s := WholePiece(text, t, kind, ColumnOf(text, t));
      s.len >= 1 && Selects(text, s, k, k + |t.src|)
  {
    WidthGrows(Utf8, t.src, 0, |t.src|);
    assert t.Span() == ByteLen(t.src);
    WholePieceCovers(text, t, kind, k);
    WidthInToken(Utf16, text, t, k, |t.src|);
    WidthGrows(Utf16, t.src, 0, |t.src|);
    NoFeedInLine(text, t, k, 0, |t.src|);
    G.FirstStands(text, t, k);
    ColumnChars(text, t, k);
  }

  /** Every piece of a consistent token is some of the token's own text, on one line, in the
      token's own kind: its row, column and length select exactly that. On one line it is all of
      the token, never empty. */
  lemma {:induction false} PiecesSelectText(text: string, t: T.TokenPoint, kind: nat, k: nat, s: Segment)
    requires Consistent(text, t, k) && OwnLength(t) && s in Pieces(text, t, kind)
    ensures SelectsWithin(text, s, kind, k, k + |t.src|)
    ensures !SpansLines(t) ==> s.len >= 1 && Selects(text, s, k, k + |t.src|)
  {
    if SpansLines(t) {
      var b, n := LineOf(text, t, kind, s);
      LineInText(text, t, k, b, n);
      PieceSelects(text, t, kind, k, b, n);
    } else {
      WholeSelects(text, t, kind, k);
    }
  }

  /** Wherever a token says it is, its pieces lie in the text. */
  lemma {:induction false} PiecesLieInText(text: string, t: T.TokenPoint, kind: nat, s: Segment)
    requires s in Pieces(text, t, kind)
    ensures s.start <= s.end <= ByteLen(text) && s.kind == kind
  {
    if SpansLines(t) {
      var b, n := LineOf(text, t, kind, s);
      WidthGrows(Utf8, t.src, b, LineEnd(t.src, b, NextFeed(t.src, b)));
    }
  }

  // ---------------------------------------------------------------------------------------
  // The colour of every byte.

  /** The kind of the first segment that covers the byte. */
  function ColourAt(ss: seq<Segment>, byte: nat): Option<nat> {
    if ss == [] then None else if ss[0].start <= byte < ss[0].end then Some(ss[0].kind) else ColourAt(ss[1..], byte)
  }

  lemma {:induction false} ColourJoin(a: seq<Segment>, b: seq<Segment>, byte: nat)
    ensures ColourAt(a + b, byte) == if ColourAt(a, byte).Some? then ColourAt(a, byte) else ColourAt(b, byte)
  {
    if a == [] {
      assert a + b == b;
    } else {
      assert (a + b)[1..] == a[1..] + b;
      ColourJoin(a[1..], b, byte);
    }
  }

  lemma {:induction false} OneColour(ss: seq<Segment>, kind: nat, byte: nat)
    requires forall s :: s in ss ==> s.kind == kind
    ensures ColourAt(ss, byte) == if Covered(ss, byte) then Some(kind) else None
  {
    if ss != [] { OneColour(ss[1..], kind, byte); }
  }

  lemma {:induction false} NoColourOutside(ss: seq<Segment>, lo: nat, hi: nat, byte: nat)
    requires forall s :: s in ss ==> lo <= s.start && s.end <= hi
    requires byte < lo || hi <= byte
    ensures ColourAt(ss, byte) == None
  {
    if ss != [] { NoColourOutside(ss[1..], lo, hi, byte); }
  }

  /** The colour a token gives to a byte of its scalar value `x`. */
  function TokenColour(kindOf: string -> Option<nat>, t: T.TokenPoint, x: nat): Option<nat>
    requires x < |t.src|
  {
    if SpansLines(t) && EndsLine(t.src, x) then None else kindOf(t.name)
  }

  lemma {:induction false} OwnBytes(text: string, t: T.TokenPoint, kind: nat, k: nat, s: Segment)
    requires SitsAt(text, t, k) && OwnLength(t) && s in Pieces(text, t, kind)
    ensures t.si <= s.start && s.end <= t.si + ByteLen(t.src)
  {
    if SpansLines(t) {
      PiecesCoverToken(text, t, kind, k);
    } else {
      WholePieceCovers(text, t, kind, k);
      WidthGrows(Utf8, t.src, 0, |t.src|);
      TokenBytes(text, t, k);
    }
  }

  lemma {:induction false} ByteInToken(text: string, t: T.TokenPoint, kind: nat, k: nat, x: nat, byte: nat)
    requires SitsAt(text, t, k) && OwnLength(t) && x < |t.src| && ByteOf(text, k + x, byte)
    ensures Covered(Pieces(text, t, kind), byte) <==> !(SpansLines(t) && EndsLine(t.src, x))
    ensures t.si <= byte < t.si + ByteLen(t.src)
  {
    TokenBytes(text, t, k);
    ByteOrder(text, k + x, byte, k);
    ByteOrder(text, k + x, byte, k + |t.src|);
    if SpansLines(t) {
      PiecesCoverToken(text, t, kind, k);
    } else {
      WholePieceCovers(text, t, kind, k);
      WidthGrows(Utf8, t.src, 0, |t.src|);
    }
  }

  /** What the pieces of one token make of a byte of it. */
  lemma {:induction false} TokenColours(
    text: string, kindOf: string -> Option<nat>, t: T.TokenPoint, k: nat, x: nat, byte: nat)
    requires SitsAt(text, t, k) && OwnLength(t) && x < |t.src| && ByteOf(text, k + x, byte)
    ensures ColourAt(PiecesOf(text, kindOf, t), byte) == TokenColour(kindOf, t, x)
  {
    if kindOf(t.name).Some? {
      var kind := kindOf(t.name).value;
      forall s | s in Pieces(text, t, kind) ensures s.kind == kind {
        PiecesLieInText(text, t, kind, s);
      }
      OneColour(Pieces(text, t, kind), kind, byte);
      ByteInToken(text, t, kind, k, x, byte);
    }
  }

  /** And of a byte outside it. */
  lemma {:induction false} TokenColoursNoOther(
    text: string, kindOf: string -> Option<nat>, t: T.TokenPoint, k: nat, byte: nat)
    requires SitsAt(text, t, k) && OwnLength(t) && !InToken(t, byte)
    ensures ColourAt(PiecesOf(text, kindOf, t), byte) == None
  {
    if kindOf(t.name).Some? {
      var kind := kindOf(t.name).value;
      forall s | s in Pieces(text, t, kind) ensures t.si <= s.start && s.end <= t.si + ByteLen(t.src) {
        OwnBytes(text, t, kind, k, s);
      }
      NoColourOutside(Pieces(text, t, kind), t.si, t.si + ByteLen(t.src), byte);
    }
  }

  /** The pieces of a token, none when it is not coloured. */
  function PiecesOf(text: string, kindOf: string -> Option<nat>, t: T.TokenPoint): seq<Segment> {
    match kindOf(t.name)
    case None => []
    case Some(kind) => Pieces(text, t, kind)
  }

  ghost predicate OwnLengths(ts: seq<T.TokenPoint>) {
    forall n :: 0 <= n < |ts| ==> OwnLength(ts[n])
  }

  /** No token but the `n`th, if any, colours the byte. */
  ghost predicate NoneBut(text: string, kindOf: string -> Option<nat>, ts: seq<T.TokenPoint>, n: int, byte: nat) {
    forall m :: 0 <= m < |ts| && m != n ==> ColourAt(PiecesOf(text, kindOf, ts[m]), byte) == None
  }

  lemma {:induction false} OnlyOneColours(
    text: string, kindOf: string -> Option<nat>, ts: seq<T.TokenPoint>, n: int, byte: nat)
    requires NoneBut(text, kindOf, ts, n, byte)
    ensures ColourAt(AllPieces(text, kindOf, ts), byte) ==
            if 0 <= n < |ts| then ColourAt(PiecesOf(text, kindOf, ts[n]), byte) else None
    decreases |ts|
  {
    if ts != [] {
      assert n != 0 ==> ColourAt(PiecesOf(text, kindOf, ts[0]), byte) == None;
      OnlyOneColours(text, kindOf, ts[1..], n - 1, byte);
      ColourJoin(PiecesOf(text, kindOf, ts[0]), AllPieces(text, kindOf, ts[1..]), byte);
    }
  }

  /** Every byte of a token, the tokens standing one after the other, takes the token's own
      colour, but for what ends a line of a token that spans lines. */
  lemma {:induction false} BytesTakeTheirColour(
    text: string, kindOf: string -> Option<nat>, ts: seq<T.TokenPoint>, ks: seq<nat>, n: nat, x: nat, byte: nat)
    requires G.InText(text, ts, ks) && OwnLengths(ts)
    requires n < |ts| && x < |ts[n].src| && ByteOf(text, ks[n] + x, byte)
    ensures ColourAt(AllPieces(text, kindOf, ts), byte) == TokenColour(kindOf, ts[n], x)
  {
    forall m | 0 <= m < |ts| && m != n ensures ColourAt(PiecesOf(text, kindOf, ts[m]), byte) == None {
      NotInOthers(text, ts, ks, n, x, byte, m);
      TokenColoursNoOther(text, kindOf, ts[m], ks[m], byte);
    }
    OnlyOneColours(text, kindOf, ts, n, byte);
    TokenColours(text, kindOf, ts[n], ks[n], x, byte);
  }

  lemma {:induction false} NotInOthers(
    text: string, ts: seq<T.TokenPoint>, ks: seq<nat>, n: nat, x: nat, byte: nat, m: nat)
    requires G.InText(text, ts, ks) && n < |ts| && x < |ts[n].src| && ByteOf(text, ks[n] + x, byte)
    requires m < |ts| && m != n
    ensures !InToken(ts[m], byte)
  {
    assert Consistent(text, ts[m], ks[m]) && Consistent(text, ts[n], ks[n]);
    TokenBytes(text, ts[m], ks[m]);
    if m < n {
      ByteOrder(text, ks[n] + x, byte, ks[m] + |ts[m].src|);
    } else {
      ByteOrder(text, ks[n] + x, byte, ks[m]);
    }
  }

  predicate InToken(t: T.TokenPoint, byte: nat) {
    t.si <= byte < t.si + ByteLen(t.src)
  }

  /** A byte of no token takes no colour. */
  lemma {:induction false} BytesOutsideTakeNone(
    text: string, kindOf: string -> Option<nat>, ts: seq<T.TokenPoint>, ks: seq<nat>, byte: nat)
    requires G.InText(text, ts, ks) && OwnLengths(ts)
    requires forall n :: 0 <= n < |ts| ==> !InToken(ts[n], byte)
    ensures ColourAt(AllPieces(text, kindOf, ts), byte) == None
  {
    forall m | 0 <= m < |ts| ensures ColourAt(PiecesOf(text, kindOf, ts[m]), byte) == None {
      assert Consistent(text, ts[m], ks[m]) && OwnLength(ts[m]) && !InToken(ts[m], byte);
      TokenColoursNoOther(text, kindOf, ts[m], ks[m], byte);
    }
    OnlyOneColours(text, kindOf, ts, -1, byte);
  }
}
