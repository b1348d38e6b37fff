/** Semantic tokens: line-local segments and their delta encoding (rs/src/semantic.rs). */
module Semantic {
  import opened Wrappers
  import opened Text
  import T = Trace
  import C = Columns

  /** A piece of a coloured token within one line: its row, its column and length both in UTF-16
      units and in scalar values, and the bytes of the text it colours. */
  datatype Segment = Segment(
    row: nat, col: nat, len: nat, colChars: nat, lenChars: nat, start: nat, end: nat, kind: nat)

  function Min(a: nat, b: nat): nat {
    if a < b then a else b
  }

  function AtLeastOne(n: nat): nat {
    if n < 1 then 1 else n
  }

  // ---------------------------------------------------------------------------------------
  // The lines of a token.

  /** The index of the first line feed of `s` from `a`, or its end. */
  function NextFeed(s: string, a: nat): (p: nat)
    requires a <= |s|
    ensures a <= p <= |s|
    ensures forall i :: a <= i < p ==> s[i] != '\n'
    ensures p < |s| ==> s[p] == '\n'
    decreases |s| - a
  {
    if a == |s| || s[a] == '\n' then a else NextFeed(s, a + 1)
  }

  /** The end of the line `s[a..p]` without the carriage return that ends it. */
  function LineEnd(s: string, a: nat, p: nat): (b: nat)
    requires a <= p <= |s|
    ensures a <= b <= p
  {
    if p > a && s[p - 1] == '\r' then p - 1 else p
  }

  /** The piece of token `t` that starts at index `a` of its text, its `i`th line. */
  function PieceAt(text: string, t: T.TokenPoint, kind: nat, col: C.Column, a: nat, i: nat): Segment
    requires a <= |t.src|
  {
    var b := LineEnd(t.src, a, NextFeed(t.src, a));
    WidthGrows(Utf16, t.src, a, b);
    Segment(C.Pred(t.ri) + i,
            if i == 0 then col.units else 0,
            Width(Utf16, t.src, b) - Width(Utf16, t.src, a),
            if i == 0 then col.chars else 0,
            b - a,
            Min(t.si + Offset(t.src, a), ByteLen(text)),
            Min(t.si + Offset(t.src, b), ByteLen(text)),
            kind)
  }

  /** The pieces of a token that spans lines, from its `i`th line on, which starts at index
      `a` of its text: one for each line. */
  function LinesFrom(text: string, t: T.TokenPoint, kind: nat, col: C.Column, a: nat, i: nat): seq<Segment>
    decreases |t.src| + 1 - a
  {
    if a > |t.src| then []
    else [PieceAt(text, t, kind, col, a, i)] + LinesFrom(text, t, kind, col, NextFeed(t.src, a) + 1, i + 1)
  }

  /** The one piece of a token on a single line: as long as the token, and never empty. */
  function WholePiece(text: string, t: T.TokenPoint, kind: nat, col: C.Column): Segment {
    var end := Min(t.si + t.Span(), ByteLen(text));
    Segment(C.Pred(t.ri), col.units, AtLeastOne(Width(Utf16, t.src, |t.src|)), col.chars, AtLeastOne(|t.src|),
            Min(t.si, end), end, kind)
  }

  function ColumnOf(text: string, t: T.TokenPoint): C.Column {
    C.WalkBack(Utf16, text, Floor(text, t.si), C.Pred(t.ci))
  }

  predicate SpansLines(t: T.TokenPoint) {
    '\n' in t.src
  }

  /** The pieces of one token, before the out-of-order guard. */
  function Pieces(text: string, t: T.TokenPoint, kind: nat): seq<Segment> {
    if SpansLines(t) then LinesFrom(text, t, kind, ColumnOf(text, t), 0, 0)
    else [WholePiece(text, t, kind, ColumnOf(text, t))]
  }

  /** The pieces of every coloured token, in token order. */
  function AllPieces(text: string, kindOf: string -> Option<nat>, ts: seq<T.TokenPoint>): seq<Segment> {
    if ts == [] then []
    else
      (match kindOf(ts[0].name) case None => [] case Some(kind) => Pieces(text, ts[0], kind))
      + AllPieces(text, kindOf, ts[1..])
  }

  // ---------------------------------------------------------------------------------------
  // The guard.

  /** What has been emitted, and the place of the last segment emitted. */
  datatype Guard = Guard(out: seq<Segment>, row: nat, col: nat)

  /** A non-empty segment that does not step backwards. */
  predicate Passes(row: nat, col: nat, s: Segment) {
    s.len >= 1 && (row < s.row || (row == s.row && col <= s.col))
  }

  function Step(g: Guard, s: Segment): Guard {
    if Passes(g.row, g.col, s) then Guard(g.out + [s], s.row, s.col) else g
  }

  /** The guard after the segments, each let through if it passes. */
  function After(g: Guard, ss: seq<Segment>): Guard
    decreases |ss|
  {
    if ss == [] then g else After(Step(g, ss[0]), ss[1..])
  }

  const START := Guard([], 0, 0)

  lemma {:induction false} AfterCons(g: Guard, s: Segment, rest: seq<Segment>)
    ensures After(g, [s] + rest) == After(Step(g, s), rest)
  {
    assert ([s] + rest)[1..] == rest;
  }

  lemma {:induction false} AfterJoin(g: Guard, a: seq<Segment>, b: seq<Segment>)
    ensures After(g, a + b) == After(After(g, a), b)
    decreases |a|
  {
    if a == [] {
      assert a + b == b;
    } else {
      assert (a + b)[1..] == a[1..] + b;
      AfterJoin(Step(g, a[0]), a[1..], b);
    }
  }

  class Emitter {
    var out: seq<Segment>
    var prevRow: nat
    var prevCol: nat

    ghost function State(): Guard
      reads this
    {
      Guard(out, prevRow, prevCol)
    }

    constructor ()
      ensures State() == START
    {
      out, prevRow, prevCol := [], 0, 0;
    }

    method Emit(s: Segment)
      modifies this
      ensures State() == Step(old(State()), s)
    {
      if s.len < 1 {
        return;
      }
      if s.row < prevRow || (s.row == prevRow && s.col < prevCol) {
        return;
      }
      prevRow, prevCol := s.row, s.col;
      out := out + [s];
    }
  }

  /** The running byte offset is where the line starts, clamped into the text. */
  lemma {:induction false} ClampedOffset(si: nat, a: nat, n: nat, limit: nat)
    ensures Min(Min(si + a, limit) + n, limit) == Min(si + a + n, limit)
  {
  }

  /** The lengths of a cut line and of what it was cut from. */
  lemma {:induction false} CutLengths(s: string, a: nat, part: string, seg: string)
    requires a <= |s| && part == s[a..NextFeed(s, a)]
    requires seg == if part != [] && part[|part| - 1] == '\r' then part[..|part| - 1] else part
    ensures var p := NextFeed(s, a);
      var b := LineEnd(s, a, p);
      && |seg| == b - a
      && Width(Utf16, seg, |seg|) == Width(Utf16, s, b) - Width(Utf16, s, a)
      && Offset(s, a) + ByteLen(seg) == Offset(s, b)
      && (p < |s| ==> Offset(s, a) + (ByteLen(part) + 1) == Offset(s, p + 1))
  {
    var p := NextFeed(s, a);
    var b := LineEnd(s, a, p);
    assert seg == s[a..b];
    WidthOfSlice(Utf16, s, a, b);
    WidthOfSlice(Utf8, s, a, b);
    WidthOfSlice(Utf8, s, a, p);
  }

  /** Cut the line starting at index `a` out of a token, its running byte offset in hand. */
  method CutLine(text: string, t: T.TokenPoint, kind: nat, col: C.Column, a: nat, i: nat, offset: nat)
    returns (piece: Segment, p: nat, next: nat)
    requires a <= |t.src| && offset == Min(t.si + Offset(t.src, a), ByteLen(text))
    ensures p == NextFeed(t.src, a) && piece == PieceAt(text, t, kind, col, a, i)
    ensures p < |t.src| ==> next == Min(t.si + Offset(t.src, p + 1), ByteLen(text))
  {
    p := NextFeed(t.src, a);
    var part := t.src[a..p];
    var seg := if part != [] && part[|part| - 1] == '\r' then part[..|part| - 1] else part;
    CutLengths(t.src, a, part, seg);
    ClampedOffset(t.si, Offset(t.src, a), ByteLen(seg), ByteLen(text));
    ClampedOffset(t.si, Offset(t.src, a), ByteLen(part) + 1, ByteLen(text));
    piece := Segment(
      C.Pred(t.ri) + i,
      if i == 0 then col.units else 0,
      Width(Utf16, seg, |seg|),
      if i == 0 then col.chars else 0,
      |seg|, offset, Min(offset + ByteLen(seg), ByteLen(text)), kind);
    next := Min(offset + (ByteLen(part) + 1), ByteLen(text));
  }

  /** Emit the pieces of a token that spans lines, line by line. */
  method EmitLines(e: Emitter, text: string, t: T.TokenPoint, kind: nat, col: C.Column)
    modifies e
    ensures e.State() == After(old(e.State()), LinesFrom(text, t, kind, col, 0, 0))
  {
    var offset := Min(t.si, ByteLen(text));
    var a, i := 0, 0;
    while a <= |t.src|
      invariant a <= |t.src| + 1
      invariant a <= |t.src| ==> offset == Min(t.si + Offset(t.src, a), ByteLen(text))
      invariant After(e.State(), LinesFrom(text, t, kind, col, a, i))
             == After(old(e.State()), LinesFrom(text, t, kind, col, 0, 0))
      decreases |t.src| + 1 - a
    {
      AfterCons(e.State(), PieceAt(text, t, kind, col, a, i),
                LinesFrom(text, t, kind, col, NextFeed(t.src, a) + 1, i + 1));
      var piece, p, next := CutLine(text, t, kind, col, a, i, offset);
      e.Emit(piece);
      offset, a, i := next, p + 1, i + 1;
    }
  }

  /** Emit one coloured token. */
  method EmitToken(e: Emitter, text: string, t: T.TokenPoint, kind: nat, col: C.Column)
    requires col == ColumnOf(text, t)
    modifies e
    ensures e.State() == After(old(e.State()), Pieces(text, t, kind))
  {
    if SpansLines(t) {
      EmitLines(e, text, t, kind, col);
    } else {
      var end := Min(t.si + t.Span(), ByteLen(text));
      var piece := Segment(C.Pred(t.ri), col.units, AtLeastOne(Width(Utf16, t.src, |t.src|)),
                           col.chars, AtLeastOne(|t.src|), Min(t.si, end), end, kind);
      AfterCons(e.State(), piece, []);
      e.Emit(piece);
    }
  }

  lemma {:induction false} AllPiecesStep(
    text: string, kindOf: string -> Option<nat>, ts: seq<T.TokenPoint>, n: nat, g: Guard)
    requires n < |ts|
    ensures var rest := AllPieces(text, kindOf, ts[n + 1..]);
      After(g, AllPieces(text, kindOf, ts[n..])) ==
      match kindOf(ts[n].name)
      case None => After(g, rest)
      case Some(kind) => After(After(g, Pieces(text, ts[n], kind)), rest)
  {
    assert ts[n..][1..] == ts[n + 1..];
    var rest := AllPieces(text, kindOf, ts[n + 1..]);
    match kindOf(ts[n].name)
    case None => assert [] + rest == rest;
    case Some(kind) => AfterJoin(g, Pieces(text, ts[n], kind), rest);
  }

  /** `segments`: the pieces of the coloured tokens, through the guard, with the columns
      measured in one pass. */
  method Segments(ts: seq<T.TokenPoint>, kindOf: string -> Option<nat>, text: string) returns (out: seq<Segment>)
    ensures out == After(START, AllPieces(text, kindOf, ts)).out
  {
    var columns := new C.Columns(Utf16, text);
    var e := new Emitter();
    assert ts[0..] == ts;
    for n := 0 to |ts|
      invariant columns.Valid() && columns.enc == Utf16 && columns.text == text
      invariant fresh(columns) && fresh(e) && columns as object != e
      invariant After(e.State(), AllPieces(text, kindOf, ts[n..])) == After(START, AllPieces(text, kindOf, ts))
    {
      var t := ts[n];
      AllPiecesStep(text, kindOf, ts, n, e.State());
      var kind := kindOf(t.name);
      if kind.Some? {
        var col := columns.Measure(t.si, t.ci);
        EmitToken(e, text, t, kind.value, col);
      }
    }
    out := e.out;
  }
}
