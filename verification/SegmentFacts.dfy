/** What the segments of a document promise: line by line, they cover their tokens. */
module SegmentFacts {
  import opened Text
  import opened Semantic
  import opened Sites
  import T = Trace
  import C = Columns

  /** Scalar value `i` of `s` ends a line: a line feed, or a carriage return before one or
      before the end. */
  predicate EndsLine(s: string, i: nat)
    requires i < |s|
  {
    s[i] == '\n' || (s[i] == '\r' && (i + 1 == |s| || s[i + 1] == '\n'))
  }

  /** One of the segments covers the byte. */
  predicate Covered(ss: seq<Segment>, byte: nat) {
    ss != [] && (ss[0].start <= byte < ss[0].end || Covered(ss[1..], byte))
  }

  /** The byte ranges are well formed, in order, disjoint, and lie from `lo` to `hi`. */
  ghost predicate RangesInOrder(ss: seq<Segment>, lo: nat, hi: nat) {
    && (forall i :: 0 <= i < |ss| ==> lo <= ss[i].start <= ss[i].end <= hi)
    && (forall i, j :: 0 <= i < j < |ss| ==> ss[i].end <= ss[j].start)
  }

  lemma {:induction false} OffsetInToken(text: string, t: T.TokenPoint, k: nat, a: nat)
    requires SitsAt(text, t, k) && a <= |t.src|
    ensures Min(t.si + Offset(t.src, a), ByteLen(text)) == Offset(text, k + a)
  {
    WidthGrows(Utf8, text, k + a, |text|);
    WidthOfSlice(Utf8, text, k, k + a);
    var own := text[k..k + |t.src|];
    assert own[..a] == text[k..k + a];
    assert own == t.src;
    WidthOfPrefix(Utf8, t.src, text[k..k + a], a);
  }

  lemma {:induction false} PieceRange(text: string, t: T.TokenPoint, kind: nat, col: C.Column, k: nat, a: nat, i: nat)
    requires SitsAt(text, t, k) && a <= |t.src|
    ensures var b := LineEnd(t.src, a, NextFeed(t.src, a));
      && PieceAt(text, t, kind, col, a, i).start == Offset(text, k + a)
      && PieceAt(text, t, kind, col, a, i).end == Offset(text, k + b)
      && Offset(text, k + a) <= Offset(text, k + b)
  {
    var b := LineEnd(t.src, a, NextFeed(t.src, a));
    OffsetInToken(text, t, k, a);
    OffsetInToken(text, t, k, b);
    WidthGrows(Utf8, text, k + a, k + b);
  }

  lemma {:induction false} RangesJoin(s: Segment, rest: seq<Segment>, lo: nat, hi: nat)
    requires lo <= s.start <= s.end <= hi && RangesInOrder(rest, s.end, hi)
    ensures RangesInOrder([s] + rest, lo, hi)
  {
    var all := [s] + rest;
    forall i | 0 <= i < |all| ensures lo <= all[i].start <= all[i].end <= hi {
      assert i > 0 ==> all[i] == rest[i - 1];
    }
    forall i, j | 0 <= i < j < |all| ensures all[i].end <= all[j].start {
      assert all[j] == rest[j - 1] && (i > 0 ==> all[i] == rest[i - 1]);
    }
  }

  lemma {:induction false} LinesFromStep(text: string, t: T.TokenPoint, kind: nat, col: C.Column, a: nat, i: nat)
    requires a <= |t.src|
    ensures LinesFrom(text, t, kind, col, a, i) ==
      [PieceAt(text, t, kind, col, a, i)] + LinesFrom(text, t, kind, col, NextFeed(t.src, a) + 1, i + 1)
  {
  }

  /** Where a piece and the line after it lie. */
  lemma {:induction false} PieceBounds(text: string, t: T.TokenPoint, kind: nat, col: C.Column, k: nat, a: nat, i: nat)
    requires SitsAt(text, t, k) && a <= |t.src|
    ensures var p, s := NextFeed(t.src, a), PieceAt(text, t, kind, col, a, i);
      && s.start == Offset(text, k + a) <= s.end <= Offset(text, k + |t.src|)
      && (p < |t.src| ==> s.end <= Offset(text, k + p + 1))
  {
    var p := NextFeed(t.src, a);
    var b := LineEnd(t.src, a, p);
    assert Offset(text, k + b) <= Offset(text, k + |t.src|) by {
      WidthGrows(Utf8, text, k + b, k + |t.src|);
    }
    assert p < |t.src| ==> Offset(text, k + b) <= Offset(text, k + p + 1) by {
      if p < |t.src| { WidthGrows(Utf8, text, k + b, k + p + 1); }
    }
    PieceRange(text, t, kind, col, k, a, i);
  }

  lemma {:induction false} LinesInOrder(
    text: string, t: T.TokenPoint, kind: nat, col: C.Column, k: nat, a: nat, i: nat, lo: nat)
    requires SitsAt(text, t, k) && (a <= |t.src| ==> lo <= Offset(text, k + a))
    ensures RangesInOrder(LinesFrom(text, t, kind, col, a, i), lo, Offset(text, k + |t.src|))
    decreases |t.src| + 1 - a
  {
    if a <= |t.src| {
      var next := NextFeed(t.src, a) + 1;
      var piece := PieceAt(text, t, kind, col, a, i);
      PieceBounds(text, t, kind, col, k, a, i);
      LinesInOrder(text, t, kind, col, k, next, i + 1, piece.end);
      RangesJoin(piece, LinesFrom(text, t, kind, col, next, i + 1), lo, Offset(text, k + |t.src|));
      LinesFromStep(text, t, kind, col, a, i);
    }
  }

  lemma {:induction false} CoveredCons(s: Segment, rest: seq<Segment>, byte: nat)
    ensures Covered([s] + rest, byte) <==> s.start <= byte < s.end || Covered(rest, byte)
  {
    assert ([s] + rest)[1..] == rest;
  }

  /** A byte of scalar value `x`. */
  predicate ByteOf(text: string, x: nat, byte: nat) {
    x < |text| && Offset(text, x) <= byte < Offset(text, x + 1)
  }

  lemma {:induction false} ByteOrder(text: string, x: nat, byte: nat, i: nat)
    requires x < |text| && ByteOf(text, x, byte) && i <= |text|
    ensures Offset(text, i) <= byte <==> i <= x
  {
    if i <= x { WidthGrows(Utf8, text, i, x); } else { WidthGrows(Utf8, text, x + 1, i); }
  }

  /** Whether index `x` of `s` lies in a line's content, of the lines from index `a` on. */
  predicate InContent(s: string, a: nat, x: nat)
    decreases |s| + 1 - a
  {
    a <= |s| && (a <= x < LineEnd(s, a, NextFeed(s, a)) || InContent(s, NextFeed(s, a) + 1, x))
  }

  lemma {:induction false} ContentIsLater(s: string, a: nat, x: nat)
    requires x < a
    ensures !InContent(s, a, x)
    decreases |s| + 1 - a
  {
    if a <= |s| { ContentIsLater(s, NextFeed(s, a) + 1, x); }
  }

  /** What is in no line's content is exactly what ends a line. */
  lemma {:induction false} ContentEndsNoLine(s: string, a: nat, x: nat)
    requires a <= x < |s|
    ensures InContent(s, a, x) <==> !EndsLine(s, x)
    decreases |s| - a
  {
    var p := NextFeed(s, a);
    if p < x { ContentEndsNoLine(s, p + 1, x); } else { ContentIsLater(s, p + 1, x); }
  }

  lemma {:induction false} PieceCovers(
    text: string, t: T.TokenPoint, kind: nat, col: C.Column, k: nat, a: nat, i: nat, x: nat, byte: nat)
    requires SitsAt(text, t, k) && a <= |t.src| && x < |t.src| && ByteOf(text, k + x, byte)
    ensures var s := PieceAt(text, t, kind, col, a, i);
      s.start <= byte < s.end <==> a <= x < LineEnd(t.src, a, NextFeed(t.src, a))
  {
    PieceRange(text, t, kind, col, k, a, i);
    ByteOrder(text, k + x, byte, k + a);
    ByteOrder(text, k + x, byte, k + LineEnd(t.src, a, NextFeed(t.src, a)));
  }

  /** The piece that starts at index `a` covers the byte. */
  predicate PieceHolds(text: string, t: T.TokenPoint, kind: nat, col: C.Column, a: nat, i: nat, byte: nat) {
    a <= |t.src| && PieceAt(text, t, kind, col, a, i).start <= byte < PieceAt(text, t, kind, col, a, i).end
  }

  lemma {:induction false} CoveredStep(
    text: string, t: T.TokenPoint, kind: nat, col: C.Column, a: nat, i: nat, byte: nat)
    requires a <= |t.src|
    ensures Covered(LinesFrom(text, t, kind, col, a, i), byte) <==>
      || PieceHolds(text, t, kind, col, a, i, byte)
      || Covered(LinesFrom(text, t, kind, col, NextFeed(t.src, a) + 1, i + 1), byte)
  {
    LinesFromStep(text, t, kind, col, a, i);
    CoveredCons(PieceAt(text, t, kind, col, a, i), LinesFrom(text, t, kind, col, NextFeed(t.src, a) + 1, i + 1), byte);
  }

  /** Each piece covers the byte exactly when index `x` is in the content of its line. */
  ghost predicate ByContent(text: string, t: T.TokenPoint, kind: nat, col: C.Column, x: nat, byte: nat) {
    forall a: nat, i: nat {:trigger PieceHolds(text, t, kind, col, a, i, byte)} :: a <= |t.src| ==>
      (PieceHolds(text, t, kind, col, a, i, byte) <==> a <= x < LineEnd(t.src, a, NextFeed(t.src, a)))
  }

  /** A byte is covered by a piece exactly when its scalar value is in a line's content. */
  lemma {:induction false} LinesCover(
    text: string, t: T.TokenPoint, kind: nat, col: C.Column, a: nat, i: nat, x: nat, byte: nat)
    requires ByContent(text, t, kind, col, x, byte)
    ensures Covered(LinesFrom(text, t, kind, col, a, i), byte) <==> InContent(t.src, a, x)
    decreases |t.src| + 1 - a
  {
    if a <= |t.src| {
      LinesCover(text, t, kind, col, NextFeed(t.src, a) + 1, i + 1, x, byte);
      CoveredStep(text, t, kind, col, a, i, byte);
    }
  }

  /** The pieces of a token that sits on its text: ordered, disjoint, inside the token,
      and covering exactly the bytes of what does not end a line, so no piece holds a line feed. */
  lemma {:induction false} PiecesCoverToken(text: string, t: T.TokenPoint, kind: nat, k: nat)
    requires SitsAt(text, t, k) && SpansLines(t)
    ensures RangesInOrder(Pieces(text, t, kind), t.si, t.si + ByteLen(t.src))
    ensures forall x, byte :: 0 <= x < |t.src| && ByteOf(text, k + x, byte) ==>
      (Covered(Pieces(text, t, kind), byte) <==> !EndsLine(t.src, x))
  {
    var col := ColumnOf(text, t);
    TokenBytes(text, t, k);
    LinesInOrder(text, t, kind, col, k, 0, 0, t.si);
    forall x: nat, byte: nat | x < |t.src| && ByteOf(text, k + x, byte)
      ensures Covered(Pieces(text, t, kind), byte) <==> !EndsLine(t.src, x)
    {
      forall a: nat, i: nat | a <= |t.src|
        ensures PieceHolds(text, t, kind, col, a, i, byte) <==> a <= x < LineEnd(t.src, a, NextFeed(t.src, a))
      {
        PieceCovers(text, t, kind, col, k, a, i, x, byte);
      }
      LinesCover(text, t, kind, col, 0, 0, x, byte);
      ContentEndsNoLine(t.src, 0, x);
    }
  }

  lemma {:induction false} TokenBytes(text: string, t: T.TokenPoint, k: nat)
    requires SitsAt(text, t, k)
    ensures Offset(text, k + |t.src|) == t.si + ByteLen(t.src)
  {
    WidthOfSlice(Utf8, text, k, k + |t.src|);
  }

  /** A token on one line has one piece, from where it starts over the bytes it claims, clamped to
      the text: its own text exactly when it claims that, or more at the end of the document. */
  lemma {:induction false} WholePieceCovers(text: string, t: T.TokenPoint, kind: nat, k: nat)
    requires SitsAt(text, t, k) && !SpansLines(t)
    ensures |Pieces(text, t, kind)| == 1
    ensures var s := Pieces(text, t, kind)[0];
      && s.start == Offset(text, k) && s.end == Min(t.si + t.Span(), ByteLen(text))
      && (s.end == Offset(text, k + |t.src|) <==>
           t.Span() == ByteLen(t.src) || (t.Span() > ByteLen(t.src) && k + |t.src| == |text|))
  {
    TokenBytes(text, t, k);
    C.OffsetOrder(text, k + |t.src|, |text|);
    WidthGrows(Utf8, text, k, |text|);
    WidthGrows(Utf8, text, k + |t.src|, |text|);
  }
}
