/** What the out-of-order guard drops (rs/src/semantic.rs, `Emitter`).

    The guard keeps every non-empty segment exactly when their places never step back. The place
    of a piece is told by where it starts in the text, so for tokens with the engine's own rows
    and columns the question is one about the text: does a carriage return restart the column
    between two pieces of one line? */
module GuardFacts {
  import opened Wrappers
  import opened Text
  import opened Semantic
  import opened Sites
  import T = Trace
  import C = Columns
  import D = Documents
  import F = SegmentFacts

  predicate AtMost(p: D.Position, q: D.Position) {
    p.line < q.line || (p.line == q.line && p.character <= q.character)
  }

  function PlaceOf(s: Segment): D.Position {
    D.Position(s.row, s.col)
  }

  // ---------------------------------------------------------------------------------------
  // The guard on any segments.

  /** The segments that are not empty. */
  ghost function NonEmpty(ss: seq<Segment>): seq<Segment> {
    if ss == [] then [] else (if ss[0].len >= 1 then [ss[0]] else []) + NonEmpty(ss[1..])
  }

  /** No non-empty segment stands before `p` or before an earlier non-empty one. */
  ghost predicate Ascends(ss: seq<Segment>, p: D.Position) {
    && (forall i :: 0 <= i < |ss| && ss[i].len >= 1 ==> AtMost(p, PlaceOf(ss[i])))
    && (forall i, j :: 0 <= i < j < |ss| && ss[i].len >= 1 && ss[j].len >= 1 ==> AtMost(PlaceOf(ss[i]), PlaceOf(ss[j])))
  }

  lemma {:induction false} AscendsStep(ss: seq<Segment>, p: D.Position)
    requires ss != []
    ensures Ascends(ss, p) <==>
      if ss[0].len >= 1 then AtMost(p, PlaceOf(ss[0])) && Ascends(ss[1..], PlaceOf(ss[0])) else Ascends(ss[1..], p)
  {
    var q := if ss[0].len >= 1 then PlaceOf(ss[0]) else p;
    if Ascends(ss, p) {
      forall j | 0 <= j < |ss[1..]| && ss[1..][j].len >= 1 ensures AtMost(q, PlaceOf(ss[1..][j])) {
        assert ss[1..][j] == ss[j + 1];
      }
    }
    if AtMost(p, q) && Ascends(ss[1..], q) {
      forall j | 0 < j < |ss| && ss[j].len >= 1 ensures AtMost(q, PlaceOf(ss[j])) {
        assert ss[1..][j - 1] == ss[j];
      }
      forall i, j | 0 < i < j < |ss| && ss[i].len >= 1 && ss[j].len >= 1
        ensures AtMost(PlaceOf(ss[i]), PlaceOf(ss[j]))
      {
        assert ss[1..][i - 1] == ss[i] && ss[1..][j - 1] == ss[j];
      }
    }
  }

  lemma {:induction false} GuardGrows(g: Guard, ss: seq<Segment>)
    ensures |After(g, ss).out| <= |g.out| + |NonEmpty(ss)|
    decreases |ss|
  {
    if ss != [] { GuardGrows(Step(g, ss[0]), ss[1..]); }
  }

  /** Whatever the segments, the guard keeps every non-empty one exactly when none of them stands
      before an earlier one. */
  lemma {:induction false} GuardIsExact(g: Guard, ss: seq<Segment>)
    ensures After(g, ss).out == g.out + NonEmpty(ss) <==> Ascends(ss, D.Position(g.row, g.col))
    decreases |ss|
  {
    if ss != [] {
      var g', rest := Step(g, ss[0]), ss[1..];
      AscendsStep(ss, D.Position(g.row, g.col));
      if ss[0].len < 1 || Passes(g.row, g.col, ss[0]) {
        GuardIsExact(g', rest);
        assert g'.out + NonEmpty(rest) == g.out + NonEmpty(ss);
      } else {
        GuardGrows(g', rest);
      }
    }
  }

  /** Segment `i` is not empty and stands before no earlier segment that is not empty. */
  predicate IsRecord(ss: seq<Segment>, i: nat) {
    && i < |ss| && ss[i].len >= 1
    && forall j :: 0 <= j < i && ss[j].len >= 1 ==> AtMost(PlaceOf(ss[j]), PlaceOf(ss[i]))
  }

  /** Those of the first `n` segments that do so, in order. */
  function Records(ss: seq<Segment>, n: nat): seq<Segment>
    requires n <= |ss|
  {
    if n == 0 then [] else Records(ss, n - 1) + if IsRecord(ss, n - 1) then [ss[n - 1]] else []
  }

  /** Where the guard stands after the first `n` segments: at the last place any non-empty one of
      them has. */
  ghost predicate StandsLast(ss: seq<Segment>, n: nat, p: D.Position)
    requires n <= |ss|
  {
    && (forall j :: 0 <= j < n && ss[j].len >= 1 ==> AtMost(PlaceOf(ss[j]), p))
    && (p == D.Position(0, 0) || exists j :: 0 <= j < n && ss[j].len >= 1 && PlaceOf(ss[j]) == p)
  }

  /** What the guard keeps, whatever the segments: every non-empty one that stands before no
      earlier non-empty one, kept itself or not. */
  lemma {:induction false} GuardKeepsRecords(ss: seq<Segment>)
    ensures After(START, ss).out == Records(ss, |ss|)
  {
    GuardAfter(ss, |ss|);
    assert ss[..|ss|] == ss;
  }

  lemma {:induction false} GuardAfter(ss: seq<Segment>, n: nat)
    requires n <= |ss|
    ensures var g := After(START, ss[..n]);
      g.out == Records(ss, n) && StandsLast(ss, n, D.Position(g.row, g.col))
  {
    if n > 0 {
      var g := After(START, ss[..n - 1]);
      GuardAfter(ss, n - 1);
      assert ss[..n] == ss[..n - 1] + [ss[n - 1]];
      AfterJoin(START, ss[..n - 1], [ss[n - 1]]);
      AfterCons(g, ss[n - 1], []);
      assert [ss[n - 1]] + [] == [ss[n - 1]];
      PassesIsRecord(ss, n - 1, g);
    }
  }

  lemma {:induction false} PassesIsRecord(ss: seq<Segment>, n: nat, g: Guard)
    requires n < |ss| && StandsLast(ss, n, D.Position(g.row, g.col))
    ensures Passes(g.row, g.col, ss[n]) <==> IsRecord(ss, n)
    ensures var h := Step(g, ss[n]); StandsLast(ss, n + 1, D.Position(h.row, h.col))
  {
    var p := D.Position(g.row, g.col);
    if j :| 0 <= j < n && ss[j].len >= 1 && PlaceOf(ss[j]) == p {
      assert IsRecord(ss, n) ==> AtMost(p, PlaceOf(ss[n]));
    }
  }

  // ---------------------------------------------------------------------------------------
  // Where the pieces of consistent tokens stand.

  /** The tokens stand in the text one after the other: token `n` at index `ks[n]`. */
  ghost predicate InText(text: string, ts: seq<T.TokenPoint>, ks: seq<nat>) {
    && |ks| == |ts|
    && (forall n :: 0 <= n < |ts| ==> Consistent(text, ts[n], ks[n]))
    && (forall m, n :: 0 <= m < n < |ts| ==> ks[m] + |ts[m].src| <= ks[n])
  }

  /** Where the lines of a token's text start, from index `a` on, the token standing at `k`. */
  function LinesStart(s: string, k: nat, a: nat): seq<nat>
    decreases |s| + 1 - a
  {
    if a > |s| then [] else [k + a] + LinesStart(s, k, NextFeed(s, a) + 1)
  }

  function TokenStarts(t: T.TokenPoint, k: nat): seq<nat> {
    if SpansLines(t) then LinesStart(t.src, k, 0) else [k]
  }

  /** Where the pieces of the coloured tokens start in the text. */
  function PieceStarts(kindOf: string -> Option<nat>, ts: seq<T.TokenPoint>, ks: seq<nat>): seq<nat>
    requires |ks| == |ts|
  {
    if ts == [] then []
    else (if kindOf(ts[0].name).Some? then TokenStarts(ts[0], ks[0]) else []) + PieceStarts(kindOf, ts[1..], ks[1..])
  }

  /** Each segment stands at the engine's place for its start. */
  predicate Stand(text: string, ss: seq<Segment>, xs: seq<nat>) {
    && |ss| == |xs|
    && (ss != [] ==>
         && xs[0] <= |text| && PlaceOf(ss[0]) == EnginePlace(Utf16, text, xs[0])
         && Stand(text, ss[1..], xs[1..]))
  }

  lemma {:induction false} StandsAt(text: string, ss: seq<Segment>, xs: seq<nat>, i: nat)
    requires Stand(text, ss, xs) && i < |ss|
    ensures xs[i] <= |text| && PlaceOf(ss[i]) == EnginePlace(Utf16, text, xs[i])
  {
    if i > 0 { StandsAt(text, ss[1..], xs[1..], i - 1); }
  }

  lemma {:induction false} StandCons(text: string, s: Segment, x: nat, ss: seq<Segment>, xs: seq<nat>)
    requires x <= |text| && PlaceOf(s) == EnginePlace(Utf16, text, x) && Stand(text, ss, xs)
    ensures Stand(text, [s] + ss, [x] + xs)
  {
    assert ([s] + ss)[1..] == ss && ([x] + xs)[1..] == xs;
  }

  lemma {:induction false} StandJoin(text: string, ss: seq<Segment>, xs: seq<nat>, ss': seq<Segment>, xs': seq<nat>)
    requires Stand(text, ss, xs) && Stand(text, ss', xs')
    ensures Stand(text, ss + ss', xs + xs')
  {
    if ss == [] {
      assert ss + ss' == ss' && xs + xs' == xs';
    } else {
      StandJoin(text, ss[1..], xs[1..], ss', xs');
      StandCons(text, ss[0], xs[0], ss[1..] + ss', xs[1..] + xs');
      assert ss + ss' == [ss[0]] + (ss[1..] + ss') && xs + xs' == [xs[0]] + (xs[1..] + xs');
    }
  }

  lemma {:induction false} FirstStands(text: string, t: T.TokenPoint, k: nat)
    requires Consistent(text, t, k)
    ensures D.Position(C.Pred(t.ri), ColumnOf(text, t).units) == EnginePlace(Utf16, text, k)
  {
    FloorOfOffset(text, k);
    C.WalkBackIsWindow(Utf16, text, k, k - ColumnBegin(text, k));
  }

  /** The `i`th line of the token's text starts at its index `a`. */
  predicate IsLine(text: string, t: T.TokenPoint, k: nat, a: nat, i: nat)
  {
    && k + a <= |text| && a <= |t.src|
    && Newlines(text, k + a) == Newlines(text, k) + i
    && if i == 0 then a == 0 else a > 0 && t.src[a - 1] == '\n'
  }

  /** A line of a consistent token stands where it starts. */
  lemma {:induction false} PieceStands(text: string, t: T.TokenPoint, kind: nat, k: nat, a: nat, i: nat)
    requires Consistent(text, t, k) && a <= |t.src| && IsLine(text, t, k, a, i)
    ensures PlaceOf(PieceAt(text, t, kind, ColumnOf(text, t), a, i)) == EnginePlace(Utf16, text, k + a)
  {
    if i == 0 {
      FirstStands(text, t, k);
    } else {
      assert text[k + a - 1] == text[k..k + |t.src|][a - 1];
      assert ColumnBegin(text, k + a) == k + a;
    }
  }

  lemma {:induction false} FeedsInToken(text: string, t: T.TokenPoint, k: nat, a: nat)
    requires SitsAt(text, t, k) && a <= |t.src| && NextFeed(t.src, a) < |t.src|
    ensures Newlines(text, k + NextFeed(t.src, a) + 1) == Newlines(text, k + a) + 1
  {
    var p := NextFeed(t.src, a);
    forall x | k + a <= x < k + p ensures text[x] != '\n' {
      assert text[x] == text[k..k + |t.src|][x - k];
    }
    NewlinesGrow(text, k + a, k + p);
    assert text[k + p] == text[k..k + |t.src|][p];
  }

  lemma {:induction false} LineStandsFirst(
    text: string, t: T.TokenPoint, kind: nat, col: C.Column, k: nat, a: nat, i: nat)
    requires a <= |t.src| && k + a <= |text|
    requires PlaceOf(PieceAt(text, t, kind, col, a, i)) == EnginePlace(Utf16, text, k + a)
    requires var next := NextFeed(t.src, a) + 1;
      Stand(text, LinesFrom(text, t, kind, col, next, i + 1), LinesStart(t.src, k, next))
    ensures Stand(text, LinesFrom(text, t, kind, col, a, i), LinesStart(t.src, k, a))
  {
    var next := NextFeed(t.src, a) + 1;
    F.LinesFromStep(text, t, kind, col, a, i);
    StandCons(text, PieceAt(text, t, kind, col, a, i), k + a,
              LinesFrom(text, t, kind, col, next, i + 1), LinesStart(t.src, k, next));
  }

  lemma {:induction false} NextIsLine(text: string, t: T.TokenPoint, k: nat, a: nat, i: nat)
    requires SitsAt(text, t, k) && a <= |t.src| && IsLine(text, t, k, a, i)
    ensures NextFeed(t.src, a) < |t.src| ==> IsLine(text, t, k, NextFeed(t.src, a) + 1, i + 1)
  {
    if NextFeed(t.src, a) < |t.src| { FeedsInToken(text, t, k, a); }
  }

  /** Every line of the token has its piece standing where it starts, and is followed by the next. */
  ghost predicate LinesInPlace(text: string, t: T.TokenPoint, kind: nat, k: nat) {
    forall a: nat, i: nat :: IsLine(text, t, k, a, i) ==>
      && PlaceOf(PieceAt(text, t, kind, ColumnOf(text, t), a, i)) == EnginePlace(Utf16, text, k + a)
      && (NextFeed(t.src, a) < |t.src| ==> IsLine(text, t, k, NextFeed(t.src, a) + 1, i + 1))
  }

  lemma {:induction false} ConsistentLines(text: string, t: T.TokenPoint, kind: nat, k: nat)
    requires Consistent(text, t, k)
    ensures LinesInPlace(text, t, kind, k)
  {
    forall a: nat, i: nat | IsLine(text, t, k, a, i)
      ensures PlaceOf(PieceAt(text, t, kind, ColumnOf(text, t), a, i)) == EnginePlace(Utf16, text, k + a)
      ensures NextFeed(t.src, a) < |t.src| ==> IsLine(text, t, k, NextFeed(t.src, a) + 1, i + 1)
    {
      PieceStands(text, t, kind, k, a, i);
      NextIsLine(text, t, k, a, i);
    }
  }

  lemma {:induction false} LinesStand(text: string, t: T.TokenPoint, kind: nat, k: nat, a: nat, i: nat)
    requires LinesInPlace(text, t, kind, k) && (a <= |t.src| ==> IsLine(text, t, k, a, i))
    ensures Stand(text, LinesFrom(text, t, kind, ColumnOf(text, t), a, i), LinesStart(t.src, k, a))
    decreases |t.src| + 1 - a
  {
    if a <= |t.src| {
      var next := NextFeed(t.src, a) + 1;
      assert IsLine(text, t, k, a, i);
      LinesStand(text, t, kind, k, next, i + 1);
      LineStandsFirst(text, t, kind, ColumnOf(text, t), k, a, i);
    }
  }

  lemma {:induction false} PiecesStand(text: string, t: T.TokenPoint, kind: nat, k: nat)
    requires Consistent(text, t, k)
    ensures Stand(text, Pieces(text, t, kind), TokenStarts(t, k))
  {
    if SpansLines(t) {
      ConsistentLines(text, t, kind, k);
      LinesStand(text, t, kind, k, 0, 0);
    } else {
      FirstStands(text, t, k);
    }
  }

  lemma {:induction false} AllPiecesStand(
    text: string, kindOf: string -> Option<nat>, ts: seq<T.TokenPoint>, ks: seq<nat>)
    requires InText(text, ts, ks)
    ensures Stand(text, AllPieces(text, kindOf, ts), PieceStarts(kindOf, ts, ks))
    decreases |ts|
  {
    if ts != [] {
      AllPiecesStand(text, kindOf, ts[1..], ks[1..]);
      var rest, starts := AllPieces(text, kindOf, ts[1..]), PieceStarts(kindOf, ts[1..], ks[1..]);
      match kindOf(ts[0].name)
      case None =>
        assert AllPieces(text, kindOf, ts) == rest && PieceStarts(kindOf, ts, ks) == starts;
      case Some(kind) =>
        PiecesStand(text, ts[0], kind, ks[0]);
        StandJoin(text, Pieces(text, ts[0], kind), TokenStarts(ts[0], ks[0]), rest, starts);
    }
  }

  // ---------------------------------------------------------------------------------------
  // When the guard drops a piece.

  ghost predicate AscendingIn(xs: seq<nat>, lo: nat, hi: nat) {
    && (forall i :: 0 <= i < |xs| ==> lo <= xs[i] <= hi)
    && (forall i, j :: 0 <= i < j < |xs| ==> xs[i] <= xs[j])
  }

  lemma {:induction false} AscendingJoin(xs: seq<nat>, ys: seq<nat>, lo: nat, mid: nat, hi: nat)
    requires AscendingIn(xs, lo, mid) && AscendingIn(ys, mid, hi) && lo <= mid <= hi
    ensures AscendingIn(xs + ys, lo, hi)
  {
    var all := xs + ys;
    forall i, j | 0 <= i < j < |all| ensures all[i] <= all[j] {
      assert if i < |xs| then all[i] == xs[i] else all[i] == ys[i - |xs|];
      assert if j < |xs| then all[j] == xs[j] else all[j] == ys[j - |xs|];
    }
  }

  lemma {:induction false} LinesStartAscending(s: string, k: nat, a: nat)
    requires a <= |s| + 1
    ensures AscendingIn(LinesStart(s, k, a), k + a, k + |s| + 1)
    ensures forall i :: 0 <= i < |LinesStart(s, k, a)| ==> LinesStart(s, k, a)[i] <= k + |s|
    decreases |s| + 1 - a
  {
    if a <= |s| {
      var next := NextFeed(s, a) + 1;
      LinesStartAscending(s, k, next);
      AscendingJoin([k + a], LinesStart(s, k, next), k + a, k + next, k + |s| + 1);
    }
  }

  lemma {:induction false} StartsAscend(
    kindOf: string -> Option<nat>, text: string, ts: seq<T.TokenPoint>, ks: seq<nat>, lo: nat)
    requires InText(text, ts, ks) && lo <= |text| && (ts != [] ==> lo <= ks[0])
    ensures AscendingIn(PieceStarts(kindOf, ts, ks), lo, |text|)
    decreases |ts|
  {
    if ts != [] {
      var end := ks[0] + |ts[0].src|;
      StartsAscend(kindOf, text, ts[1..], ks[1..], end);
      var first := if kindOf(ts[0].name).Some? then TokenStarts(ts[0], ks[0]) else [];
      LinesStartAscending(ts[0].src, ks[0], 0);
      assert AscendingIn(first, lo, end);
      AscendingJoin(first, PieceStarts(kindOf, ts[1..], ks[1..]), lo, end, |text|);
    }
  }

  /** Of two pieces of one line, starting at `x` and then `y`, the later stands nearer the last
      break before it: a carriage return restarted the column in between. */
  predicate Restarted(text: string, x: nat, y: nat)
    requires x <= |text| && y <= |text|
  {
    && Newlines(text, x) == Newlines(text, y)
    && EnginePlace(Utf16, text, y).character < EnginePlace(Utf16, text, x).character
  }

  /** No non-empty piece is restarted after an earlier non-empty one. */
  ghost predicate NeverRestarts(text: string, ss: seq<Segment>, xs: seq<nat>)
    requires |ss| == |xs| && AscendingIn(xs, 0, |text|)
  {
    forall i, j :: 0 <= i < j < |ss| && ss[i].len >= 1 && ss[j].len >= 1 ==> !Restarted(text, xs[i], xs[j])
  }

  lemma {:induction false} PlacesInOrder(text: string, ss: seq<Segment>, xs: seq<nat>, i: nat, j: nat)
    requires Stand(text, ss, xs) && AscendingIn(xs, 0, |text|) && i < j < |ss|
    ensures AtMost(PlaceOf(ss[i]), PlaceOf(ss[j])) <==> !Restarted(text, xs[i], xs[j])
  {
    StandsAt(text, ss, xs, i);
    StandsAt(text, ss, xs, j);
    NewlinesGrow(text, xs[i], xs[j]);
  }

  lemma {:induction false} AscendsUnlessRestarted(text: string, ss: seq<Segment>, xs: seq<nat>)
    requires Stand(text, ss, xs) && AscendingIn(xs, 0, |text|)
    ensures Ascends(ss, D.Position(0, 0)) <==> NeverRestarts(text, ss, xs)
  {
    forall i, j | 0 <= i < j < |ss|
      ensures AtMost(PlaceOf(ss[i]), PlaceOf(ss[j])) <==> !Restarted(text, xs[i], xs[j])
    {
      PlacesInOrder(text, ss, xs, i, j);
    }
  }

  /** For tokens with the engine's own rows and columns, carriage returns and all, the guard drops
      a non-empty piece exactly when the column restarts to less before some later non-empty piece
      of its line. */
  lemma {:induction false} GuardDropsExactly(
    text: string, kindOf: string -> Option<nat>, ts: seq<T.TokenPoint>, ks: seq<nat>)
    requires InText(text, ts, ks)
    ensures var ss, xs := AllPieces(text, kindOf, ts), PieceStarts(kindOf, ts, ks);
      && |ss| == |xs| && AscendingIn(xs, 0, |text|)
      && (After(START, ss).out == NonEmpty(ss) <==> NeverRestarts(text, ss, xs))
  {
    var ss, xs := AllPieces(text, kindOf, ts), PieceStarts(kindOf, ts, ks);
    AllPiecesStand(text, kindOf, ts, ks);
    StartsAscend(kindOf, text, ts, ks, 0);
    AscendsUnlessRestarted(text, ss, xs);
    GuardIsExact(START, ss);
    assert START.out + NonEmpty(ss) == NonEmpty(ss);
  }

  /** Three tokens on one line, a carriage return before the last: its column starts over. */
  const RETURNING := "x y\rz"

  function ReturningToken(si: nat, ci: nat): T.TokenPoint {
    T.TokenPoint("a", si, 1, ci, 1, if si == 0 then "x" else if si == 2 then "y" else "z")
  }

  lemma {:induction false} ReturningPlaces(si: nat)
    requires si in {0, 2, 4}
    ensures Offset(RETURNING, si) == si && Newlines(RETURNING, si) == 0
    ensures ColumnBegin(RETURNING, si) == if si == 4 then 4 else 0
    ensures Consistent(RETURNING, ReturningToken(si, if si == 2 then 3 else 1), si)
    ensures Width(Utf16, RETURNING, si) == si
  {
    assert Offset(RETURNING, 1) == 1 && Offset(RETURNING, 2) == 2 && Offset(RETURNING, 3) == 3;
    assert Width(Utf16, RETURNING, 1) == 1 && Width(Utf16, RETURNING, 2) == 2 && Width(Utf16, RETURNING, 3) == 3;
    assert Newlines(RETURNING, 1) == 0 && Newlines(RETURNING, 2) == 0 && Newlines(RETURNING, 3) == 0;
    assert ColumnBegin(RETURNING, 1) == 0;
    assert RETURNING[si..si + 1] == [RETURNING[si]] == ReturningToken(si, 1).src;
  }

  /** Tokens on one line each have one piece, and no empty one. */
  lemma {:induction false} OneLinePieces(
    text: string, kindOf: string -> Option<nat>, ts: seq<T.TokenPoint>, ks: seq<nat>)
    requires |ts| == |ks| && forall n :: 0 <= n < |ts| ==> !SpansLines(ts[n]) && kindOf(ts[n].name).Some?
    ensures forall i :: 0 <= i < |AllPieces(text, kindOf, ts)| ==> AllPieces(text, kindOf, ts)[i].len >= 1
    ensures PieceStarts(kindOf, ts, ks) == ks
    decreases |ts|
  {
    if ts != [] {
      OneLinePieces(text, kindOf, ts[1..], ks[1..]);
      assert ks == [ks[0]] + ks[1..];
    }
  }

  /** Of coloured tokens on one line each, one of them restarted, the guard drops some piece. */
  lemma {:induction false} DropsRestarted(
    text: string, kindOf: string -> Option<nat>, ts: seq<T.TokenPoint>, ks: seq<nat>, i: nat, j: nat)
    requires InText(text, ts, ks) && i < j < |ks| && ks[j] <= |text| && Restarted(text, ks[i], ks[j])
    requires forall n :: 0 <= n < |ts| ==> !SpansLines(ts[n]) && kindOf(ts[n].name).Some?
    ensures After(START, AllPieces(text, kindOf, ts)).out != NonEmpty(AllPieces(text, kindOf, ts))
  {
    OneLinePieces(text, kindOf, ts, ks);
    GuardDropsExactly(text, kindOf, ts, ks);
  }

  function ReturningTokens(): seq<T.TokenPoint> {
    [ReturningToken(0, 1), ReturningToken(2, 3), ReturningToken(4, 1)]
  }

  lemma {:induction false} ReturningInText()
    ensures InText(RETURNING, ReturningTokens(), [0, 2, 4])
  {
    ReturningPlaces(0);
    ReturningPlaces(2);
    ReturningPlaces(4);
    ThreeInText(RETURNING, ReturningTokens(), 0, 2, 4);
  }

  lemma {:induction false} ThreeInText(text: string, ts: seq<T.TokenPoint>, a: nat, b: nat, c: nat)
    requires |ts| == 3 && Consistent(text, ts[0], a) && Consistent(text, ts[1], b) && Consistent(text, ts[2], c)
    requires a + |ts[0].src| <= b && a + |ts[0].src| <= c && b + |ts[1].src| <= c
    ensures InText(text, ts, [a, b, c])
  {
  }

  lemma {:induction false} ReturningRestarts()
    ensures Restarted(RETURNING, 2, 4)
  {
    ReturningPlaces(2);
    ReturningPlaces(4);
  }

  function AllColoured(name: string): Option<nat> {
    Some(0)
  }

  lemma {:induction false} ReturningOneLine()
    ensures forall n :: 0 <= n < |ReturningTokens()| ==>
      !SpansLines(ReturningTokens()[n]) && AllColoured(ReturningTokens()[n].name).Some?
  {
  }

  /** The guard drops the token after the carriage return. */
  lemma {:induction false} ReturnDropsPiece()
    ensures InText(RETURNING, ReturningTokens(), [0, 2, 4])
    ensures var ss := AllPieces(RETURNING, AllColoured, ReturningTokens()); After(START, ss).out != NonEmpty(ss)
  {
    var ts, ks := ReturningTokens(), [0, 2, 4];
    ReturningInText();
    ReturningRestarts();
    ReturningOneLine();
    DropsRestarted(RETURNING, AllColoured, ts, ks, 1, 2);
  }

  ghost predicate NoReturns(text: string) {
    forall i :: 0 <= i < |text| ==> text[i] != '\r'
  }

  /** Without carriage returns the column never restarts within a line. */
  lemma {:induction false} NeverRestarted(text: string, x: nat, y: nat)
    requires NoReturns(text) && x <= y <= |text|
    ensures !Restarted(text, x, y)
  {
    NewlinesGrow(text, x, y);
    if Newlines(text, x) == Newlines(text, y) {
      SameColumnBegin(text, x, y);
      WidthGrows(Utf16, text, x, y);
    }
  }

  /** Over text without carriage returns the guard drops only empty pieces. */
  lemma {:induction false} GuardDropsNothing(
    text: string, kindOf: string -> Option<nat>, ts: seq<T.TokenPoint>, ks: seq<nat>)
    requires NoReturns(text) && InText(text, ts, ks)
    ensures After(START, AllPieces(text, kindOf, ts)).out == NonEmpty(AllPieces(text, kindOf, ts))
  {
    var xs := PieceStarts(kindOf, ts, ks);
    GuardDropsExactly(text, kindOf, ts, ks);
    forall i, j | 0 <= i < j < |xs| ensures !Restarted(text, xs[i], xs[j]) {
      NeverRestarted(text, xs[i], xs[j]);
    }
  }
}
