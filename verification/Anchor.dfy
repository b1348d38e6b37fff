/** Putting a token back on its text (rs/src/trace.rs, `anchor` and `reconcile_in`).

    Some grammars report where a token's text ends. Moving such a token to where it starts must
    give it the row and column the engine would have reported there, whether its text has line
    breaks in it, so that the column is measured afresh, or not, so that a subtraction does. */
module Anchor {
  import opened Wrappers
  import opened Text
  import opened Trace

  /** The text between two byte offsets, when both are boundaries within it: `str::get`. */
  function Get(t: string, a: nat, b: nat): Option<string> {
    if a <= b && IsBoundary(t, a) && IsBoundary(t, b) then Some(Slice(t, a, b)) else None
  }

  predicate HasBreak(s: string) {
    exists i :: 0 <= i < |s| && IsBreak(s[i])
  }

  function Anchored(e: TokenPoint, t: string): Option<TokenPoint> {
    var n := ByteLen(e.src);
    if n == 0 || e.len != n then None
    else if Get(t, e.si, e.si + n) == Some(e.src) then None
    else if e.si < n then None
    else if Get(t, e.si - n, e.si) != Some(e.src) then None
    else
      var start := e.si - n;
      var chars := |e.src|;
      var ci :=
        if HasBreak(e.src) || e.ci <= chars then ColumnAt(t, Floor(t, start))
        else e.ci - chars;
      var feeds := Newlines(e.src, |e.src|);
      Some(e.(si := start, ri := if e.ri < feeds then 0 else e.ri - feeds, ci := ci))
  }

  /** The token where the pipeline reads it: moved, or as reported. */
  function Placed(e: TokenPoint, t: string): TokenPoint {
    var moved := Anchored(e, t);
    if moved.Some? then moved.value else e
  }

  /** The scalar index a byte offset denotes carries the engine's row and column `ri`, `ci`. */
  predicate EngineSite(t: string, si: nat, ri: nat, ci: nat) {
    IsBoundary(t, si) && ri == RowAt(t, Floor(t, si)) && ci == ColumnAt(t, Floor(t, si))
  }

  /** The text has `src` at index `k`. */
  predicate Has(t: string, src: string, k: nat) {
    k + |src| <= |t| && t[k..k + |src|] == src
  }

  /** Byte `si` is where `src` starts in the text, or where it ends. */
  ghost predicate StartsAt(t: string, src: string, si: nat) {
    exists k: nat :: Has(t, src, k) && si == Offset(t, k)
  }

  ghost predicate EndsAt(t: string, src: string, si: nat) {
    exists k: nat :: Has(t, src, k) && si == Offset(t, k + |src|)
  }

  lemma {:induction false} BytesOf(t: string, src: string, k: nat)
    requires Has(t, src, k)
    ensures Offset(t, k + |src|) == Offset(t, k) + ByteLen(src)
  {
    WidthOfSlice(Utf8, t, k, k + |src|);
  }

  lemma {:induction false} GetsFrom(t: string, src: string, a: nat)
    ensures Get(t, a, a + ByteLen(src)) == Some(src) <==> StartsAt(t, src, a)
  {
    var b := a + ByteLen(src);
    if Get(t, a, b) == Some(src) {
      FloorGrows(t, a, b);
      assert Has(t, src, Floor(t, a));
    }
    if k: nat :| Has(t, src, k) && a == Offset(t, k) {
      BytesOf(t, src, k);
      SliceOfIndices(t, k, k + |src|);
    }
  }

  lemma {:induction false} GetsTo(t: string, src: string, b: nat)
    ensures b >= ByteLen(src) && StartsAt(t, src, b - ByteLen(src)) <==> EndsAt(t, src, b)
  {
    if b >= ByteLen(src) && StartsAt(t, src, b - ByteLen(src)) {
      var k: nat :| Has(t, src, k) && b - ByteLen(src) == Offset(t, k);
      BytesOf(t, src, k);
    }
    if EndsAt(t, src, b) {
      var k: nat :| Has(t, src, k) && b == Offset(t, k + |src|);
      BytesOf(t, src, k);
    }
  }

  /** A token that is moved: it has text, of the length it reports, and the byte it reports is
      where that text ends in the document and not where it starts. */
  ghost predicate IsMoved(e: TokenPoint, t: string) {
    e.src != "" && e.len == ByteLen(e.src) && EndsAt(t, e.src, e.si) && !StartsAt(t, e.src, e.si)
  }

  lemma {:induction false} GetsBefore(t: string, src: string, b: nat)
    ensures b >= ByteLen(src) && Get(t, b - ByteLen(src), b) == Some(src) <==> EndsAt(t, src, b)
  {
    GetsTo(t, src, b);
    if b >= ByteLen(src) { GetsFrom(t, src, b - ByteLen(src)); }
  }

  lemma {:induction false} AnchoredGets(e: TokenPoint, t: string)
    ensures var n := ByteLen(e.src);
      Anchored(e, t).Some? <==>
        && n > 0 && e.len == n
        && Get(t, e.si, e.si + n) != Some(e.src)
        && (e.si >= n && Get(t, e.si - n, e.si) == Some(e.src))
  {
  }

  /** Exactly those are. */
  lemma {:induction false} AnchoredExactly(e: TokenPoint, t: string)
    ensures Anchored(e, t).Some? <==> IsMoved(e, t)
  {
    AnchoredGets(e, t);
    GetsFrom(t, e.src, e.si);
    GetsBefore(t, e.src, e.si);
    WidthGrows(Utf8, e.src, 0, |e.src|);
  }

  /** Token `p` is token `e` in its place: moved to the start of its text, its row by the line
      feeds in it, or as it was reported. */
  ghost predicate InPlace(e: TokenPoint, t: string, p: TokenPoint) {
    if !IsMoved(e, t) then p == e
    else exists k: nat :: Has(t, e.src, k) && e.si == Offset(t, k + |e.src|) && MovedTo(e, t, p, k)
  }

  predicate MovedTo(e: TokenPoint, t: string, p: TokenPoint, k: nat)
    requires k <= |t|
  {
    var feeds := Newlines(e.src, |e.src|);
    && p.si == Offset(t, k) && p.name == e.name && p.len == e.len && p.src == e.src
    && p.ri == (if e.ri < feeds then 0 else e.ri - feeds)
    && p.ci == (if HasBreak(e.src) || e.ci <= |e.src| then ColumnAt(t, k) else e.ci - |e.src|)
  }

  lemma {:induction false} MovedExactly(e: TokenPoint, t: string, k: nat)
    requires Anchored(e, t).Some? && Has(t, e.src, k) && e.si == Offset(t, k + |e.src|)
    ensures MovedTo(e, t, Placed(e, t), k)
  {
    BytesOf(t, e.src, k);
    FloorOfOffset(t, k);
  }

  lemma {:induction false} InPlaceAt(e: TokenPoint, t: string, p: TokenPoint, k: nat)
    requires Has(t, e.src, k) && e.si == Offset(t, k + |e.src|) && MovedTo(e, t, p, k) && IsMoved(e, t)
    ensures InPlace(e, t, p)
  {
  }

  lemma {:induction false} InPlaceAsReported(e: TokenPoint, t: string)
    requires !IsMoved(e, t)
    ensures InPlace(e, t, e) && Placed(e, t) == e
  {
    AnchoredExactly(e, t);
  }

  lemma {:induction false} MovedFrom(e: TokenPoint, t: string) returns (k: nat)
    requires IsMoved(e, t)
    ensures Has(t, e.src, k) && e.si == Offset(t, k + |e.src|) && MovedTo(e, t, Placed(e, t), k)
  {
    AnchoredExactly(e, t);
    k :| Has(t, e.src, k) && e.si == Offset(t, k + |e.src|);
    MovedExactly(e, t, k);
  }

  lemma {:induction false} PlacedExactly(e: TokenPoint, t: string)
    ensures InPlace(e, t, Placed(e, t))
  {
    if IsMoved(e, t) {
      var k := MovedFrom(e, t);
      InPlaceAt(e, t, Placed(e, t), k);
    } else {
      InPlaceAsReported(e, t);
    }
  }

  /** A moved token's text ends where the token was reported and starts where it is now. */
  lemma {:induction false} MovedSitsOnText(e: TokenPoint, t: string)
    requires Anchored(e, t).Some?
    ensures var m := Anchored(e, t).value;
      && m.src == e.src && m.si + ByteLen(e.src) == e.si
      && IsBoundary(t, m.si) && IsBoundary(t, e.si)
      && Floor(t, e.si) == Floor(t, m.si) + |e.src|
      && t[Floor(t, m.si)..Floor(t, e.si)] == e.src
      && Get(t, m.si, m.si + ByteLen(m.src)) == Some(m.src)
  {
    var m := Anchored(e, t).value;
    FloorGrows(t, m.si, e.si);
  }

  /** The moved row and column are the engine's for the new start, whichever way the column was
      worked out, if the reported ones were the engine's for the reported offset. */
  lemma {:induction false} MovedSiteIsEngines(e: TokenPoint, t: string)
    requires Anchored(e, t).Some? && EngineSite(t, e.si, e.ri, e.ci)
    ensures var m := Anchored(e, t).value; EngineSite(t, m.si, m.ri, m.ci)
  {
    MovedSitsOnText(e, t);
    var m := Anchored(e, t).value;
    var i, j := Floor(t, m.si), Floor(t, e.si);
    NewlinesOfSlice(t, i, j);
    if !HasBreak(e.src) { OneColumn(t, i, j); }
  }

  /** Text without breaks is counted from one column start. */
  lemma {:induction false} OneColumn(t: string, i: nat, j: nat)
    requires i <= j <= |t| && !HasBreak(t[i..j])
    ensures ColumnBegin(t, j) == ColumnBegin(t, i)
  {
    forall k | i <= k < j ensures !IsBreak(t[k]) {
      assert t[k] == t[i..j][k - i];
    }
    SameColumnBegin(t, i, j);
  }

  lemma {:induction false} SittingStays(e: TokenPoint, t: string)
    requires Get(t, e.si, e.si + ByteLen(e.src)) == Some(e.src)
    ensures Anchored(e, t) == None
  {
  }

  /** A moved token stays put the second time. */
  lemma {:induction false} AnchorIdempotent(e: TokenPoint, t: string)
    ensures Anchored(Placed(e, t), t) == None
    ensures Placed(Placed(e, t), t) == Placed(e, t)
  {
    if Anchored(e, t).Some? {
      var m := Anchored(e, t).value;
      assert Get(t, m.si, m.si + ByteLen(m.src)) == Some(m.src) by {
        MovedSitsOnText(e, t);
      }
      SittingStays(m, t);
    }
  }

  /** `reconcile_in`: every token put where its text is, then reconciled. */
  method ReconcileIn(events: seq<TokenPoint>, t: string) returns (out: seq<TokenPoint>)
    ensures out == ReconciledIn(events, t)
  {
    out := Reconcile(events, e => Placed(e, t));
  }

  function ReconciledIn(events: seq<TokenPoint>, t: string): seq<TokenPoint> {
    Reconciled(PlacedAll(events, e => Placed(e, t)))
  }

  /** Reconciling against the text is idempotent too: its output is already in place. */
  lemma {:induction false} ReconcileInIdempotent(events: seq<TokenPoint>, t: string)
    ensures ReconciledIn(ReconciledIn(events, t), t) == ReconciledIn(events, t)
  {
    var placed := PlacedAll(events, e => Placed(e, t));
    var out := Reconciled(placed);
    ReconciledFacts(placed);
    forall i | 0 <= i < |out| ensures Placed(out[i], t) == out[i] {
      assert out[i] in placed;
      var k :| 0 <= k < |placed| && placed[k] == out[i];
      AnchorIdempotent(events[k], t);
    }
    assert PlacedAll(out, e => Placed(e, t)) == out;
    ReconcileIdempotent(placed);
  }

  /** Each of the tokens is its event in its place. */
  ghost predicate AllInPlace(events: seq<TokenPoint>, t: string, placed: seq<TokenPoint>) {
    |placed| == |events| && forall i :: 0 <= i < |events| ==> InPlace(events[i], t, placed[i])
  }

  /** The output starts strictly increase, and it holds exactly the events in their places that
      survive among the events in their places. */
  lemma {:induction false} ReconciledInFacts(events: seq<TokenPoint>, t: string)
    returns (placed: seq<TokenPoint>)
    ensures AllInPlace(events, t, placed) && Ascending(ReconciledIn(events, t))
    ensures forall p :: p in ReconciledIn(events, t) <==> SomeSurvivor(placed, 0, p)
  {
    placed := PlacedAll(events, e => Placed(e, t));
    ReconciledFacts(placed);
    AllPlacedExactly(events, t);
    forall p ensures p in ReconciledIn(events, t) <==> SomeSurvivor(placed, 0, p) {
      ReconciledIsSurvivors(placed, p);
    }
  }

  lemma {:induction false} AllPlacedExactly(events: seq<TokenPoint>, t: string)
    ensures AllInPlace(events, t, PlacedAll(events, e => Placed(e, t)))
  {
    var placed := PlacedAll(events, e => Placed(e, t));
    forall i | 0 <= i < |events| ensures InPlace(events[i], t, placed[i]) {
      PlacedExactly(events[i], t);
    }
  }
}
