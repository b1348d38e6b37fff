/** The lex trace reconciled into the tokens a parse used (rs/src/trace.rs).

    Events are taken newest first; a kept token claims its span, and an older event starting in
    a claimed span is shadowed. The reference form scans every span claimed so far
    (ts/src/core.js, `reconcile`); the fast form keeps their union as disjoint intervals. */
module Trace {
  import opened Wrappers
  import Sorting

  /** What the lexer reported of a token: its offset, row, column, length and text. */
  datatype TokenPoint = TokenPoint(name: string, si: nat, ri: nat, ci: nat, len: nat, src: string) {
    /** The bytes this event claims: never less than one. */
    function Span(): (n: nat)
      ensures n >= 1
    {
      if len < 1 then 1 else len
    }
  }

  // ---------------------------------------------------------------------------------------
  // The reference form.

  predicate Claims(t: TokenPoint, x: nat) {
    t.si <= x < t.si + t.Span()
  }

  /** Byte `x` lies in the span of one of the tokens kept so far. */
  predicate Claimed(kept: seq<TokenPoint>, x: nat) {
    exists k :: 0 <= k < |kept| && Claims(kept[k], x)
  }

  /** The survivors, newest first: an event is kept unless a newer kept token claims the byte
      it starts at. */
  function Scan(events: seq<TokenPoint>): seq<TokenPoint> {
    if events == [] then []
    else
      var kept := Scan(events[1..]);
      if Claimed(kept, events[0].si) then kept else kept + [events[0]]
  }

  predicate StartsNoLater(a: TokenPoint, b: TokenPoint) {
    a.si <= b.si
  }

  function SortByStart(s: seq<TokenPoint>): (r: seq<TokenPoint>)
    ensures multiset(r) == multiset(s)
  {
    Sorting.StableSort(StartsNoLater, s)
  }

  /** The reconciled tokens of a trace. */
  function Reconciled(events: seq<TokenPoint>): seq<TokenPoint> {
    SortByStart(Scan(events))
  }

  /** `reconcile` of ts/src/core.js: scan every claimed span for every event. */
  method ReconcileByScan(events: seq<TokenPoint>) returns (out: seq<TokenPoint>)
    ensures out == Reconciled(events)
  {
    out := [];
    var claimed: seq<(nat, nat)> := [];
    for i := |events| downto 0
      invariant out == Scan(events[i..])
      invariant |claimed| == |out|
      invariant forall k :: 0 <= k < |out| ==> claimed[k] == (out[k].si, out[k].si + out[k].Span())
    {
      var t := events[i];
      assert events[i..][1..] == events[i + 1..];
      var shadowed := false;
      for k := 0 to |claimed|
        invariant !shadowed ==> forall j :: 0 <= j < k ==> !Claims(out[j], t.si)
        invariant shadowed ==> Claimed(out, t.si)
      {
        if claimed[k].0 <= t.si < claimed[k].1 {
          assert Claims(out[k], t.si);
          shadowed := true;
          break;
        }
      }
      if shadowed {
        continue;
      }
      claimed := claimed + [(t.si, t.si + t.Span())];
      out := out + [t];
    }
    assert events[0..] == events;
    out := SortByStart(out);
  }

  // ---------------------------------------------------------------------------------------
  // The union of the claimed spans, as disjoint intervals keyed by start.

  /** Every interval is non-empty, and a gap separates each from the next. */
  ghost predicate Separated(m: map<nat, nat>) {
    && (forall s :: s in m ==> s < m[s])
    && (forall s, s' :: s in m && s' in m && s < s' ==> m[s] < s')
  }

  ghost predicate Covers(m: map<nat, nat>, x: nat) {
    exists s :: s in m && s <= x < m[s]
  }

  /** The start of the nearest interval not after `x`. */
  function AtOrBefore(m: map<nat, nat>, x: nat): (r: Option<nat>)
    ensures r.Some? ==> r.value in m && r.value <= x && forall s :: s in m && s <= x ==> s <= r.value
    ensures r.None? ==> forall s :: s in m ==> s > x
  {
    if x in m then Some(x) else if x == 0 then None else AtOrBefore(m, x - 1)
  }

  lemma {:induction false} LeastFrom(m: map<nat, nat>, x: nat, some: nat) returns (s: nat)
    requires some in m && x <= some
    ensures s in m && x <= s && forall s' :: s' in m && x <= s' ==> s <= s'
    decreases some
  {
    if s' :| s' in m && x <= s' < some {
      s := LeastFrom(m, x, s');
    } else {
      s := some;
    }
  }

  /** Whether the union covers `x`, by one ordered lookup. */
  method Shadowed(m: map<nat, nat>, x: nat) returns (yes: bool)
    requires Separated(m)
    ensures yes <==> Covers(m, x)
  {
    var before := AtOrBefore(m, x);
    yes := before.Some? && x < m[before.value];
  }

  lemma {:induction false} CoversAfterInsert(m: map<nat, nat>, lo: nat, hi: nat)
    requires lo !in m && lo < hi
    ensures forall x: nat :: Covers(m[lo := hi], x) <==> Covers(m, x) || lo <= x < hi
  {
    var r := m[lo := hi];
    forall x: nat ensures Covers(r, x) <==> Covers(m, x) || lo <= x < hi {
      if lo <= x < hi {
        assert lo in r && r[lo] == hi;
      }
      if Covers(m, x) {
        var s :| s in m && s <= x < m[s];
        assert s in r && r[s] == m[s];
      }
    }
  }

  lemma {:induction false} CoversAfterRemove(m: map<nat, nat>, s: nat)
    requires Separated(m) && s in m
    ensures forall x: nat :: Covers(m, x) <==> Covers(m - {s}, x) || s <= x < m[s]
  {
    var r := m - {s};
    forall x: nat | Covers(m, x) && !(s <= x < m[s]) ensures Covers(r, x) {
      var s' :| s' in m && s' <= x < m[s'];
      assert s' in r;
    }
  }

  /** `r` with `[lo, hi)` covers what `m` with `[start, end)` covers. */
  ghost predicate SameUnion(r: map<nat, nat>, lo: nat, hi: nat, m: map<nat, nat>, start: nat, end: nat) {
    forall x: nat {:trigger Covers(r, x)} {:trigger Covers(m, x)} ::
      Covers(r, x) || lo <= x < hi <==> Covers(m, x) || start <= x < end
  }

  /** Absorbing an interval that touches `[lo, hi)` leaves the union as it is. */
  lemma {:induction false} AbsorbStep(
    r: map<nat, nat>, s: nat, lo: nat, hi: nat, m: map<nat, nat>, start: nat, end: nat)
    requires Separated(r) && s in r && lo < hi && s <= hi && lo <= r[s]
    requires SameUnion(r, lo, hi, m, start, end)
    ensures SameUnion(r - {s}, if s < lo then s else lo, if hi < r[s] then r[s] else hi, m, start, end)
  {
    CoversAfterRemove(r, s);
  }

  ghost predicate IsNext(m: map<nat, nat>, x: nat, r: Option<nat>) {
    && (r.Some? ==> r.value in m && x <= r.value && forall s :: s in m && x <= s ==> r.value <= s)
    && (r.None? ==> forall s :: s in m ==> s < x)
  }

  /** The interval with the least start at or after `x`. */
  method AtOrAfter(m: map<nat, nat>, x: nat) returns (r: Option<nat>)
    ensures IsNext(m, x, r)
  {
    if exists s :: s in m && x <= s {
      ghost var some :| some in m && x <= some;
      ghost var least := LeastFrom(m, x, some);
      var s :| s in m && x <= s && forall s' :: s' in m && x <= s' ==> s <= s';
      r := Some(s);
    } else {
      r := None;
    }
  }

  /** No interval starts at `lo`, and those before it end before it. */
  ghost predicate ClearBefore(r: map<nat, nat>, lo: nat) {
    lo !in r && forall s :: s in r && s < lo ==> r[s] < lo
  }

  lemma {:induction false} InsertSeparated(r: map<nat, nat>, lo: nat, hi: nat)
    requires Separated(r) && ClearBefore(r, lo) && lo < hi
    requires forall s :: s in r && lo <= s ==> hi < s
    ensures Separated(r[lo := hi])
  {
  }

  /** Absorb the intervals from `lo` on that `[lo, hi)` reaches. */
  method AbsorbAfter(m: map<nat, nat>, lo: nat, end: nat) returns (r: map<nat, nat>, hi: nat)
    requires Separated(m) && ClearBefore(m, lo) && lo < end
    ensures Separated(r) && ClearBefore(r, lo) && lo < hi
    ensures forall s :: s in r && lo <= s ==> hi < s
    ensures SameUnion(r, lo, hi, m, lo, end)
  {
    r, hi := m, end;
    var next := AtOrAfter(r, lo);
    while next.Some? && next.value <= hi
      invariant Separated(r) && ClearBefore(r, lo) && lo < hi
      invariant IsNext(r, lo, next)
      invariant SameUnion(r, lo, hi, m, lo, end)
      decreases |r|
    {
      var s, e := next.value, r[next.value];
      AbsorbStep(r, s, lo, hi, m, lo, end);
      r := r - {s};
      hi := if hi < e then e else hi;
      next := AtOrAfter(r, lo);
    }
  }

  /** `claim`: the union grows by `[start, end)` and stays in as few intervals as it can. */
  method Claim(m: map<nat, nat>, start: nat, end: nat) returns (r: map<nat, nat>)
    requires Separated(m) && start < end && !Covers(m, start)
    ensures Separated(r)
    ensures forall x: nat :: Covers(r, x) <==> Covers(m, x) || start <= x < end
  {
    r := m;
    var lo, hi := start, end;
    var before := AtOrBefore(r, lo);
    if before.Some? && r[before.value] >= lo {
      var s, e := before.value, r[before.value];
      AbsorbStep(r, s, lo, hi, m, start, end);
      r := r - {s};
      lo := s;
      hi := if hi < e then e else hi;
    }
    r, hi := AbsorbAfter(r, lo, hi);
    ghost var apart := r;
    CoversAfterInsert(r, lo, hi);
    InsertSeparated(r, lo, hi);
    r := r[lo := hi];
    forall x: nat ensures Covers(r, x) <==> Covers(m, x) || start <= x < end {
      assert Covers(r, x) <==> Covers(apart, x) || lo <= x < hi;
    }
  }

  /** `reconcile_placed` over events already placed: the reference form's result, from one
      ordered lookup per event. */
  method Reconcile(events: seq<TokenPoint>, place: TokenPoint -> TokenPoint) returns (out: seq<TokenPoint>)
    ensures out == Reconciled(PlacedAll(events, place))
  {
    var claimed: map<nat, nat> := map[];
    ghost var placed := PlacedAll(events, place);
    out := [];
    for i := |events| downto 0
      invariant out == Scan(placed[i..])
      invariant Separated(claimed)
      invariant forall x: nat :: Covers(claimed, x) <==> Claimed(out, x)
    {
      assert placed[i..][1..] == placed[i + 1..];
      var at := place(events[i]);
      var shadowed := Shadowed(claimed, at.si);
      if shadowed {
        continue;
      }
      ClaimedAfterPush(out, at);
      claimed := Claim(claimed, at.si, at.si + at.Span());
      out := out + [at];
    }
    assert placed[0..] == placed;
    out := SortByStart(out);
  }

  function PlacedAll(events: seq<TokenPoint>, place: TokenPoint -> TokenPoint): (r: seq<TokenPoint>)
    ensures |r| == |events| && forall i :: 0 <= i < |r| ==> r[i] == place(events[i])
  {
    seq(|events|, i requires 0 <= i < |events| => place(events[i]))
  }

  lemma {:induction false} ClaimedAfterPush(kept: seq<TokenPoint>, t: TokenPoint)
    ensures forall x: nat :: Claimed(kept + [t], x) <==> Claimed(kept, x) || t.si <= x < t.si + t.Span()
  {
    var more := kept + [t];
    forall x: nat ensures Claimed(more, x) <==> Claimed(kept, x) || t.si <= x < t.si + t.Span() {
      if Claimed(kept, x) {
        var k :| 0 <= k < |kept| && Claims(kept[k], x);
        assert Claims(more[k], x);
      }
      if t.si <= x < t.si + t.Span() {
        assert Claims(more[|kept|], x);
      }
    }
  }

  // ---------------------------------------------------------------------------------------
  // What reconciling promises.

  ghost predicate DistinctStarts(s: seq<TokenPoint>) {
    forall i, j :: 0 <= i < j < |s| ==> s[i].si != s[j].si
  }

  ghost predicate Ascending(s: seq<TokenPoint>) {
    forall i, j :: 0 <= i < j < |s| ==> s[i].si < s[j].si
  }

  lemma {:induction false} ScanFacts(events: seq<TokenPoint>)
    ensures DistinctStarts(Scan(events))
    ensures forall t :: t in Scan(events) ==> t in events
    ensures forall t :: t in events ==> Claimed(Scan(events), t.si)
  {
    if events != [] {
      var t, kept := events[0], Scan(events[1..]);
      ScanFacts(events[1..]);
      ClaimedAfterPush(kept, t);
      if !Claimed(kept, t.si) { UnclaimedIsNew(kept, t); }
    }
  }

  lemma {:induction false} UnclaimedIsNew(kept: seq<TokenPoint>, t: TokenPoint)
    requires DistinctStarts(kept) && !Claimed(kept, t.si)
    ensures DistinctStarts(kept + [t])
  {
    forall k | 0 <= k < |kept| ensures kept[k].si != t.si {
      assert !Claims(kept[k], t.si);
    }
  }

  lemma {:induction false} InsertAscending(t: TokenPoint, s: seq<TokenPoint>)
    requires Ascending(s) && forall k :: 0 <= k < |s| ==> s[k].si != t.si
    ensures Ascending(Sorting.Insert(StartsNoLater, t, s))
  {
    if s != [] && !StartsNoLater(t, s[0]) {
      InsertAscending(t, s[1..]);
      var r := Sorting.Insert(StartsNoLater, t, s[1..]);
      forall k | 0 <= k < |r| ensures s[0].si < r[k].si {
        assert r[k] in multiset(r);
        assert r[k] == t || r[k] in s[1..];
      }
    }
  }

  lemma {:induction false} SortAscending(s: seq<TokenPoint>)
    requires DistinctStarts(s)
    ensures Ascending(SortByStart(s))
  {
    if s != [] {
      var rest := SortByStart(s[1..]);
      SortAscending(s[1..]);
      forall k | 0 <= k < |rest| ensures rest[k].si != s[0].si {
        assert rest[k] in multiset(rest);
        assert rest[k] in s[1..];
      }
      InsertAscending(s[0], rest);
    }
  }

  lemma {:induction false} SortKeepsElements(s: seq<TokenPoint>)
    ensures forall t :: t in SortByStart(s) <==> t in s
  {
    forall t ensures t in SortByStart(s) <==> t in s {
      assert t in SortByStart(s) <==> t in multiset(SortByStart(s));
    }
  }

  /** The output starts strictly increase, every output token is one of the events, and every
      event starts inside the span of an output token. */
  lemma {:induction false} ReconciledFacts(events: seq<TokenPoint>)
    ensures Ascending(Reconciled(events))
    ensures forall t :: t in Reconciled(events) ==> t in events
    ensures forall t :: t in events ==> Claimed(Reconciled(events), t.si)
  {
    var kept, out := Scan(events), Reconciled(events);
    ScanFacts(events);
    SortAscending(kept);
    SortKeepsElements(kept);
    forall t | t in events ensures Claimed(out, t.si) {
      var k :| 0 <= k < |kept| && Claims(kept[k], t.si);
      assert kept[k] in out;
      var j :| 0 <= j < |out| && out[j] == kept[k];
      assert Claims(out[j], t.si);
    }
  }

  /** A list in strictly increasing order shadows none of its own tokens. */
  lemma {:induction false} ScanKeepsAscending(s: seq<TokenPoint>)
    requires Ascending(s)
    ensures multiset(Scan(s)) == multiset(s)
    ensures forall t :: t in Scan(s) ==> t in s
  {
    if s != [] {
      ScanKeepsAscending(s[1..]);
      var kept := Scan(s[1..]);
      forall k | 0 <= k < |kept| ensures !Claims(kept[k], s[0].si) {
        assert kept[k] in s[1..];
      }
      assert s == [s[0]] + s[1..];
    }
  }

  /** Reconciling a reconciled list changes nothing. */
  lemma {:induction false} ReconcileIdempotent(events: seq<TokenPoint>)
    ensures Reconciled(Reconciled(events)) == Reconciled(events)
  {
    var out := Reconciled(events);
    ReconciledFacts(events);
    ScanKeepsAscending(out);
    Sorting.StableSortSorts(StartsNoLater, Scan(out));
    Sorting.StrictIsUnique(StartsNoLater, out, Reconciled(out));
  }

  // ---------------------------------------------------------------------------------------
  // Which events survive.

  /** The newer event claims the byte the other starts at: it starts no later, and reaches past
      it, by its length or by one byte. */
  predicate Shadows(newer: TokenPoint, e: TokenPoint) {
    newer.si <= e.si < newer.si + if newer.len < 1 then 1 else newer.len
  }

  /** Event `i` survives: no newer survivor shadows it. */
  predicate Survives(events: seq<TokenPoint>, i: nat)
    decreases |events| - i
  {
    i < |events| && forall j :: i < j < |events| && Survives(events, j) ==> !Shadows(events[j], events[i])
  }

  /** The token is an event that survives, not before the `n`th. */
  ghost predicate SomeSurvivor(events: seq<TokenPoint>, n: nat, t: TokenPoint) {
    exists i: nat :: n <= i < |events| && Survives(events, i) && events[i] == t
  }

  lemma {:induction false} ScanIsSurvivors(events: seq<TokenPoint>, n: nat, t: TokenPoint)
    requires n <= |events|
    ensures t in Scan(events[n..]) <==> SomeSurvivor(events, n, t)
    decreases |events| - n
  {
    if n < |events| {
      var e, kept := events[n], Scan(events[n + 1..]);
      assert events[n..][0] == e && events[n..][1..] == events[n + 1..];
      ScanIsSurvivors(events, n + 1, t);
      ClaimedIsShadowed(events, n);
      if Survives(events, n) && e == t {
        assert t in kept + [e];
      }
      if t in kept { assert t in kept + [e]; }
    }
  }

  lemma {:induction false} ClaimedIsShadowed(events: seq<TokenPoint>, n: nat)
    requires n < |events|
    ensures Claimed(Scan(events[n + 1..]), events[n].si) <==> !Survives(events, n)
    decreases |events| - n, 0
  {
    var e, kept := events[n], Scan(events[n + 1..]);
    if Claimed(kept, e.si) {
      var k :| 0 <= k < |kept| && Claims(kept[k], e.si);
      ScanIsSurvivors(events, n + 1, kept[k]);
    }
    if j :| n < j < |events| && Survives(events, j) && Shadows(events[j], e) {
      ScanIsSurvivors(events, n + 1, events[j]);
      var k :| 0 <= k < |kept| && kept[k] == events[j];
      assert Claims(kept[k], e.si);
    }
  }

  /** What reconciling keeps: exactly the events that survive. */
  lemma {:induction false} ReconciledIsSurvivors(events: seq<TokenPoint>, t: TokenPoint)
    ensures t in Reconciled(events) <==> SomeSurvivor(events, 0, t)
  {
    ScanIsSurvivors(events, 0, t);
    assert events[0..] == events;
    SortKeepsElements(Scan(events));
  }
}
