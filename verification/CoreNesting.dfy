/** Nesting as the reference implementation does it (ts/src/core.js, the end of `outline`):
    symbols that hold their own children, pushed into place as one walk goes, with no bound on
    the depth. It builds the forest the declarative outline says, and the bounded form builds that
    forest cut off. */
module CoreNesting {
  import opened Forest
  import opened Nesting
  import Sorting

  class Symbol {
    const start: nat
    const end: nat
    var children: seq<Symbol>

    constructor (start: nat, end: nat)
      ensures this.start == start && this.end == end && children == []
    {
      this.start, this.end, children := start, end, [];
    }
  }

  /** Spans whose items are places in a list of symbols. */
  type Spans = seq<Spanned<nat>>

  ghost predicate AreDistinct(symbols: seq<Symbol>) {
    forall i, j :: 0 <= i < j < |symbols| ==> symbols[i] != symbols[j]
  }

  /** Each symbol's place, with the span it nests by. */
  function Places(symbols: seq<Symbol>): Spans {
    seq(|symbols|, i requires 0 <= i < |symbols| => Spanned(i, symbols[i].start, symbols[i].end))
  }

  ghost predicate Distinct(s: Spans) {
    forall i, j :: 0 <= i < j < |s| ==> s[i].item != s[j].item
  }

  lemma {:induction false} InsertKeepsDistinct(
    le: (Spanned<nat>, Spanned<nat>) -> bool, x: Spanned<nat>, s: Spans)
    requires Distinct(s) && forall y :: y in s ==> y.item != x.item
    ensures Distinct(Sorting.Insert(le, x, s))
    decreases |s|
  {
    if s != [] && !le(x, s[0]) {
      InsertKeepsDistinct(le, x, s[1..]);
      var rest := Sorting.Insert(le, x, s[1..]);
      forall j | 0 <= j < |rest| ensures rest[j].item != s[0].item {
        assert rest[j] in multiset(rest);
        assert rest[j] == x || rest[j] in s[1..];
      }
    }
  }

  lemma {:induction false} SortKeepsDistinct(le: (Spanned<nat>, Spanned<nat>) -> bool, s: Spans)
    requires Distinct(s)
    ensures Distinct(Sorting.StableSort(le, s))
    decreases |s|
  {
    if s != [] {
      var rest := Sorting.StableSort(le, s[1..]);
      SortKeepsDistinct(le, s[1..]);
      forall y | y in rest ensures y.item != s[0].item {
        assert y in multiset(rest);
        assert y in s[1..];
      }
      InsertKeepsDistinct(le, s[0], rest);
    }
  }

  /** Every item is a place in the list, and no two are the same. */
  ghost predicate PlacesIn(symbols: seq<Symbol>, s: Spans) {
    Distinct(s) && AreDistinct(symbols) && forall i :: 0 <= i < |s| ==> s[i].item < |symbols|
  }

  lemma {:induction false} SortedPlaces(symbols: seq<Symbol>)
    requires AreDistinct(symbols)
    ensures PlacesIn(symbols, SortSpans(Places(symbols)))
  {
    var places, s := Places(symbols), SortSpans(Places(symbols));
    SortKeepsDistinct((a: Spanned<nat>, b: Spanned<nat>) => Precedes(a, b), places);
    forall i | 0 <= i < |s| ensures s[i].item < |symbols| {
      assert s[i] in multiset(s);
      assert s[i] in places;
    }
  }

  /** The symbols `ns`, with everything below them, are the forest `f` of places. */
  ghost predicate Shows(symbols: seq<Symbol>, ns: seq<Symbol>, f: seq<Tree<nat>>)
    reads symbols
    decreases f
  {
    && |ns| == |f|
    && forall i :: 0 <= i < |ns| ==>
      && f[i].item < |symbols| && ns[i] == symbols[f[i].item]
      && Shows(symbols, symbols[f[i].item].children, f[i].children)
  }

  /** The symbols at the listed places of the sorted order. */
  ghost function At(symbols: seq<Symbol>, s: Spans, ks: seq<nat>): (r: seq<Symbol>)
    requires PlacesIn(symbols, s) && Below(ks, |s|)
  {
    seq(|ks|, x requires 0 <= x < |ks| => symbols[s[ks[x]].item])
  }

  /** What each symbol holds, in sorted order. */
  ghost function Held(symbols: seq<Symbol>, s: Spans): (held: seq<seq<Symbol>>)
    requires PlacesIn(symbols, s)
    reads symbols
    ensures |held| == |s|
  {
    seq(|s|, p requires 0 <= p < |s| reads symbols => symbols[s[p].item].children)
  }

  /** Symbol `p` of the sorted order holds the children it has among the first `i`. */
  ghost predicate Holds(symbols: seq<Symbol>, s: Spans, i: nat, p: nat, children: seq<Symbol>)
    requires PlacesIn(symbols, s) && i <= |s|
  {
    Below(Kids(s, |s|, p, i), |s|) && children == At(symbols, s, Kids(s, |s|, p, i))
  }

  /** So does each of the first `i`. */
  ghost predicate AllHold(symbols: seq<Symbol>, s: Spans, i: nat, held: seq<seq<Symbol>>)
    requires PlacesIn(symbols, s) && i <= |s|
  {
    |held| == |s| && forall p :: 0 <= p < i ==> Holds(symbols, s, i, p, held[p])
  }

  ghost predicate AreRoots(symbols: seq<Symbol>, s: Spans, i: nat, roots: seq<Symbol>)
    requires PlacesIn(symbols, s) && i <= |s|
  {
    Below(Kids(s, |s|, -1, i), |s|) && roots == At(symbols, s, Kids(s, |s|, -1, i))
  }

  lemma {:induction false} NodeShows(symbols: seq<Symbol>, s: Spans, k: nat)
    requires PlacesIn(symbols, s) && k < |s| && AllHold(symbols, s, |s|, Held(symbols, s))
    ensures Shows(symbols, symbols[s[k].item].children, NestedTree(s, |s|, k).children)
    decreases |s| - k
  {
    var ks := Kids(s, |s|, k, |s|);
    KidsFacts(s, |s|, k, |s|);
    KidsMakeForest(s, |s|, k);
    assert Holds(symbols, s, |s|, k, Held(symbols, s)[k]);
    forall x | 0 <= x < |ks|
      ensures Shows(symbols, symbols[s[ks[x]].item].children, NestedTree(s, |s|, ks[x]).children)
    {
      assert ks[x] in ks;
      NodeShows(symbols, s, ks[x]);
    }
    assert NestedTree(s, |s|, k).children == Trees(s, |s|, ks);
  }

  lemma {:induction false} RootsShow(symbols: seq<Symbol>, s: Spans, roots: seq<Symbol>)
    requires PlacesIn(symbols, s) && AllHold(symbols, s, |s|, Held(symbols, s)) && AreRoots(symbols, s, |s|, roots)
    ensures Shows(symbols, roots, Outlined(s, |s|))
  {
    var ks := Kids(s, |s|, -1, |s|);
    KidsAreNested(s, |s|, -1, |s|);
    assert Outlined(s, |s|) == Trees(s, |s|, ks);
    forall x | 0 <= x < |ks|
      ensures Shows(symbols, symbols[s[ks[x]].item].children, NestedTree(s, |s|, ks[x]).children)
    {
      NodeShows(symbols, s, ks[x]);
    }
  }

  /** Distinct symbols show one forest at most. */
  lemma {:induction false} ShownOnce(symbols: seq<Symbol>, ns: seq<Symbol>, f: seq<Tree<nat>>, g: seq<Tree<nat>>)
    requires AreDistinct(symbols) && Shows(symbols, ns, f) && Shows(symbols, ns, g)
    ensures f == g
    decreases f
  {
    forall i | 0 <= i < |ns| ensures f[i] == g[i] {
      assert f[i].item == g[i].item;
      ShownOnce(symbols, symbols[f[i].item].children, f[i].children, g[i].children);
    }
  }

  /** The bounded form is this one cut off: whatever forest the objects show once `NestSymbols` is
      done, the outline `Nest` builds of the same symbols under a bound is that forest cut. */
  lemma {:induction false} BoundedIsCutOff(symbols: seq<Symbol>, roots: seq<Symbol>, f: seq<Tree<nat>>, bound: nat)
    requires AreDistinct(symbols) && Shows(symbols, roots, Outlined(SortSpans(Places(symbols)), |symbols|))
    requires Shows(symbols, roots, f)
    ensures Outlined(SortSpans(Places(symbols)), bound) == Cut(f, bound)
  {
    ShownOnce(symbols, roots, f, Outlined(SortSpans(Places(symbols)), |symbols|));
    BoundIsTruncation(SortSpans(Places(symbols)), bound);
  }

  /** No symbol up to its own place has it as parent. */
  lemma {:induction false} NoKidsYet(s: Spans, p: nat, i: nat)
    requires i <= p + 1 && i <= |s|
    ensures Kids(s, |s|, p, i) == []
  {
    if i > 0 { NoKidsYet(s, p, i - 1); }
  }

  /** What the symbols hold once symbol `i` is placed. */
  ghost function WithPlaced(symbols: seq<Symbol>, s: Spans, i: nat, held: seq<seq<Symbol>>): seq<seq<Symbol>>
    requires PlacesIn(symbols, s) && i < |s| == |held|
  {
    var cleared := held[i := []];
    var p := Parent(s, i);
    if p < 0 then cleared else cleared[p := cleared[p] + [symbols[s[i].item]]]
  }

  /** What symbol `i` adds to the children of symbol `p`. */
  ghost function Added(symbols: seq<Symbol>, s: Spans, i: nat, p: int): seq<Symbol>
    requires PlacesIn(symbols, s) && i < |s|
  {
    if Parent(s, i) == p then [symbols[s[i].item]] else []
  }

  lemma {:induction false} WithPlacedAt(symbols: seq<Symbol>, s: Spans, i: nat, held: seq<seq<Symbol>>, p: nat)
    requires PlacesIn(symbols, s) && p <= i < |s| == |held|
    ensures WithPlaced(symbols, s, i, held)[p] == if p == i then [] else held[p] + Added(symbols, s, i, p)
  {
  }

  lemma {:induction false} HoldsNothing(symbols: seq<Symbol>, s: Spans, i: nat)
    requires PlacesIn(symbols, s) && i < |s|
    ensures Holds(symbols, s, i + 1, i, [])
  {
    NoKidsYet(s, i, i + 1);
  }

  lemma {:induction false} HoldsOneMore(symbols: seq<Symbol>, s: Spans, i: nat, p: nat, children: seq<Symbol>)
    requires PlacesIn(symbols, s) && p < i < |s| && Depth(s, i) < |s| && Holds(symbols, s, i, p, children)
    ensures Holds(symbols, s, i + 1, p, children + Added(symbols, s, i, p))
  {
    KidsFacts(s, |s|, p, i + 1);
  }

  lemma {:induction false} PlacedHolds(symbols: seq<Symbol>, s: Spans, i: nat, held: seq<seq<Symbol>>, p: nat)
    requires PlacesIn(symbols, s) && i < |s| && Depth(s, i) < |s| && p <= i && AllHold(symbols, s, i, held)
    ensures Holds(symbols, s, i + 1, p, WithPlaced(symbols, s, i, held)[p])
  {
    if p == i {
      HoldsNothing(symbols, s, i);
    } else {
      HoldsOneMore(symbols, s, i, p, held[p]);
    }
    WithPlacedAt(symbols, s, i, held, p);
  }

  lemma {:induction false} AllPlacedHold(symbols: seq<Symbol>, s: Spans, i: nat, held: seq<seq<Symbol>>)
    requires PlacesIn(symbols, s) && i < |s| && Depth(s, i) < |s| && AllHold(symbols, s, i, held)
    ensures AllHold(symbols, s, i + 1, WithPlaced(symbols, s, i, held))
  {
    forall p: nat | p < i + 1
      ensures Holds(symbols, s, i + 1, p, WithPlaced(symbols, s, i, held)[p])
    {
      PlacedHolds(symbols, s, i, held, p);
    }
  }

  lemma {:induction false} RootPlaced(symbols: seq<Symbol>, s: Spans, i: nat, roots: seq<Symbol>)
    requires PlacesIn(symbols, s) && i < |s| && Depth(s, i) < |s| && AreRoots(symbols, s, i, roots)
    ensures AreRoots(symbols, s, i + 1, if Parent(s, i) < 0 then roots + [symbols[s[i].item]] else roots)
  {
    KidsFacts(s, |s|, -1, i + 1);
  }

  /** Sort, then push each symbol into the children of the nearest open symbol that contains it,
      or among the roots: in place, and never cut off. */
  method NestSymbols(symbols: seq<Symbol>) returns (roots: seq<Symbol>)
    requires AreDistinct(symbols)
    modifies symbols
    ensures Shows(symbols, roots, Outlined(SortSpans(Places(symbols)), |symbols|))
  {
    var s := SortSpans(Places(symbols));
    SortSpansOrders(Places(symbols));
    SortedPlaces(symbols);
    roots := [];
    var stack: seq<nat> := [];
    var n := |s|;
    for i := 0 to n
      invariant Walked(symbols, s, i, stack, roots)
    {
      DepthBelowIndex(s, i);
      stack, roots := Place(symbols, s, i, stack, roots);
    }
    RootsShow(symbols, s, roots);
  }

  /** Where the walk stands before symbol `i`: the stack, and what every symbol so far holds. */
  ghost predicate Walked(symbols: seq<Symbol>, s: Spans, i: nat, stack: seq<nat>, roots: seq<Symbol>)
    reads symbols
  {
    && InOrder(s) && PlacesIn(symbols, s) && i <= |s|
    && IsStack(s, |s|, i, stack) && AllHold(symbols, s, i, Held(symbols, s)) && AreRoots(symbols, s, i, roots)
  }

  /** One turn of the walk. */
  method Place(symbols: seq<Symbol>, s: Spans, i: nat, stack: seq<nat>, roots: seq<Symbol>)
    returns (stack': seq<nat>, roots': seq<Symbol>)
    requires i < |s| && Depth(s, i) < |s| && Walked(symbols, s, i, stack, roots)
    modifies symbols
    ensures Walked(symbols, s, i + 1, stack', roots')
  {
    ghost var held := Held(symbols, s);
    var symbol := symbols[s[i].item];
    symbol.children := [];
    assert Held(symbols, s) == held[i := []];
    stack' := PopTo(s, |s|, i, stack);
    IsStackStep(s, |s|, i, stack');
    if stack' != [] {
      ParentTopsStack(s, i);
      var parent := symbols[s[stack'[|stack'| - 1]].item];
      parent.children := parent.children + [symbol];
      roots' := roots;
    } else {
      roots' := roots + [symbol];
    }
    stack' := stack' + [i];
    assert Held(symbols, s) == WithPlaced(symbols, s, i, held);
    AllPlacedHold(symbols, s, i, held);
    RootPlaced(symbols, s, i, roots);
  }
}
