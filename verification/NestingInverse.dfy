/** Nesting undoes flattening: the spans of a strictly nested forest, in any order, nest back
    into that forest. */
module NestingInverse {
  import opened Forest
  import opened Nesting
  import Sorting

  function ItemOf<T>(s: Spanned<T>): T {
    s.item
  }

  /** The forest with its spans dropped. */
  ghost function Items<T>(f: seq<Tree<Spanned<T>>>): seq<Tree<T>> {
    Mapped(ItemOf<T>, f)
  }

  predicate StrictlyInside<T>(inner: Spanned<T>, outer: Spanned<T>) {
    Contains(outer, inner) && (outer.start, outer.end) != (inner.start, inner.end)
  }

  /** Every child lies strictly inside its parent, and siblings are disjoint and in order. */
  ghost predicate NestsStrictly<T>(f: seq<Tree<Spanned<T>>>) {
    f != [] ==>
      && f[0].item.start <= f[0].item.end
      && (forall k :: 0 <= k < |f[0].children| ==> StrictlyInside(f[0].children[k].item, f[0].item))
      && NestsStrictly(f[0].children)
      && (|f| > 1 ==> f[0].item.end < f[1].item.start)
      && NestsStrictly(f[1..])
  }

  ghost predicate AllFrom<T>(s: seq<Spanned<T>>, lo: nat) {
    forall k :: 0 <= k < |s| ==> lo <= s[k].start <= s[k].end
  }

  ghost predicate AllInside<T>(s: seq<Spanned<T>>, outer: Spanned<T>) {
    forall k :: 0 <= k < |s| ==> StrictlyInside(s[k], outer)
  }

  lemma {:induction false} SpansFrom<T>(f: seq<Tree<Spanned<T>>>, lo: nat)
    requires NestsStrictly(f) && (f != [] ==> lo <= f[0].item.start)
    ensures AllFrom(Preorder(f), lo)
  {
    if f != [] {
      SpansFrom(f[0].children, if f[0].children == [] then lo else f[0].children[0].item.start);
      SpansFrom(f[1..], lo);
    }
  }

  lemma {:induction false} SpansInside<T>(f: seq<Tree<Spanned<T>>>, outer: Spanned<T>)
    requires NestsStrictly(f)
    requires forall k :: 0 <= k < |f| ==> StrictlyInside(f[k].item, outer)
    ensures AllInside(Preorder(f), outer)
  {
    if f != [] {
      assert StrictlyInside(f[0].item, outer);
      SpansInside(f[0].children, f[0].item);
      SpansInside(f[0].children, outer);
      SpansInside(f[1..], outer);
    }
  }

  ghost predicate StrictOrder<T>(s: seq<Spanned<T>>) {
    forall i, j {:trigger s[i], s[j]} :: 0 <= i < j < |s| ==> Precedes(s[i], s[j]) && !Precedes(s[j], s[i])
  }

  lemma {:induction false} StrictOrderJoin<T>(x: Spanned<T>, a: seq<Spanned<T>>, b: seq<Spanned<T>>)
    requires StrictOrder(a) && StrictOrder(b) && AllInside(a, x)
    requires x.start <= x.end && AllFrom(a, 0) && AllFrom(b, x.end + 1)
    ensures StrictOrder([x] + a + b)
  {
  }

  /** Preorder is the sort order, with no ties. */
  lemma {:induction false} PreorderSorted<T>(f: seq<Tree<Spanned<T>>>)
    requires NestsStrictly(f)
    ensures StrictOrder(Preorder(f))
  {
    if f != [] {
      PreorderSorted(f[0].children);
      PreorderSorted(f[1..]);
      SpansInside(f[0].children, f[0].item);
      SpansFrom(f[0].children, if f[0].children == [] then 0 else f[0].children[0].item.start);
      SpansFrom(f[1..], f[0].item.end + 1);
      StrictOrderJoin(f[0].item, Preorder(f[0].children), Preorder(f[1..]));
    }
  }

  /** Whatever order the symbols were closed in, sorting puts them in preorder. */
  lemma {:induction false} SortGivesPreorder<T(!new)>(f: seq<Tree<Spanned<T>>>, symbols: seq<Spanned<T>>)
    requires NestsStrictly(f) && multiset(symbols) == multiset(Preorder(f))
    ensures SortSpans(symbols) == Preorder(f)
  {
    var le := (a: Spanned<T>, b: Spanned<T>) => Precedes(a, b);
    PreorderSorted(f);
    Sorting.StableSortSorts(le, symbols);
    Sorting.StrictIsUnique(le, Preorder(f), Sorting.StableSort(le, symbols));
  }

  lemma {:induction false} ParentIs<T>(s: seq<Spanned<T>>, i: nat, p: int)
    requires i < |s| && -1 <= p < i && s[i].start <= s[i].end
    requires p >= 0 ==> Contains(s[p], s[i])
    requires forall j :: p < j < i ==> s[j].end < s[i].start
    ensures Parent(s, i) == p
  {
  }

  /** `t` stands in `s` from index `off`. */
  ghost predicate At<T>(s: seq<Spanned<T>>, off: nat, t: seq<Spanned<T>>) {
    off + |t| <= |s| && forall k :: off <= k < off + |t| ==> s[k] == t[k - off]
  }

  lemma {:induction false} AtParts<T>(
    s: seq<Spanned<T>>, off: nat, x: Spanned<T>, a: seq<Spanned<T>>, b: seq<Spanned<T>>)
    requires At(s, off, [x] + a + b)
    ensures off < |s| && s[off] == x && At(s, off + 1, a) && At(s, off + 1 + |a|, b)
  {
    assert ([x] + a + b)[0] == x;
    forall k | off + 1 <= k < off + 1 + |a| ensures s[k] == a[k - off - 1] {
      assert ([x] + a + b)[k - off] == a[k - off - 1];
    }
    forall k | off + 1 + |a| <= k < off + 1 + |a| + |b| ensures s[k] == b[k - off - 1 - |a|] {
      assert ([x] + a + b)[k - off] == b[k - off - 1 - |a|];
    }
  }

  /** Everything in `s` strictly between `p` and `off` ends before `start`. */
  ghost predicate EndsBefore<T>(s: seq<Spanned<T>>, p: int, off: nat, start: nat)
    requires off <= |s|
  {
    forall j :: 0 <= j && p < j < off ==> s[j].end < start
  }

  /** Where the preorder of `f` stands in `s`: from `off`, under the symbol at `p`, with nothing
      between the two that reaches it. */
  ghost predicate Placed<T>(s: seq<Spanned<T>>, f: seq<Tree<Spanned<T>>>, off: nat, p: int, d: nat) {
    && At(s, off, Preorder(f))
    && -1 <= p < off && d == (if p < 0 then 0 else Depth(s, p) + 1)
    && (p >= 0 ==> forall k :: 0 <= k < |f| ==> Contains(s[p], f[k].item))
    && (f != [] ==> EndsBefore(s, p, off, f[0].item.start))
  }

  lemma {:induction false} PlacedChildren<T>(s: seq<Spanned<T>>, f: seq<Tree<Spanned<T>>>, off: nat, p: int, d: nat)
    requires NestsStrictly(f) && f != [] && Placed(s, f, off, p, d)
    ensures s[off] == f[0].item && Parent(s, off) == p && Depth(s, off) == d
    ensures Placed(s, f[0].children, off + 1, off, d + 1)
  {
    AtParts(s, off, f[0].item, Preorder(f[0].children), Preorder(f[1..]));
    assert p >= 0 ==> Contains(s[p], f[0].item);
    ParentIs(s, off, p);
  }

  lemma {:induction false} EndsBeforeRest<T>(
    s: seq<Spanned<T>>, p: int, off: nat, x: Spanned<T>, a: seq<Spanned<T>>, start: nat)
    requires off < |s| && s[off] == x && At(s, off + 1, a) && AllInside(a, x)
    requires x.start <= x.end < start && EndsBefore(s, p, off, x.start)
    ensures EndsBefore(s, p, off + 1 + |a|, start)
  {
    forall j | 0 <= j && p < j < off + 1 + |a| ensures s[j].end < start {
      if j > off {
        assert StrictlyInside(a[j - off - 1], x);
      }
    }
  }

  lemma {:induction false} PlacedRest<T>(s: seq<Spanned<T>>, f: seq<Tree<Spanned<T>>>, off: nat, p: int, d: nat)
    requires NestsStrictly(f) && f != [] && Placed(s, f, off, p, d)
    ensures Placed(s, f[1..], off + 1 + |Preorder(f[0].children)|, p, d)
  {
    AtParts(s, off, f[0].item, Preorder(f[0].children), Preorder(f[1..]));
    SpansInside(f[0].children, f[0].item);
    if f[1..] != [] {
      EndsBeforeRest(s, p, off, f[0].item, Preorder(f[0].children), f[1].item.start);
    }
  }

  lemma {:induction false} KeptStep<T>(s: seq<Spanned<T>>, bound: nat, i: nat)
    requires i < |s| && Depth(s, i) < bound
    ensures KeptFrom(s, bound, i) == [(s[i].item, Depth(s, i))] + KeptFrom(s, bound, i + 1)
  {
  }

  lemma {:induction false} Chained<T>(
    a: seq<T>, b: seq<T>, c: seq<T>, whole: seq<T>, afterA: seq<T>, afterB: seq<T>, afterC: seq<T>)
    requires whole == a + afterA && afterA == b + afterB && afterB == c + afterC
    ensures whole == a + b + c + afterC
  {
  }

  lemma {:induction false} KeptJoin<T>(
    s: seq<Spanned<T>>, bound: nat, f: seq<Tree<Spanned<T>>>, off: nat, mid: nat, end: nat, d: nat)
    requires f != [] && off < mid <= end <= |s| && s[off] == f[0].item && Depth(s, off) == d < bound
    requires KeptFrom(s, bound, off + 1) == Flatten(Items(f[0].children), d + 1) + KeptFrom(s, bound, mid)
    requires KeptFrom(s, bound, mid) == Flatten(Items(f[1..]), d) + KeptFrom(s, bound, end)
    ensures KeptFrom(s, bound, off) == Flatten(Items(f), d) + KeptFrom(s, bound, end)
  {
    ItemsParts(f, d);
    KeptStep(s, bound, off);
    Chained([(f[0].item.item, d)], Flatten(Items(f[0].children), d + 1), Flatten(Items(f[1..]), d),
            KeptFrom(s, bound, off), KeptFrom(s, bound, off + 1), KeptFrom(s, bound, mid), KeptFrom(s, bound, end));
  }

  lemma {:induction false} KeptOfChildren<T>(
    s: seq<Spanned<T>>, bound: nat, f: seq<Tree<Spanned<T>>>, off: nat, p: int, d: nat)
    requires f != [] && NestsStrictly(f) && Placed(s, f, off, p, d) && d + Height(Items(f)) <= bound
    ensures s[off] == f[0].item && Depth(s, off) == d < bound
    ensures off + 1 + |Preorder(f[0].children)| <= |s|
    ensures KeptFrom(s, bound, off + 1) ==
      Flatten(Items(f[0].children), d + 1) + KeptFrom(s, bound, off + 1 + |Preorder(f[0].children)|)
    decreases f, 0
  {
    ItemsParts(f, d);
    PlacedChildren(s, f, off, p, d);
    KeptIsFlattened(s, bound, f[0].children, off + 1, off, d + 1);
  }

  lemma {:induction false} KeptOfRest<T>(
    s: seq<Spanned<T>>, bound: nat, f: seq<Tree<Spanned<T>>>, off: nat, p: int, d: nat)
    requires f != [] && NestsStrictly(f) && Placed(s, f, off, p, d) && d + Height(Items(f)) <= bound
    ensures off + 1 + |Preorder(f[0].children)| <= off + |Preorder(f)| <= |s|
    ensures KeptFrom(s, bound, off + 1 + |Preorder(f[0].children)|) ==
      Flatten(Items(f[1..]), d) + KeptFrom(s, bound, off + |Preorder(f)|)
    decreases f, 0
  {
    ItemsParts(f, d);
    PlacedRest(s, f, off, p, d);
    KeptIsFlattened(s, bound, f[1..], off + 1 + |Preorder(f[0].children)|, p, d);
  }

  lemma {:induction false} KeptIsFlattened<T>(
    s: seq<Spanned<T>>, bound: nat, f: seq<Tree<Spanned<T>>>, off: nat, p: int, d: nat)
    requires NestsStrictly(f) && Placed(s, f, off, p, d) && d + Height(Items(f)) <= bound
    ensures off + |Preorder(f)| <= |s|
    ensures KeptFrom(s, bound, off) == Flatten(Items(f), d) + KeptFrom(s, bound, off + |Preorder(f)|)
    decreases f, 1
  {
    if f != [] {
      KeptOfChildren(s, bound, f, off, p, d);
      KeptOfRest(s, bound, f, off, p, d);
      KeptJoin(s, bound, f, off, off + 1 + |Preorder(f[0].children)|, off + |Preorder(f)|, d);
    }
  }

  lemma {:induction false} ItemsParts<T>(f: seq<Tree<Spanned<T>>>, d: nat)
    requires f != []
    ensures |Preorder(f)| == 1 + |Preorder(f[0].children)| + |Preorder(f[1..])|
    ensures 1 + Height(Items(f[0].children)) <= Height(Items(f)) && Height(Items(f[1..])) <= Height(Items(f))
    ensures Flatten(Items(f), d) ==
      [(f[0].item.item, d)] + Flatten(Items(f[0].children), d + 1) + Flatten(Items(f[1..]), d)
  {
    MappedParts(ItemOf<T>, f);
  }

  /** The left inverse: a strictly nested forest, flattened into its spans in any order, nests back
      into itself, cut off below the bound. */
  lemma {:induction false} NestInvertsFlattening<T(
    !new)>(f: seq<Tree<Spanned<T>>>, symbols: seq<Spanned<T>>, bound: nat)
    requires NestsStrictly(f) && multiset(symbols) == multiset(Preorder(f))
    ensures Outlined(SortSpans(symbols), bound) == Cut(Items(f), bound)
  {
    var s := SortSpans(symbols);
    assert |s| == |multiset(s)| == |multiset(Preorder(f))| == |Preorder(f)|;
    HeightMapped(ItemOf<T>, f);
    HeightIsSmall(f);
    NestInvertsWhole(f, symbols, |s|);
    BoundIsTruncation(s, bound);
  }

  /** A forest has no more levels than nodes. */
  lemma {:induction false} HeightIsSmall<T>(f: seq<Tree<T>>)
    ensures Height(f) <= |Preorder(f)|
  {
    if f != [] {
      HeightIsSmall(f[0].children);
      HeightIsSmall(f[1..]);
    }
  }

  lemma {:induction false} NestInvertsWhole<T(!new)>(f: seq<Tree<Spanned<T>>>, symbols: seq<Spanned<T>>, bound: nat)
    requires NestsStrictly(f) && multiset(symbols) == multiset(Preorder(f))
    requires Height(Items(f)) <= bound
    ensures Outlined(SortSpans(symbols), bound) == Items(f)
  {
    SortSpansOrders(symbols);
    SortGivesPreorder(f, symbols);
    FlattenedListing(f, bound);
    PreorderIsSortedOrder(Preorder(f), bound);
    FlattenInjective(Outlined(Preorder(f), bound), Items(f), 0);
  }

  lemma {:induction false} FlattenedListing<T>(f: seq<Tree<Spanned<T>>>, bound: nat)
    requires NestsStrictly(f) && Height(Items(f)) <= bound
    ensures KeptFrom(Preorder(f), bound, 0) == Flatten(Items(f), 0)
  {
    var s := Preorder(f);
    assert Placed(s, f, 0, -1, 0);
    KeptIsFlattened(s, bound, f, 0, -1, 0);
    assert KeptFrom(s, bound, |s|) == [];
  }
}
