/** Ordered trees, the shape of a document outline, and what determines one: its preorder
    listing with depths. */
module Forest {

  datatype Tree<T> = Tree(item: T, children: seq<Tree<T>>)

  /** Every node in preorder with its depth, the roots being at depth `d`. */
  function Flatten<T>(f: seq<Tree<T>>, d: nat): seq<(T, nat)> {
    if f == [] then []
    else [(f[0].item, d)] + Flatten(f[0].children, d + 1) + Flatten(f[1..], d)
  }

  /** The forest with everything below its top `levels` levels removed. */
  function Cut<T>(f: seq<Tree<T>>, levels: nat): seq<Tree<T>> {
    if f == [] || levels == 0 then []
    else [Tree(f[0].item, Cut(f[0].children, levels - 1))] + Cut(f[1..], levels)
  }

  /** How many levels the forest has. */
  function Height<T>(f: seq<Tree<T>>): nat {
    if f == [] then 0
    else
      var first, rest := 1 + Height(f[0].children), Height(f[1..]);
      if first < rest then rest else first
  }

  ghost predicate AllAtLeast<T>(s: seq<(T, nat)>, d: nat) {
    forall i :: 0 <= i < |s| ==> s[i].1 >= d
  }

  lemma {:induction false} FlattenDepths<T>(f: seq<Tree<T>>, d: nat)
    ensures AllAtLeast(Flatten(f, d), d)
    ensures f != [] ==> Flatten(f, d) != [] && Flatten(f, d)[0] == (f[0].item, d)
  {
    if f != [] {
      FlattenDepths(f[0].children, d + 1);
      FlattenDepths(f[1..], d);
    }
  }

  /** Two splits of one list agree when both cut it, after its head, before the first element
      at depth `d`. */
  lemma {:induction false} SplitAtDepth<T>(
    x: T, a: seq<(T, nat)>, b: seq<(T, nat)>, y: T, a': seq<(T, nat)>, b': seq<(T, nat)>, d: nat)
    requires [(x, d)] + a + b == [(y, d)] + a' + b'
    requires AllAtLeast(a, d + 1) && AllAtLeast(a', d + 1)
    requires (b != [] ==> b[0].1 == d) && (b' != [] ==> b'[0].1 == d)
    ensures x == y && a == a' && b == b'
  {
    var s, s' := [(x, d)] + a + b, [(y, d)] + a' + b';
    assert s[0] == (x, d) && s'[0] == (y, d);
    assert s[1..] == a + b && s'[1..] == a' + b';
    SplitTail(a, b, a', b', d);
  }

  lemma {:induction false} SplitTail<T>(
    a: seq<(T, nat)>, b: seq<(T, nat)>, a': seq<(T, nat)>, b': seq<(T, nat)>, d: nat)
    requires a + b == a' + b'
    requires AllAtLeast(a, d + 1) && AllAtLeast(a', d + 1)
    requires (b != [] ==> b[0].1 == d) && (b' != [] ==> b'[0].1 == d)
    ensures a == a' && b == b'
  {
    assert a == (a + b)[..|a|] && a' == (a' + b')[..|a'|];
    assert b == (a + b)[|a|..] && b' == (a' + b')[|a'|..];
  }

  /** A forest is determined by its preorder listing with depths. */
  lemma {:induction false} FlattenInjective<T>(f: seq<Tree<T>>, g: seq<Tree<T>>, d: nat)
    requires Flatten(f, d) == Flatten(g, d)
    ensures f == g
  {
    FlattenDepths(f, d);
    FlattenDepths(g, d);
    if f != [] && g != [] {
      FlattenDepths(f[0].children, d + 1);
      FlattenDepths(g[0].children, d + 1);
      FlattenDepths(f[1..], d);
      FlattenDepths(g[1..], d);
      SplitAtDepth(f[0].item, Flatten(f[0].children, d + 1), Flatten(f[1..], d),
                   g[0].item, Flatten(g[0].children, d + 1), Flatten(g[1..], d), d);
      FlattenInjective(f[0].children, g[0].children, d + 1);
      FlattenInjective(f[1..], g[1..], d);
      assert f == [f[0]] + f[1..] && g == [g[0]] + g[1..];
    }
  }

  /** A forest no higher than the cut is left whole. */
  lemma {:induction false} CutWhole<T>(f: seq<Tree<T>>, levels: nat)
    requires Height(f) <= levels
    ensures Cut(f, levels) == f
  {
    if f != [] {
      CutWhole(f[0].children, levels - 1);
      CutWhole(f[1..], levels);
      assert f == [f[0]] + f[1..];
    }
  }

  /** The forest with `g` applied to every node. */
  ghost function Mapped<T, U>(g: T -> U, f: seq<Tree<T>>): seq<Tree<U>> {
    if f == [] then [] else [Tree(g(f[0].item), Mapped(g, f[0].children))] + Mapped(g, f[1..])
  }

  /** The nodes in preorder. */
  ghost function Preorder<T>(f: seq<Tree<T>>): seq<T> {
    if f == [] then [] else [f[0].item] + Preorder(f[0].children) + Preorder(f[1..])
  }

  function MapSeq<T, U>(g: T -> U, s: seq<T>): (r: seq<U>)
    ensures |r| == |s| && forall i :: 0 <= i < |s| ==> r[i] == g(s[i])
  {
    seq(|s|, i requires 0 <= i < |s| => g(s[i]))
  }

  lemma {:induction false} MappedParts<T, U>(g: T -> U, f: seq<Tree<T>>)
    requires f != []
    ensures |Mapped(g, f)| > 0 && Mapped(g, f)[0] == Tree(g(f[0].item), Mapped(g, f[0].children))
    ensures Mapped(g, f)[1..] == Mapped(g, f[1..])
  {
  }

  lemma {:induction false} MappedAt<T, U>(g: T -> U, f: seq<Tree<T>>, k: nat)
    requires k < |f|
    ensures |Mapped(g, f)| == |f| && Mapped(g, f)[k] == Tree(g(f[k].item), Mapped(g, f[k].children))
  {
    MappedParts(g, f);
    if |f| > 1 { MappedAt(g, f[1..], if k > 0 then k - 1 else 0); }
  }

  lemma {:induction false} MapJoin<T, U>(g: T -> U, x: T, a: seq<T>, b: seq<T>)
    ensures MapSeq(g, [x] + a + b) == [g(x)] + MapSeq(g, a) + MapSeq(g, b)
  {
  }

  lemma {:induction false} PreorderMapped<T, U>(g: T -> U, f: seq<Tree<T>>)
    ensures Preorder(Mapped(g, f)) == MapSeq(g, Preorder(f))
  {
    if f != [] {
      PreorderMapped(g, f[0].children);
      PreorderMapped(g, f[1..]);
      MappedParts(g, f);
      MapJoin(g, f[0].item, Preorder(f[0].children), Preorder(f[1..]));
    }
  }

  lemma {:induction false} HeightMapped<T, U>(g: T -> U, f: seq<Tree<T>>)
    ensures Height(Mapped(g, f)) == Height(f)
  {
    if f != [] {
      HeightMapped(g, f[0].children);
      HeightMapped(g, f[1..]);
      MappedParts(g, f);
    }
  }

  lemma {:induction false} MappedTwice<T(!new), U, V>(g: T -> U, h: U -> V, gh: T -> V, f: seq<Tree<T>>)
    requires forall x :: gh(x) == h(g(x))
    ensures Mapped(h, Mapped(g, f)) == Mapped(gh, f)
  {
    if f != [] {
      MappedTwice(g, h, gh, f[0].children);
      MappedTwice(g, h, gh, f[1..]);
      MappedParts(g, f);
    }
  }
}
