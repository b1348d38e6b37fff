/** Nesting spans by containment (rs/src/outline.rs, `nest`).

    What the nested outline is said without a stack: in sorted order, each symbol's parent is
    the last earlier symbol whose span contains it. The stack walk, its depth bound and the
    reverse assembly are then proved to build exactly the forest that says. Spans are arbitrary:
    they may cross, repeat or be empty. */
module Nesting {
  import opened Wrappers
  import opened Forest
  import Sorting

  /** What is nested, and the span that decides where. */
  datatype Spanned<T> = Spanned(item: T, start: nat, end: nat)

  predicate Contains<T>(outer: Spanned<T>, inner: Spanned<T>) {
    outer.start <= inner.start && inner.end <= outer.end
  }

  /** The sort order: by start, the wider span first on ties. */
  predicate Precedes<T>(a: Spanned<T>, b: Spanned<T>) {
    a.start < b.start || (a.start == b.start && b.end <= a.end)
  }

  ghost predicate InOrder<T>(s: seq<Spanned<T>>) {
    forall i, j {:trigger Precedes(s[i], s[j])} :: 0 <= i < j < |s| ==> Precedes(s[i], s[j])
  }

  function SortSpans<T>(s: seq<Spanned<T>>): (r: seq<Spanned<T>>)
    ensures multiset(r) == multiset(s)
  {
    Sorting.StableSort((a: Spanned<T>, b: Spanned<T>) => Precedes(a, b), s)
  }

  lemma {:induction false} SortSpansOrders<T(!new)>(s: seq<Spanned<T>>)
    ensures InOrder(SortSpans(s))
  {
    var le := (a: Spanned<T>, b: Spanned<T>) => Precedes(a, b);
    Sorting.StableSortSorts(le, s);
    var r := SortSpans(s);
    forall i, j | 0 <= i < j < |r| ensures Precedes(r[i], r[j]) {
      assert le(r[i], r[j]);
    }
  }

  /** The last of the first `n` symbols whose span contains symbol `i`'s; -1 when none does. */
  function LastContaining<T>(s: seq<Spanned<T>>, i: nat, n: nat): (p: int)
    requires n <= i < |s|
    ensures -1 <= p < n
    ensures p >= 0 ==> Contains(s[p], s[i])
    ensures forall j {:trigger Contains(s[j], s[i])} :: p < j < n ==> !Contains(s[j], s[i])
  {
    if n == 0 then -1
    else if Contains(s[n - 1], s[i]) then n - 1
    else LastContaining(s, i, n - 1)
  }

  function Parent<T>(s: seq<Spanned<T>>, i: nat): (p: int)
    requires i < |s|
    ensures -1 <= p < i
    ensures p >= 0 ==> Contains(s[p], s[i])
    ensures forall j {:trigger Contains(s[j], s[i])} :: p < j < i ==> !Contains(s[j], s[i])
  {
    LastContaining(s, i, i)
  }

  /** How many ancestors symbol `i` has. */
  function Depth<T>(s: seq<Spanned<T>>, i: nat): nat
    requires i < |s|
    decreases i
  {
    if Parent(s, i) < 0 then 0 else 1 + Depth(s, Parent(s, i))
  }

  /** The trees of the symbols from `j` on whose parent is `p`, no level at `bound` or below. */
  ghost function Nested<T>(s: seq<Spanned<T>>, bound: nat, p: int, j: nat): seq<Tree<T>>
    requires j <= |s|
    decreases |s| - j
  {
    if j == |s| then []
    else if Parent(s, j) == p && Depth(s, j) < bound then
      [NestedTree(s, bound, j)] + Nested(s, bound, p, j + 1)
    else Nested(s, bound, p, j + 1)
  }

  /** Symbol `j` with the symbols it is the parent of inside it. */
  ghost function NestedTree<T>(s: seq<Spanned<T>>, bound: nat, j: nat): Tree<T>
    requires j < |s|
    decreases |s| - j, 0
  {
    Tree(s[j].item, Nested(s, bound, j, j + 1))
  }

  /** The outline of a sorted list: the symbols without a parent, each with its descendants. */
  ghost function Outlined<T>(s: seq<Spanned<T>>, bound: nat): seq<Tree<T>> {
    Nested(s, bound, -1, 0)
  }

  /** The symbols from `j` on that the bound keeps, with their depths, in sorted order. */
  ghost function KeptFrom<T>(s: seq<Spanned<T>>, bound: nat, j: nat): seq<(T, nat)>
    requires j <= |s|
    decreases |s| - j
  {
    if j == |s| then []
    else
      (if Depth(s, j) < bound then [(s[j].item, Depth(s, j))] else []) + KeptFrom(s, bound, j + 1)
  }

  // ---------------------------------------------------------------------------------------
  // The ancestors of a symbol: what the stack holds.

  /** The ancestor of symbol `i` at depth `d`, or `i` itself at its own depth. */
  function Ancestor<T>(s: seq<Spanned<T>>, i: nat, d: nat): nat
    requires i < |s| && d <= Depth(s, i)
    decreases i
  {
    if d == Depth(s, i) then i else Ancestor(s, Parent(s, i), d)
  }

  lemma {:induction false} AncestorFacts<T>(s: seq<Spanned<T>>, i: nat, d: nat)
    requires i < |s| && d <= Depth(s, i)
    ensures Ancestor(s, i, d) <= i && Depth(s, Ancestor(s, i, d)) == d
    ensures Contains(s[Ancestor(s, i, d)], s[i])
    decreases i
  {
    if d < Depth(s, i) { AncestorFacts(s, Parent(s, i), d); }
  }

  lemma {:induction false} AncestorsGrow<T>(s: seq<Spanned<T>>, i: nat, d: nat, e: nat)
    requires i < |s| && d < e <= Depth(s, i)
    ensures Ancestor(s, i, d) < Ancestor(s, i, e)
    decreases i
  {
    if e < Depth(s, i) {
      AncestorsGrow(s, Parent(s, i), d, e);
    } else {
      AncestorFacts(s, Parent(s, i), d);
    }
  }

  /** Between a parent and its child, everything sits under the parent: the ancestors of the
      parent are ancestors of each `q` from it up to the child `i`. Crossing spans included. */
  lemma {:induction false} ParentOnSpine<T>(s: seq<Spanned<T>>, i: nat, q: nat, d: nat)
    requires InOrder(s) && i < |s| && 0 <= Parent(s, i) <= q < i && d <= Depth(s, Parent(s, i))
    ensures Depth(s, q) >= d && Ancestor(s, q, d) == Ancestor(s, Parent(s, i), d)
    ensures q > Parent(s, i) ==> Parent(s, q) >= Parent(s, i) && Depth(s, q) > d
    decreases q
  {
    var p := Parent(s, i);
    if q > p {
      assert Precedes(s[p], s[q]) && Precedes(s[q], s[i]);
      assert !Contains(s[q], s[i]);
      assert Contains(s[p], s[q]);
      ParentOnSpine(s, i, Parent(s, q), d);
    }
  }

  /** Depth grows by at most one from a symbol to the next. */
  lemma {:induction false} DepthStep<T>(s: seq<Spanned<T>>, i: nat)
    requires InOrder(s) && i + 1 < |s|
    ensures Depth(s, i + 1) <= Depth(s, i) + 1
  {
    if Parent(s, i + 1) >= 0 {
      ParentOnSpine(s, i + 1, i, Depth(s, Parent(s, i + 1)));
    }
  }

  /** The stack step: of symbol `i`'s predecessor and its ancestors, exactly the first
      `Depth(i + 1)` contain the next symbol, and they are its ancestors. */
  lemma {:induction false} StackStep<T>(s: seq<Spanned<T>>, i: nat, d: nat)
    requires InOrder(s) && i + 1 < |s| && d <= Depth(s, i)
    ensures Ancestor(s, i, d) <= i
    ensures Contains(s[Ancestor(s, i, d)], s[i + 1]) <==> d < Depth(s, i + 1)
    ensures d < Depth(s, i + 1) ==> Ancestor(s, i + 1, d) == Ancestor(s, i, d)
  {
    var p := Parent(s, i + 1);
    AncestorFacts(s, i, d);
    if d < Depth(s, i + 1) {
      ParentOnSpine(s, i + 1, i, d);
      AncestorFacts(s, i + 1, d);
    } else if p >= 0 {
      var e := Depth(s, p);
      ParentOnSpine(s, i + 1, i, e);
      AncestorsGrow(s, i, e, d);
    }
  }

  // ---------------------------------------------------------------------------------------
  // The walk and the assembly.

  /** The kept symbols before `n` whose parent is `p`, in order. */
  ghost function Kids<T>(s: seq<Spanned<T>>, bound: nat, p: int, n: nat): seq<nat>
    requires n <= |s|
  {
    if n == 0 then []
    else
      Kids(s, bound, p, n - 1) +
      if Parent(s, n - 1) == p && Depth(s, n - 1) < bound then [n - 1] else []
  }

  ghost predicate Below(ks: seq<nat>, n: nat) {
    forall x :: 0 <= x < |ks| ==> ks[x] < n
  }

  ghost predicate Increasing(ks: seq<nat>) {
    forall x, y :: 0 <= x < y < |ks| ==> ks[x] < ks[y]
  }

  lemma {:induction false} KidsFacts<T>(s: seq<Spanned<T>>, bound: nat, p: int, n: nat)
    requires n <= |s|
    ensures Below(Kids(s, bound, p, n), n) && Increasing(Kids(s, bound, p, n))
    ensures forall k :: k in Kids(s, bound, p, n) <==> 0 <= k < n && Parent(s, k) == p && Depth(s, k) < bound
  {
    if n > 0 { KidsFacts(s, bound, p, n - 1); }
  }

  ghost function Trees<T>(s: seq<Spanned<T>>, bound: nat, ks: seq<nat>): seq<Tree<T>>
    requires Below(ks, |s|)
  {
    seq(|ks|, x requires 0 <= x < |ks| => NestedTree(s, bound, ks[x]))
  }

  /** The children listed by the walk are the children the forest has. */
  lemma {:induction false} KidsAreNested<T>(s: seq<Spanned<T>>, bound: nat, p: int, n: nat)
    requires n <= |s|
    ensures Below(Kids(s, bound, p, n), |s|)
    ensures Trees(s, bound, Kids(s, bound, p, n)) + Nested(s, bound, p, n) == Nested(s, bound, p, 0)
  {
    if n > 0 {
      KidsAreNested(s, bound, p, n - 1);
      var before, now := Kids(s, bound, p, n - 1), Kids(s, bound, p, n);
      if now != before {
        assert Trees(s, bound, now) == Trees(s, bound, before) + [NestedTree(s, bound, n - 1)];
      }
    }
  }

  /** No symbol up to its own index has `p` as parent. */
  lemma {:induction false} NestedSkips<T>(s: seq<Spanned<T>>, bound: nat, p: nat, j: nat)
    requires p < |s| && j <= p + 1
    ensures Nested(s, bound, p, j) == Nested(s, bound, p, p + 1)
    decreases p + 1 - j
  {
    if j < p + 1 { NestedSkips(s, bound, p, j + 1); }
  }

  /** The stack after symbol `i - 1`: its ancestors and itself, cut to the bound. */
  ghost predicate IsStack<T>(s: seq<Spanned<T>>, bound: nat, i: nat, stack: seq<nat>) {
    if i == 0 then stack == []
    else
      && i <= |s| && |stack| == (if bound < Depth(s, i - 1) + 1 then bound else Depth(s, i - 1) + 1)
      && forall d :: 0 <= d < |stack| ==> stack[d] == Ancestor(s, i - 1, d)
  }

  /** Pop every symbol that does not contain symbol `i`. */
  method PopTo<T>(s: seq<Spanned<T>>, ghost bound: nat, i: nat, stack: seq<nat>) returns (r: seq<nat>)
    requires InOrder(s) && i < |s| && IsStack(s, bound, i, stack)
    ensures |r| == if bound < Depth(s, i) then bound else Depth(s, i)
    ensures forall d :: 0 <= d < |r| ==> r[d] == Ancestor(s, i, d) && r[d] < i
  {
    r := stack;
    if i == 0 { return; }
    DepthStep(s, i - 1);
    ghost var keep := if bound < Depth(s, i) then bound else Depth(s, i);
    forall d | 0 <= d < |stack|
      ensures stack[d] < i
      ensures Contains(s[stack[d]], s[i]) <==> d < Depth(s, i)
      ensures d < Depth(s, i) ==> stack[d] == Ancestor(s, i, d)
    {
      StackStep(s, i - 1, d);
    }
    while r != [] && !Contains(s[r[|r| - 1]], s[i])
      invariant keep <= |r| <= |stack| && r == stack[..|r|]
      decreases |r|
    {
      r := r[..|r| - 1];
    }
  }

  ghost predicate KeptBefore<T>(s: seq<Spanned<T>>, bound: nat, i: nat, kept: seq<bool>) {
    |kept| == |s| && forall k :: 0 <= k < |s| ==> (kept[k] <==> k < i && Depth(s, k) < bound)
  }

  ghost predicate KidsBefore<T>(s: seq<Spanned<T>>, bound: nat, i: nat, roots: seq<nat>, kids: seq<seq<nat>>) {
    && i <= |s| == |kids| && roots == Kids(s, bound, -1, i)
    && forall p :: 0 <= p < |s| ==> kids[p] == Kids(s, bound, p, i)
  }

  lemma {:induction false} IsStackStep<T>(s: seq<Spanned<T>>, bound: nat, i: nat, r: seq<nat>)
    requires i < |s|
    requires |r| == if bound < Depth(s, i) then bound else Depth(s, i)
    requires forall d :: 0 <= d < |r| ==> r[d] == Ancestor(s, i, d)
    ensures IsStack(s, bound, i + 1, if |r| >= bound then r else r + [i])
  {
  }

  lemma {:induction false} ParentTopsStack<T>(s: seq<Spanned<T>>, i: nat)
    requires i < |s| && Depth(s, i) > 0
    ensures Ancestor(s, i, Depth(s, i) - 1) == Parent(s, i)
  {
  }

  lemma {:induction false} KidsStep<T>(s: seq<Spanned<T>>, bound: nat, i: nat, roots: seq<nat>, kids: seq<seq<nat>>)
    requires i < |s| && KidsBefore(s, bound, i, roots, kids)
    ensures var p := Parent(s, i);
      if Depth(s, i) >= bound then KidsBefore(s, bound, i + 1, roots, kids)
      else if p < 0 then KidsBefore(s, bound, i + 1, roots + [i], kids)
      else KidsBefore(s, bound, i + 1, roots, kids[p := kids[p] + [i]])
  {
  }

  /** The stack walk: which symbols the bound keeps, the roots, and each symbol's children. */
  method Walk<T>(s: seq<Spanned<T>>, bound: nat) returns (kept: seq<bool>, roots: seq<nat>, kids: seq<seq<nat>>)
    requires InOrder(s)
    ensures KeptBefore(s, bound, |s|, kept)
    ensures KidsBefore(s, bound, |s|, roots, kids)
  {
    var n := |s|;
    kept, roots, kids := seq(n, _ => false), [], seq(n, _ => []);
    var stack: seq<nat> := [];
    for i := 0 to n
      invariant IsStack(s, bound, i, stack)
      invariant KeptBefore(s, bound, i, kept)
      invariant KidsBefore(s, bound, i, roots, kids)
    {
      stack := PopTo(s, bound, i, stack);
      IsStackStep(s, bound, i, stack);
      KidsStep(s, bound, i, roots, kids);
      if |stack| >= bound {
        continue;
      }
      if stack != [] {
        var parent := stack[|stack| - 1];
        ParentTopsStack(s, i);
        kids := kids[parent := kids[parent] + [i]];
      } else {
        roots := roots + [i];
      }
      kept := kept[i := true];
      stack := stack + [i];
    }
  }

  /** Which subtrees are in their slots when the reverse pass has finished symbols `i` and on:
      the finished ones whose parent is still to come, and every unfinished one as a leaf. */
  ghost predicate Pending<T>(s: seq<Spanned<T>>, bound: nat, i: nat, slots: seq<Option<Tree<T>>>) {
    && |slots| == |s|
    && forall k :: 0 <= k < |s| ==>
      if Depth(s, k) >= bound then slots[k] == None
      else if k < i then slots[k] == Some(Tree(s[k].item, []))
      else Parent(s, k) < i ==> slots[k] == Some(NestedTree(s, bound, k))
  }

  /** Move the listed subtrees out of their slots, in order. */
  method Take<T>(slots: seq<Option<Tree<T>>>, ks: seq<nat>) returns (rest: seq<Option<Tree<T>>>, taken: seq<Tree<T>>)
    requires Below(ks, |slots|) && Increasing(ks)
    requires forall x :: 0 <= x < |ks| ==> slots[ks[x]].Some?
    ensures |rest| == |slots|
    ensures forall k :: 0 <= k < |slots| ==> rest[k] == if k in ks then None else slots[k]
    ensures |taken| == |ks| && forall x :: 0 <= x < |ks| ==> taken[x] == slots[ks[x]].value
  {
    rest, taken := slots, [];
    for x := 0 to |ks|
      invariant |rest| == |slots| && |taken| == x
      invariant forall k :: 0 <= k < |slots| ==> rest[k] == if k in ks[..x] then None else slots[k]
      invariant forall y :: 0 <= y < x ==> taken[y] == slots[ks[y]].value
    {
      if rest[ks[x]].Some? {
        taken := taken + [rest[ks[x]].value];
        rest := rest[ks[x] := None];
      }
    }
  }

  lemma {:induction false} PendingStep<T>(
    s: seq<Spanned<T>>, bound: nat, i: nat, ks: seq<nat>, slots: seq<Option<Tree<T>>>,
    slots': seq<Option<Tree<T>>>)
    requires i < |s| && Pending(s, bound, i + 1, slots) && |slots'| == |s|
    requires ks == Kids(s, bound, i, |s|)
    requires forall k :: 0 <= k < |s| && k != i ==> slots'[k] == if k in ks then None else slots[k]
    requires slots'[i] == if Depth(s, i) < bound then Some(NestedTree(s, bound, i)) else None
    ensures Pending(s, bound, i, slots')
  {
    KidsFacts(s, bound, i, |s|);
  }

  lemma {:induction false} KidsInSlots<T>(s: seq<Spanned<T>>, bound: nat, p: int, i: nat, slots: seq<Option<Tree<T>>>)
    requires i <= |s| && p < i && Pending(s, bound, i, slots)
    requires p >= 0 ==> p == i - 1
    requires p < 0 ==> i == 0
    ensures Below(Kids(s, bound, p, |s|), |s|) && Increasing(Kids(s, bound, p, |s|))
    ensures forall x :: 0 <= x < |Kids(s, bound, p, |s|)| ==>
      slots[Kids(s, bound, p, |s|)[x]] == Some(NestedTree(s, bound, Kids(s, bound, p, |s|)[x]))
  {
    KidsFacts(s, bound, p, |s|);
    var ks := Kids(s, bound, p, |s|);
    forall x | 0 <= x < |ks| ensures slots[ks[x]] == Some(NestedTree(s, bound, ks[x])) {
      assert ks[x] in ks;
    }
  }

  /** The trees of all the listed children of `p` are its children in the forest. */
  lemma {:induction false} KidsMakeForest<T>(s: seq<Spanned<T>>, bound: nat, p: nat)
    requires p < |s|
    ensures Below(Kids(s, bound, p, |s|), |s|)
    ensures Trees(s, bound, Kids(s, bound, p, |s|)) == Nested(s, bound, p, p + 1)
  {
    KidsAreNested(s, bound, p, |s|);
    NestedSkips(s, bound, p, 0);
  }

  lemma {:induction false} TakenAreChildren<T>(
    s: seq<Spanned<T>>, bound: nat, i: nat, slots: seq<Option<Tree<T>>>, taken: seq<Tree<T>>)
    requires i < |s| && Pending(s, bound, i + 1, slots)
    requires |taken| == |Kids(s, bound, i, |s|)| && Below(Kids(s, bound, i, |s|), |s|)
    requires forall x :: 0 <= x < |taken| ==> slots[Kids(s, bound, i, |s|)[x]] == Some(taken[x])
    ensures Tree(s[i].item, taken) == NestedTree(s, bound, i)
  {
    KidsInSlots(s, bound, i, i + 1, slots);
    KidsMakeForest(s, bound, i);
    assert taken == Trees(s, bound, Kids(s, bound, i, |s|));
  }

  lemma {:induction false} NotOwnKid<T>(s: seq<Spanned<T>>, bound: nat, i: nat)
    requires i < |s|
    ensures i !in Kids(s, bound, i, |s|)
  {
    KidsFacts(s, bound, i, |s|);
  }

  /** Give symbol `i` its children: they are finished, so it is too. */
  method Finish<T>(s: seq<Spanned<T>>, ghost bound: nat, i: nat, ks: seq<nat>, slots: seq<Option<Tree<T>>>)
    returns (r: seq<Option<Tree<T>>>)
    requires i < |s| && Pending(s, bound, i + 1, slots) && ks == Kids(s, bound, i, |s|)
    ensures Pending(s, bound, i, r)
  {
    KidsInSlots(s, bound, i, i + 1, slots);
    NotOwnKid(s, bound, i);
    r := slots;
    if ks == [] {
      TakenAreChildren(s, bound, i, slots, []);
    } else {
      var children;
      r, children := Take(slots, ks);
      TakenAreChildren(s, bound, i, slots, children);
      if r[i].Some? {
        r := r[i := Some(r[i].value.(children := children))];
      }
    }
    PendingStep(s, bound, i, ks, slots, r);
  }

  /** Build the trees in reverse sorted order: every child is finished before the
      parent it belongs to. */
  method Assemble<T>(s: seq<Spanned<T>>, ghost bound: nat, kept: seq<bool>, roots: seq<nat>, kids: seq<seq<nat>>)
    returns (forest: seq<Tree<T>>)
    requires KeptBefore(s, bound, |s|, kept) && KidsBefore(s, bound, |s|, roots, kids)
    ensures forest == Outlined(s, bound)
  {
    var n := |s|;
    var slots := seq(n, k requires 0 <= k < n => if kept[k] then Some(Tree(s[k].item, [])) else None);
    for i := n downto 0
      invariant Pending(s, bound, i, slots)
    {
      slots := Finish(s, bound, i, kids[i], slots);
    }
    KidsInSlots(s, bound, -1, 0, slots);
    KidsAreNested(s, bound, -1, n);
    var rest;
    rest, forest := Take(slots, roots);
    assert forest == Trees(s, bound, roots);
  }

  /** `nest`: sort the symbols and nest them by containment, leaving out every level at `bound`
      or below. */
  method Nest<T(!new)>(symbols: seq<Spanned<T>>, bound: nat) returns (forest: seq<Tree<T>>)
    ensures forest == Outlined(SortSpans(symbols), bound)
  {
    var s := SortSpans(symbols);
    SortSpansOrders(symbols);
    var kept, roots, kids := Walk(s, bound);
    forest := Assemble(s, bound, kept, roots, kids);
  }

  // ---------------------------------------------------------------------------------------
  // Every kept symbol once, in sorted order.

  /** What is still to list when the walk is at `j`: for each of the `d` outermost ancestors of
      symbol `i`, deepest first, its children from `j` on, and then the roots from `j` on. */
  ghost function Rest<T>(s: seq<Spanned<T>>, bound: nat, i: nat, j: nat, d: nat): seq<(T, nat)>
    requires i < |s| && j <= |s| && d <= Depth(s, i) + 1
  {
    if d == 0 then Flatten(Nested(s, bound, -1, j), 0)
    else Flatten(Nested(s, bound, Ancestor(s, i, d - 1), j), d) + Rest(s, bound, i, j, d - 1)
  }

  lemma {:induction false} RestAtEnd<T>(s: seq<Spanned<T>>, bound: nat, i: nat, d: nat)
    requires i < |s| && d <= Depth(s, i) + 1
    ensures Rest(s, bound, i, |s|, d) == []
  {
    if d > 0 { RestAtEnd(s, bound, i, d - 1); }
  }

  /** A symbol the stack has dropped has no children to come. */
  lemma {:induction false} DroppedIsDone<T>(s: seq<Spanned<T>>, bound: nat, i: nat, d: nat, j: nat)
    requires InOrder(s) && i + 1 < |s| && i + 1 <= j <= |s|
    requires Depth(s, i + 1) <= d <= Depth(s, i)
    ensures Nested(s, bound, Ancestor(s, i, d), j) == []
    decreases |s| - j
  {
    if j < |s| {
      var a := Ancestor(s, i, d);
      AncestorFacts(s, i, d);
      if Parent(s, j) == a && j > i + 1 {
        ParentOnSpine(s, j, i + 1, d);
      }
      DroppedIsDone(s, bound, i, d, j + 1);
    }
  }

  lemma {:induction false} DropDone<T>(s: seq<Spanned<T>>, bound: nat, i: nat, d: nat)
    requires InOrder(s) && i + 1 < |s| && Depth(s, i + 1) <= d <= Depth(s, i) + 1
    ensures Depth(s, i + 1) <= Depth(s, i) + 1
    ensures Rest(s, bound, i, i + 1, d) == Rest(s, bound, i, i + 1, Depth(s, i + 1))
    decreases d
  {
    if d > Depth(s, i + 1) {
      DroppedIsDone(s, bound, i, d - 1, i + 1);
      DropDone(s, bound, i, d - 1);
    }
  }

  /** The ancestors above the parent gain nothing from symbol `i + 1`. */
  lemma {:induction false} OuterUnchanged<T>(s: seq<Spanned<T>>, bound: nat, i: nat, d: nat)
    requires InOrder(s) && i + 1 < |s| && d < Depth(s, i + 1) <= Depth(s, i) + 1
    ensures Rest(s, bound, i, i + 1, d) == Rest(s, bound, i + 1, i + 2, d)
  {
    if d > 0 {
      StackStep(s, i, d - 1);
      ParentTopsStack(s, i + 1);
      AncestorsGrow(s, i + 1, d - 1, Depth(s, i + 1) - 1);
      OuterUnchanged(s, bound, i, d - 1);
    }
  }

  lemma {:induction false} CutHasNoChildren<T>(s: seq<Spanned<T>>, bound: nat, p: nat, j: nat)
    requires p < j <= |s| && Depth(s, p) >= bound
    ensures Nested(s, bound, p, j) == []
    decreases |s| - j
  {
    if j < |s| { CutHasNoChildren(s, bound, p, j + 1); }
  }

  /** Listing symbol `j` under its parent: itself, then its children, then its later siblings. */
  lemma {:induction false} ListOne<T>(s: seq<Spanned<T>>, bound: nat, j: nat)
    requires j < |s|
    ensures Flatten(Nested(s, bound, Parent(s, j), j), Depth(s, j)) ==
      (if Depth(s, j) < bound then [(s[j].item, Depth(s, j))] else [])
      + (Flatten(Nested(s, bound, j, j + 1), Depth(s, j) + 1)
         + Flatten(Nested(s, bound, Parent(s, j), j + 1), Depth(s, j)))
  {
    if Depth(s, j) < bound {
      var t, rest := NestedTree(s, bound, j), Nested(s, bound, Parent(s, j), j + 1);
      assert ([t] + rest)[1..] == rest;
    } else {
      CutHasNoChildren(s, bound, j, j + 1);
    }
  }

  /** What is left to list above the parent of symbol `i + 1`. */
  ghost function Outer<T>(s: seq<Spanned<T>>, bound: nat, i: nat): seq<(T, nat)>
    requires i < |s|
  {
    if Depth(s, i) == 0 then [] else Rest(s, bound, i, i + 1, Depth(s, i) - 1)
  }

  lemma {:induction false} ParentOnStack<T>(s: seq<Spanned<T>>, i: nat)
    requires InOrder(s) && i + 1 < |s| && Depth(s, i + 1) > 0
    ensures Depth(s, i + 1) <= Depth(s, i) + 1
    ensures Ancestor(s, i, Depth(s, i + 1) - 1) == Parent(s, i + 1)
  {
    DepthStep(s, i);
    StackStep(s, i, Depth(s, i + 1) - 1);
    ParentTopsStack(s, i + 1);
  }

  lemma {:induction false} RestOpens<T>(s: seq<Spanned<T>>, bound: nat, i: nat)
    requires InOrder(s) && i + 1 < |s| && Depth(s, i + 1) <= Depth(s, i) + 1
    ensures Rest(s, bound, i, i + 1, Depth(s, i + 1)) ==
      Flatten(Nested(s, bound, Parent(s, i + 1), i + 1), Depth(s, i + 1)) + Outer(s, bound, i + 1)
  {
    var d := Depth(s, i + 1);
    if d > 0 {
      ParentOnStack(s, i);
      OuterUnchanged(s, bound, i, d - 1);
      assert Rest(s, bound, i, i + 1, d) ==
        Flatten(Nested(s, bound, Ancestor(s, i, d - 1), i + 1), d) + Rest(s, bound, i, i + 1, d - 1);
    }
  }

  lemma {:induction false} RestBefore<T>(s: seq<Spanned<T>>, bound: nat, i: nat)
    requires InOrder(s) && i + 1 < |s|
    ensures Rest(s, bound, i, i + 1, Depth(s, i) + 1) ==
      Flatten(Nested(s, bound, Parent(s, i + 1), i + 1), Depth(s, i + 1)) + Outer(s, bound, i + 1)
  {
    DepthStep(s, i);
    DropDone(s, bound, i, Depth(s, i) + 1);
    RestOpens(s, bound, i);
  }

  lemma {:induction false} RestAfter<T>(s: seq<Spanned<T>>, bound: nat, i: nat)
    requires i < |s|
    ensures Rest(s, bound, i, i + 1, Depth(s, i) + 1) ==
      Flatten(Nested(s, bound, i, i + 1), Depth(s, i) + 1)
      + Flatten(Nested(s, bound, Parent(s, i), i + 1), Depth(s, i)) + Outer(s, bound, i)
  {
    if Depth(s, i) > 0 {
      ParentTopsStack(s, i);
    }
  }

  lemma {:induction false} Regroup<T>(a: seq<T>, b: seq<T>, c: seq<T>)
    ensures a + b + c == a + (b + c)
  {
  }

  /** One step of the listing: symbol `i + 1` moves from what is left to the front. */
  lemma {:induction false} RestStep<T>(s: seq<Spanned<T>>, bound: nat, i: nat)
    requires InOrder(s) && i + 1 < |s|
    ensures Rest(s, bound, i, i + 1, Depth(s, i) + 1) ==
      (if Depth(s, i + 1) < bound then [(s[i + 1].item, Depth(s, i + 1))] else [])
      + Rest(s, bound, i + 1, i + 2, Depth(s, i + 1) + 1)
  {
    var d := Depth(s, i + 1);
    RestBefore(s, bound, i);
    ListOne(s, bound, i + 1);
    RestAfter(s, bound, i + 1);
    Regroup(if d < bound then [(s[i + 1].item, d)] else [],
            Flatten(Nested(s, bound, i + 1, i + 2), d + 1) + Flatten(Nested(s, bound, Parent(s, i + 1), i + 2), d),
            Outer(s, bound, i + 1));
  }

  lemma {:induction false} PreorderFrom<T>(s: seq<Spanned<T>>, bound: nat, i: nat)
    requires InOrder(s) && i < |s|
    ensures KeptFrom(s, bound, i + 1) == Rest(s, bound, i, i + 1, Depth(s, i) + 1)
    decreases |s| - i
  {
    if i + 1 < |s| {
      PreorderFrom(s, bound, i + 1);
      var rest := KeptFrom(s, bound, i + 2);
      assert rest == Rest(s, bound, i + 1, i + 2, Depth(s, i + 1) + 1);
      RestStep(s, bound, i);
    } else {
      RestAtEnd(s, bound, i, Depth(s, i) + 1);
    }
  }

  /** The forest places every kept symbol exactly once, and its preorder is the sorted list of
      them, each at its own depth. */
  lemma {:induction false} PreorderIsSortedOrder<T>(s: seq<Spanned<T>>, bound: nat)
    requires InOrder(s)
    ensures Flatten(Outlined(s, bound), 0) == KeptFrom(s, bound, 0)
  {
    if s != [] {
      PreorderFrom(s, bound, 0);
      ListOne(s, bound, 0);
    }
  }

  // ---------------------------------------------------------------------------------------
  // The depth bound is a truncation.

  lemma {:induction false} BoundCutsNested<T>(s: seq<Spanned<T>>, bound: nat, p: int, j: nat)
    requires -1 <= p < j <= |s|
    requires (if p < 0 then 0 else Depth(s, p) + 1) <= bound
    ensures Nested(s, bound, p, j) ==
      Cut(Nested(s, |s|, p, j), bound - if p < 0 then 0 else Depth(s, p) + 1)
    decreases |s| - j
  {
    if j < |s| {
      var d := if p < 0 then 0 else Depth(s, p) + 1;
      BoundCutsNested(s, bound, p, j + 1);
      if Parent(s, j) == p {
        DepthBelowIndex(s, j);
        if d < bound {
          BoundCutsNested(s, bound, j, j + 1);
          var t, rest := NestedTree(s, |s|, j), Nested(s, |s|, p, j + 1);
          assert ([t] + rest)[1..] == rest;
        }
      }
    }
  }

  lemma {:induction false} DepthBelowIndex<T>(s: seq<Spanned<T>>, i: nat)
    requires i < |s|
    ensures Depth(s, i) <= i
    decreases i
  {
    if Parent(s, i) >= 0 { DepthBelowIndex(s, Parent(s, i)); }
  }

  /** Leaving out the symbols past the bound as the walk goes gives the unbounded outline cut
      off below that many levels. */
  lemma {:induction false} BoundIsTruncation<T>(s: seq<Spanned<T>>, bound: nat)
    ensures Outlined(s, bound) == Cut(Outlined(s, |s|), bound)
  {
    BoundCutsNested(s, bound, -1, 0);
  }
}
