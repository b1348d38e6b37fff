/** The standard library's stable sort, as the function its callers rely on: the result is
    ordered, holds the same elements, and keeps equal elements in their given order. */
module Sorting {

  /** `le` is a total preorder: any two elements compare, and comparison chains. */
  ghost predicate IsOrder<T(!new)>(le: (T, T) -> bool) {
    && (forall a, b :: le(a, b) || le(b, a))
    && (forall a, b, c :: le(a, b) && le(b, c) ==> le(a, c))
  }

  ghost predicate Sorted<T>(le: (T, T) -> bool, s: seq<T>) {
    forall i, j :: 0 <= i < j < |s| ==> le(s[i], s[j])
  }

  /** Put `x` before the first element it may precede. */
  function Insert<T>(le: (T, T) -> bool, x: T, s: seq<T>): (r: seq<T>)
    ensures |r| == |s| + 1
    ensures multiset(r) == multiset(s) + multiset{x}
  {
    if s == [] then [x]
    else if le(x, s[0]) then [x] + s
    else
      assert s == [s[0]] + s[1..];
      [s[0]] + Insert(le, x, s[1..])
  }

  function StableSort<T>(le: (T, T) -> bool, s: seq<T>): (r: seq<T>)
    ensures |r| == |s|
    ensures multiset(r) == multiset(s)
  {
    if s == [] then []
    else
      assert s == [s[0]] + s[1..];
      Insert(le, s[0], StableSort(le, s[1..]))
  }

  lemma {:induction false} InsertSorted<T(!new)>(le: (T, T) -> bool, x: T, s: seq<T>)
    requires IsOrder(le) && Sorted(le, s)
    ensures Sorted(le, Insert(le, x, s))
  {
    if s == [] {
    } else if le(x, s[0]) {
      forall j | 0 <= j < |s| ensures le(x, s[j]) {
        assert le(s[0], s[j]);
      }
    } else {
      InsertSorted(le, x, s[1..]);
      var rest := Insert(le, x, s[1..]);
      forall j | 0 <= j < |rest| ensures le(s[0], rest[j]) {
        assert rest[j] in multiset(rest);
        assert rest[j] == x || rest[j] in s[1..];
      }
    }
  }

  lemma {:induction false} StableSortSorts<T(!new)>(le: (T, T) -> bool, s: seq<T>)
    requires IsOrder(le)
    ensures Sorted(le, StableSort(le, s))
  {
    if s != [] {
      StableSortSorts(le, s[1..]);
      InsertSorted(le, s[0], StableSort(le, s[1..]));
    }
  }

  predicate Tied<T>(le: (T, T) -> bool, x: T, y: T) {
    le(x, y) && le(y, x)
  }

  /** `y` alone when it ties with `x`. */
  ghost function Tie<T>(le: (T, T) -> bool, x: T, y: T): seq<T> {
    if Tied(le, x, y) then [y] else []
  }

  /** The elements of `s` that tie with `x`, in the order `s` has them. */
  ghost function Ties<T>(le: (T, T) -> bool, x: T, s: seq<T>): seq<T> {
    if s == [] then [] else Tie(le, x, s[0]) + Ties(le, x, s[1..])
  }

  lemma {:induction false} TiesCons<T>(le: (T, T) -> bool, x: T, y: T, s: seq<T>)
    ensures Ties(le, x, [y] + s) == Tie(le, x, y) + Ties(le, x, s)
  {
    assert ([y] + s)[1..] == s;
  }

  lemma {:induction false} SwapEmpty<T>(a: seq<T>, b: seq<T>, c: seq<T>)
    requires a == [] || b == []
    ensures a + (b + c) == b + (a + c)
  {
  }

  lemma {:induction false} InsertIsStable<T(!new)>(le: (T, T) -> bool, y: T, s: seq<T>, x: T)
    requires forall z :: Tied(le, x, y) && Tied(le, x, z) ==> le(y, z)
    ensures Ties(le, x, Insert(le, y, s)) == Tie(le, x, y) + Ties(le, x, s)
  {
    if s == [] || le(y, s[0]) {
      TiesCons(le, x, y, s);
      assert Insert(le, y, s) == [y] + s;
    } else {
      InsertIsStable(le, y, s[1..], x);
      TiesCons(le, x, s[0], Insert(le, y, s[1..]));
      SwapEmpty(Tie(le, x, s[0]), Tie(le, x, y), Ties(le, x, s[1..]));
    }
  }

  /** Elements that tie keep the order they were given in. */
  lemma {:induction false} StableSortIsStable<T(!new)>(le: (T, T) -> bool, s: seq<T>, x: T)
    requires IsOrder(le)
    ensures Ties(le, x, StableSort(le, s)) == Ties(le, x, s)
  {
    if s != [] {
      InsertIsStable(le, s[0], StableSort(le, s[1..]), x);
      StableSortIsStable(le, s[1..], x);
    }
  }

  /** `a` is in strict order: nothing ties. */
  ghost predicate Strict<T>(le: (T, T) -> bool, a: seq<T>) {
    forall i, j :: 0 <= i < j < |a| ==> le(a[i], a[j]) && !le(a[j], a[i])
  }

  lemma {:induction false} SameHead<T(!new)>(le: (T, T) -> bool, a: seq<T>, b: seq<T>)
    requires Strict(le, a) && Sorted(le, b) && multiset(a) == multiset(b)
    requires a != [] && b != []
    ensures a[0] == b[0]
  {
    assert a[0] in multiset(b) && b[0] in multiset(a);
    var k :| 0 <= k < |a| && a[k] == b[0];
    var l :| 0 <= l < |b| && b[l] == a[0];
  }

  lemma {:induction false} TailElements<T>(a: seq<T>)
    requires a != []
    ensures multiset(a[1..]) == multiset(a) - multiset{a[0]}
  {
    assert a == [a[0]] + a[1..];
  }

  /** A strictly ordered list is the only ordered arrangement of its elements. */
  lemma {:induction false} StrictIsUnique<T(!new)>(le: (T, T) -> bool, a: seq<T>, b: seq<T>)
    requires Strict(le, a) && Sorted(le, b) && multiset(a) == multiset(b)
    ensures a == b
  {
    assert |multiset(a)| == |a| && |multiset(b)| == |b|;
    if a != [] {
      SameHead(le, a, b);
      assert multiset(a[1..]) == multiset(b[1..]) by {
        TailElements(a);
        TailElements(b);
      }
      StrictIsUnique(le, a[1..], b[1..]);
      assert a == [a[0]] + a[1..] && b == [b[0]] + b[1..];
    }
  }
}
