/** The outline gives back the containers a parse went through.

    Take any forest of containers whose spans nest strictly, and any list of rule events in
    which each container opens and later closes. Pairing, sorting, the stack walk and the
    reverse assembly together return exactly that forest. */
module OutlineInverse {
  import opened Wrappers
  import opened Text
  import opened Forest
  import opened Nesting
  import opened Outline
  import opened OutlineFacts
  import I = NestingInverse
  import T = Trace

  /** One container of the parse: its rule index and name, its first matched token, and the token
      it closes at, if recovery did not force it closed without one. */
  datatype Container = Container(i: nat, rule: string, o0: T.TokenPoint, c0: Option<T.TokenPoint>)

  /** Where a container ends: a forced one at the token it opens with. */
  function EndOf(c: Container): T.TokenPoint {
    if c.c0.Some? then c.c0.value else c.o0
  }

  /** What closing a container records. */
  function Finished(rules: Rules, c: Container): Closed {
    Closed(if c.rule in rules then rules[c.rule] else "", c.o0, EndOf(c))
  }

  function ContainerSpan(rules: Rules, enc: Encoding, text: string, c: Container): Spanned<Symbol> {
    SpannedOf(enc, text, Finished(rules, c))
  }

  /** Event `n` is container `c` opening. */
  predicate Opens(rules: Rules, e: RuleEvent, c: Container) {
    e.name in rules && e.i == c.i && e.pass == Open && e.o0 == Some(c.o0)
  }

  /** Event `n` is container `c` closing, at a token or forced without one. */
  predicate Closes(rules: Rules, e: RuleEvent, c: Container) {
    && e.name == c.rule && e.name in rules && e.i == c.i && e.pass == Close
    && e.c0 == c.c0 && (c.c0.None? ==> e.forced)
  }

  /** Event `n` yields no container: it is of a rule the outline does not name, or of an index no
      container has, and then opens it, closes it without a token and unforced, or closes what
      never opened. */
  ghost predicate IsIdle(rules: Rules, events: seq<RuleEvent>, cs: seq<Container>, n: nat)
    requires n < |events|
  {
    var e := events[n];
    e.name in rules ==>
      && (forall k :: 0 <= k < |cs| ==> cs[k].i != e.i)
      && (e.pass == Open || (e.c0.None? && !e.forced) || NeverOpened(events, n, e.i))
  }

  ghost predicate NeverOpened(events: seq<RuleEvent>, n: nat, i: nat)
    requires n <= |events|
  {
    forall m :: 0 <= m < n ==> events[m].i != i || events[m].pass == Close || events[m].o0.None?
  }

  /** The events are the containers opening and closing, in any interleaving: container `k`
      opens at `opens[k]` and closes later, at `closes[k]`; every other event yields nothing. */
  ghost predicate IsTrace(
    rules: Rules, events: seq<RuleEvent>, cs: seq<Container>, opens: seq<nat>, closes: seq<nat>) {
    && |opens| == |closes| == |cs|
    && (forall k :: 0 <= k < |cs| ==> opens[k] < closes[k] < |events|)
    && (forall k :: 0 <= k < |cs| ==> Opens(rules, events[opens[k]], cs[k]) && Closes(rules, events[closes[k]], cs[k]))
    && (forall j, k :: 0 <= j < k < |cs| ==> cs[j].i != cs[k].i)
    && (forall n {:trigger OwnEvent(opens, closes, n)} ::
          0 <= n < |events| && !OwnEvent(opens, closes, n) ==> IsIdle(rules, events, cs, n))
  }

  ghost predicate OwnEvent(opens: seq<nat>, closes: seq<nat>, n: nat) {
    exists k :: 0 <= k < |opens| && k < |closes| && (opens[k] == n || closes[k] == n)
  }

  /** Between its open and its close, a container is the one its index has open. */
  lemma {:induction false} StaysOpen(
    rules: Rules, events: seq<RuleEvent>, cs: seq<Container>, opens: seq<nat>, closes: seq<nat>, k: nat,
    n: nat)
    requires IsTrace(rules, events, cs, opens, closes) && k < |cs| && opens[k] < n <= closes[k]
    ensures OpenOf(rules, events, n, cs[k].i) == Some(cs[k].o0)
    decreases n
  {
    if n - 1 > opens[k] {
      StaysOpen(rules, events, cs, opens, closes, k, n - 1);
      NoEventBetween(rules, events, cs, opens, closes, k, n - 1);
    } else {
      assert Opens(rules, events[opens[k]], cs[k]);
    }
  }

  /** Nothing else happens to a container's rule index while it is open. */
  lemma {:induction false} NoEventBetween(
    rules: Rules, events: seq<RuleEvent>, cs: seq<Container>, opens: seq<nat>, closes: seq<nat>, k: nat,
    n: nat)
    requires IsTrace(rules, events, cs, opens, closes) && k < |cs| && opens[k] < n < closes[k]
    ensures events[n].name in rules ==> events[n].i != cs[k].i
  {
    if OwnEvent(opens, closes, n) {
      var j :| 0 <= j < |opens| && j < |closes| && (opens[j] == n || closes[j] == n);
      OwnIndex(rules, events, cs, opens, closes, j);
    }
  }

  lemma {:induction false} OwnIndex(
    rules: Rules, events: seq<RuleEvent>, cs: seq<Container>, opens: seq<nat>, closes: seq<nat>, k: nat)
    requires IsTrace(rules, events, cs, opens, closes) && k < |cs|
    ensures events[opens[k]].i == cs[k].i && events[closes[k]].i == cs[k].i
  {
    assert Opens(rules, events[opens[k]], cs[k]) && Closes(rules, events[closes[k]], cs[k]);
  }

  lemma {:induction false} ClosesItself(
    rules: Rules, events: seq<RuleEvent>, cs: seq<Container>, opens: seq<nat>, closes: seq<nat>, k: nat)
    requires IsTrace(rules, events, cs, opens, closes) && k < |cs|
    ensures ClosedAt(rules, events, closes[k]) == Some(Finished(rules, cs[k]))
    ensures forall j :: 0 <= j < |cs| && j != k ==> closes[j] != closes[k]
  {
    StaysOpen(rules, events, cs, opens, closes, k, closes[k]);
    assert Closes(rules, events[closes[k]], cs[k]);
    forall j | 0 <= j < |cs| && j != k ensures closes[j] != closes[k] {
      assert Closes(rules, events[closes[j]], cs[j]);
    }
  }

  lemma {:induction false} NothingElseCloses(
    rules: Rules, events: seq<RuleEvent>, cs: seq<Container>, opens: seq<nat>, closes: seq<nat>, n: nat)
    requires IsTrace(rules, events, cs, opens, closes) && n < |events|
    requires forall k :: 0 <= k < |cs| ==> closes[k] != n
    ensures ClosedAt(rules, events, n) == None
  {
    if OwnEvent(opens, closes, n) {
      var k :| 0 <= k < |opens| && k < |closes| && (opens[k] == n || closes[k] == n);
      assert Opens(rules, events[opens[k]], cs[k]);
    } else if NeverOpened(events, n, events[n].i) {
      StaysUnopened(rules, events, n, events[n].i);
    }
  }

  lemma {:induction false} StaysUnopened(rules: Rules, events: seq<RuleEvent>, n: nat, i: nat)
    requires n <= |events| && NeverOpened(events, n, i)
    ensures OpenOf(rules, events, n, i) == None
  {
    if n > 0 { StaysUnopened(rules, events, n - 1, i); }
  }

  /** The first `m` of the listed spans whose containers closed before event `n`. */
  ghost function ClosedBefore(spans: seq<Spanned<Symbol>>, closes: seq<nat>, n: nat, m: nat): multiset<Spanned<Symbol>>
    requires m <= |spans| == |closes|
  {
    if m == 0 then multiset{}
    else ClosedBefore(spans, closes, n, m - 1) + if closes[m - 1] < n then multiset{spans[m - 1]} else multiset{}
  }

  lemma {:induction false} ClosedBeforeSame(spans: seq<Spanned<Symbol>>, closes: seq<nat>, n: nat, m: nat)
    requires m <= |spans| == |closes|
    requires forall k :: 0 <= k < m ==> closes[k] != n
    ensures ClosedBefore(spans, closes, n + 1, m) == ClosedBefore(spans, closes, n, m)
  {
    if m > 0 { ClosedBeforeSame(spans, closes, n, m - 1); }
  }

  lemma {:induction false} ClosedBeforeOne(spans: seq<Spanned<Symbol>>, closes: seq<nat>, n: nat, m: nat, k: nat)
    requires k < m <= |spans| == |closes| && closes[k] == n
    requires forall j :: 0 <= j < m && j != k ==> closes[j] != n
    ensures ClosedBefore(spans, closes, n + 1, m) == ClosedBefore(spans, closes, n, m) + multiset{spans[k]}
  {
    if k == m - 1 { ClosedBeforeSame(spans, closes, n, m - 1); }
    else { ClosedBeforeOne(spans, closes, n, m - 1, k); }
  }

  lemma {:induction false} ClosedBeforeStart(spans: seq<Spanned<Symbol>>, closes: seq<nat>, m: nat)
    requires m <= |spans| == |closes|
    ensures ClosedBefore(spans, closes, 0, m) == multiset{}
  {
    if m > 0 { ClosedBeforeStart(spans, closes, m - 1); }
  }

  lemma {:induction false} ClosedBeforeEnd(spans: seq<Spanned<Symbol>>, closes: seq<nat>, n: nat, m: nat)
    requires m <= |spans| == |closes|
    requires forall k :: 0 <= k < m ==> closes[k] < n
    ensures ClosedBefore(spans, closes, n, m) == multiset(spans[..m])
  {
    if m > 0 {
      ClosedBeforeEnd(spans, closes, n, m - 1);
      assert spans[..m] == spans[..m - 1] + [spans[m - 1]];
    }
  }

  ghost function Spanneds(rules: Rules, enc: Encoding, text: string, cs: seq<Container>): seq<Spanned<Symbol>> {
    MapSeq((c: Container) => ContainerSpan(rules, enc, text, c), cs)
  }

  lemma {:induction false} SpannedJoin(enc: Encoding, text: string, cs: seq<Closed>, c: Closed)
    ensures AllSpanned(enc, text, cs + [c]) == AllSpanned(enc, text, cs) + [SpannedOf(enc, text, c)]
  {
  }

  /** Up to event `n`, what has closed is the containers that close before. */
  ghost predicate HaveClosed(
    rules: Rules, events: seq<RuleEvent>, enc: Encoding, text: string, cs: seq<Container>, closes: seq<nat>,
    n: nat)
  {
    && n <= |events| && |closes| == |cs|
    && (n > 0 ==> HaveClosed(rules, events, enc, text, cs, closes, n - 1))
    && multiset(AllSpanned(enc, text, AllClosed(rules, events, n)))
       == ClosedBefore(Spanneds(rules, enc, text, cs), closes, n, |cs|)
  }

  /** Event `n` adds to what has closed exactly the container it closes, if any. */
  lemma {:induction false} CloseStep(
    rules: Rules, events: seq<RuleEvent>, enc: Encoding, text: string, cs: seq<Container>, opens: seq<nat>,
    closes: seq<nat>, n: nat, n': nat)
    requires IsTrace(rules, events, cs, opens, closes) && n < |events|
    requires HaveClosed(rules, events, enc, text, cs, closes, n)
    requires n' == n + 1
    ensures HaveClosed(rules, events, enc, text, cs, closes, n')
  {
    var spans, before := Spanneds(rules, enc, text, cs), AllClosed(rules, events, n);
    if k :| 0 <= k < |cs| && closes[k] == n {
      ClosesItself(rules, events, cs, opens, closes, k);
      ClosedBeforeOne(spans, closes, n, |cs|, k);
      SpannedJoin(enc, text, before, Finished(rules, cs[k]));
      assert AllClosed(rules, events, n + 1) == before + [Finished(rules, cs[k])];
    } else {
      NothingElseCloses(rules, events, cs, opens, closes, n);
      ClosedBeforeSame(spans, closes, n, |cs|);
      assert AllClosed(rules, events, n + 1) == before;
    }
  }

  lemma {:induction false} NoneHaveClosed(
    rules: Rules, events: seq<RuleEvent>, enc: Encoding, text: string, cs: seq<Container>, closes: seq<nat>)
    requires |closes| == |cs|
    ensures HaveClosed(rules, events, enc, text, cs, closes, 0)
  {
    ClosedBeforeStart(Spanneds(rules, enc, text, cs), closes, |cs|);
    assert AllSpanned(enc, text, []) == [];
  }

  lemma {:induction false} ClosedSoFar(
    rules: Rules, events: seq<RuleEvent>, enc: Encoding, text: string, cs: seq<Container>, opens: seq<nat>,
    closes: seq<nat>, n: nat)
    requires IsTrace(rules, events, cs, opens, closes) && n <= |events|
    ensures HaveClosed(rules, events, enc, text, cs, closes, n)
    decreases n
  {
    if n == 0 {
      NoneHaveClosed(rules, events, enc, text, cs, closes);
    } else {
      ClosedSoFar(rules, events, enc, text, cs, opens, closes, n - 1);
      CloseStep(rules, events, enc, text, cs, opens, closes, n - 1, n);
    }
  }

  lemma {:induction false} AllContainersClose(
    rules: Rules, events: seq<RuleEvent>, enc: Encoding, text: string, cs: seq<Container>, opens: seq<nat>,
    closes: seq<nat>)
    requires IsTrace(rules, events, cs, opens, closes)
    ensures multiset(AllSpanned(enc, text, AllClosed(rules, events, |events|)))
      == multiset(Spanneds(rules, enc, text, cs))
  {
    var spans := Spanneds(rules, enc, text, cs);
    ClosedSoFar(rules, events, enc, text, cs, opens, closes, |events|);
    ClosedBeforeEnd(spans, closes, |events|, |cs|);
    assert spans[..|cs|] == spans;
  }

  ghost function SpanForest(
    rules: Rules, enc: Encoding, text: string, f: seq<Tree<Container>>): seq<Tree<Spanned<Symbol>>> {
    Mapped((c: Container) => ContainerSpan(rules, enc, text, c), f)
  }

  ghost function SymbolForest(rules: Rules, enc: Encoding, text: string, f: seq<Tree<Container>>): seq<Tree<Symbol>> {
    Mapped((c: Container) => SymbolOf(enc, text, Finished(rules, c)), f)
  }

  lemma {:induction false} SpanForestFacts(rules: Rules, enc: Encoding, text: string, f: seq<Tree<Container>>)
    ensures Preorder(SpanForest(rules, enc, text, f)) == Spanneds(rules, enc, text, Preorder(f))
    ensures I.Items(SpanForest(rules, enc, text, f)) == SymbolForest(rules, enc, text, f)
    ensures Height(SymbolForest(rules, enc, text, f)) == Height(f)
  {
    var span := (c: Container) => ContainerSpan(rules, enc, text, c);
    var symbol := (c: Container) => SymbolOf(enc, text, Finished(rules, c));
    PreorderMapped(span, f);
    HeightMapped(symbol, f);
    MappedTwice(span, I.ItemOf<Symbol>, symbol, f);
  }

  /** The containers with the spans they nest by. */
  ghost function Spans(f: seq<Tree<Container>>): seq<Tree<Spanned<Container>>> {
    Mapped((c: Container) => Spanned(c, c.o0.si, EndOf(c).si), f)
  }

  lemma {:induction false} SpansNest(rules: Rules, enc: Encoding, text: string, f: seq<Tree<Container>>)
    requires I.NestsStrictly(Spans(f))
    ensures I.NestsStrictly(SpanForest(rules, enc, text, f))
  {
    if f != [] {
      var g, h := Spans(f), SpanForest(rules, enc, text, f);
      SameSpan(rules, enc, text, f, 0);
      if |f| > 1 { SameSpan(rules, enc, text, f, 1); }
      MappedParts((c: Container) => Spanned(c, c.o0.si, EndOf(c).si), f);
      MappedParts((c: Container) => ContainerSpan(rules, enc, text, c), f);
      SpansNest(rules, enc, text, f[0].children);
      SpansNest(rules, enc, text, f[1..]);
      forall k | 0 <= k < |h[0].children| ensures I.StrictlyInside(h[0].children[k].item, h[0].item) {
        SameSpan(rules, enc, text, f[0].children, k);
        assert I.StrictlyInside(g[0].children[k].item, g[0].item);
      }
    }
  }

  lemma {:induction false} SameSpan(rules: Rules, enc: Encoding, text: string, f: seq<Tree<Container>>, k: nat)
    requires k < |f| || k < |SpanForest(rules, enc, text, f)|
    ensures |Spans(f)| == |SpanForest(rules, enc, text, f)| == |f|
    ensures var a, b := Spans(f)[k].item, SpanForest(rules, enc, text, f)[k].item;
      a.start == b.start && a.end == b.end
  {
    if f != [] {
      MappedAt((c: Container) => Spanned(c, c.o0.si, EndOf(c).si), f, if k < |f| then k else 0);
      MappedAt((c: Container) => ContainerSpan(rules, enc, text, c), f, if k < |f| then k else 0);
    }
  }

  /** The symbols `f` are the containers `g`, each with its own symbols inside it. */
  ghost predicate Describes(
    rules: Rules, enc: Encoding, text: string, f: seq<Tree<Symbol>>, g: seq<Tree<Container>>)
    decreases g
  {
    && |f| == |g|
    && (g != [] ==>
      && g[0].item.rule in rules
      && Says(enc, text, f[0].item, rules[g[0].item.rule], g[0].item.o0, EndOf(g[0].item))
      && Describes(rules, enc, text, f[0].children, g[0].children)
      && Describes(rules, enc, text, f[1..], g[1..]))
  }

  lemma {:induction false} SymbolsDescribe(rules: Rules, enc: Encoding, text: string, f: seq<Tree<Container>>)
    requires forall c :: c in Preorder(f) ==> c.rule in rules
    ensures Describes(rules, enc, text, SymbolForest(rules, enc, text, f), f)
    decreases f
  {
    if f != [] {
      SymbolsDescribe(rules, enc, text, f[0].children);
      SymbolsDescribe(rules, enc, text, f[1..]);
      assert f[0].item in Preorder(f);
      SymbolSays(enc, text, Finished(rules, f[0].item));
      FirstSymbol(rules, enc, text, f);
      DescribesCons(rules, enc, text, SymbolForest(rules, enc, text, f), f);
    }
  }

  lemma {:induction false} FirstSymbol(rules: Rules, enc: Encoding, text: string, f: seq<Tree<Container>>)
    requires f != []
    ensures var s := SymbolForest(rules, enc, text, f);
      && |s| > 0 && s[0].item == SymbolOf(enc, text, Finished(rules, f[0].item))
      && s[0].children == SymbolForest(rules, enc, text, f[0].children)
      && s[1..] == SymbolForest(rules, enc, text, f[1..])
  {
    MappedParts((c: Container) => SymbolOf(enc, text, Finished(rules, c)), f);
  }

  lemma {:induction false} CutDescribes(
    rules: Rules, enc: Encoding, text: string, s: seq<Tree<Symbol>>, g: seq<Tree<Container>>, bound: nat)
    requires Describes(rules, enc, text, s, g)
    ensures Describes(rules, enc, text, Cut(s, bound), Cut(g, bound))
    decreases g
  {
    if g != [] && bound > 0 {
      CutDescribes(rules, enc, text, s[0].children, g[0].children, bound - 1);
      CutDescribes(rules, enc, text, s[1..], g[1..], bound);
      DescribesCons(rules, enc, text, Cut(s, bound), Cut(g, bound));
    }
  }

  lemma {:induction false} DescribesCons(
    rules: Rules, enc: Encoding, text: string, s: seq<Tree<Symbol>>, g: seq<Tree<Container>>)
    requires |s| > 0 && |g| > 0 && g[0].item.rule in rules
    requires Says(enc, text, s[0].item, rules[g[0].item.rule], g[0].item.o0, EndOf(g[0].item))
    requires Describes(rules, enc, text, s[0].children, g[0].children)
    requires Describes(rules, enc, text, s[1..], g[1..])
    ensures Describes(rules, enc, text, s, g)
  {
  }

  lemma {:induction false} CutSymbols(rules: Rules, enc: Encoding, text: string, f: seq<Tree<Container>>, bound: nat)
    requires f != [] && bound > 0
    ensures var s, g := Cut(SymbolForest(rules, enc, text, f), bound), Cut(f, bound);
      && |s| > 0 && s[0].item == SymbolOf(enc, text, Finished(rules, f[0].item))
      && s[0].children == Cut(SymbolForest(rules, enc, text, f[0].children), bound - 1)
      && s[1..] == Cut(SymbolForest(rules, enc, text, f[1..]), bound)
      && |g| > 0 && g[0].item == f[0].item
      && g[0].children == Cut(f[0].children, bound - 1) && g[1..] == Cut(f[1..], bound)
  {
    MappedParts((c: Container) => SymbolOf(enc, text, Finished(rules, c)), f);
  }

  /** The outline is a left inverse of flattening: whatever order the containers of a strictly
      nested forest open and close in, each open before its close, the outline of the events is
      that forest cut off below 256 levels, each symbol saying what its container is; and the whole
      of it when it has no more levels. */
  lemma {:induction false} OutlineInvertsFlattening(
    rules: Rules, events: seq<RuleEvent>, enc: Encoding, text: string, f: seq<Tree<Container>>,
    opens: seq<nat>, closes: seq<nat>)
    requires IsTrace(rules, events, Preorder(f), opens, closes)
    requires I.NestsStrictly(Spans(f))
    ensures Describes(rules, enc, text, OutlineOf(rules, events, enc, text), Cut(f, 256))
    ensures Height(f) <= 256 ==> Describes(rules, enc, text, OutlineOf(rules, events, enc, text), f)
  {
    SpansNest(rules, enc, text, f);
    SpanForestFacts(rules, enc, text, f);
    AllContainersClose(rules, events, enc, text, Preorder(f), opens, closes);
    I.NestInvertsFlattening(SpanForest(rules, enc, text, f),
                            AllSpanned(enc, text, AllClosed(rules, events, |events|)), MAX_OUTLINE_DEPTH);
    RulesAreNamed(rules, events, Preorder(f), opens, closes);
    SymbolsDescribe(rules, enc, text, f);
    CutDescribes(rules, enc, text, SymbolForest(rules, enc, text, f), f, MAX_OUTLINE_DEPTH);
    if Height(f) <= MAX_OUTLINE_DEPTH {
      CutWhole(f, MAX_OUTLINE_DEPTH);
    }
  }

  lemma {:induction false} RulesAreNamed(
    rules: Rules, events: seq<RuleEvent>, cs: seq<Container>, opens: seq<nat>, closes: seq<nat>)
    requires IsTrace(rules, events, cs, opens, closes)
    ensures forall c :: c in cs ==> c.rule in rules
  {
    forall k | 0 <= k < |cs| ensures cs[k].rule in rules {
      assert Closes(rules, events[closes[k]], cs[k]);
    }
  }
}
