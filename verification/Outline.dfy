/** The outline of a document from one parse's rule events (rs/src/outline.rs, `outline`).

    Open and close events are paired by rule index, each pair becomes a symbol with the span
    from its open token to its end token, and the symbols nest by containment. */
module Outline {
  import opened Wrappers
  import opened Text
  import opened Forest
  import opened Nesting
  import T = Trace
  import C = Columns
  import D = Documents
  import Sorting

  datatype Pass = Open | Close

  datatype RuleEvent = RuleEvent(
    i: nat, name: string, pass: Pass, forced: bool, o0: Option<T.TokenPoint>, c0: Option<T.TokenPoint>)

  /** Rule names to symbol labels. */
  type Rules = map<string, string>

  /** A symbol's label, its open token and its end token. */
  datatype Closed = Closed(name: string, open: T.TokenPoint, end: T.TokenPoint)

  /** A document symbol apart from its children. */
  datatype Symbol = Symbol(name: string, kind: nat, range: D.Range, selection: D.Range)

  const SYMBOL_KIND_ARRAY := 18
  const SYMBOL_KIND_OBJECT := 19
  const MAX_OUTLINE_DEPTH := 256

  function SymbolKind(name: string): nat {
    if name == "Array" then SYMBOL_KIND_ARRAY else SYMBOL_KIND_OBJECT
  }

  // ---------------------------------------------------------------------------------------
  // Pairing.

  /** The open token rule `i` is waiting to be closed with after the first `n` events: that of
      its last open event with a token, unless a close came after it. */
  function OpenOf(rules: Rules, events: seq<RuleEvent>, n: nat, i: nat): Option<T.TokenPoint>
    requires n <= |events|
  {
    if n == 0 then None
    else
      var e := events[n - 1];
      if e.name in rules && e.i == i && e.pass == Close then None
      else if e.name in rules && e.i == i && e.o0.Some? then e.o0
      else OpenOf(rules, events, n - 1, i)
  }

  /** What event `n` closes, if anything: a forced close without a token ends its symbol at the
      open token. */
  function ClosedAt(rules: Rules, events: seq<RuleEvent>, n: nat): Option<Closed>
    requires n < |events|
  {
    var e := events[n];
    if e.name !in rules || e.pass == Open then None
    else
      match OpenOf(rules, events, n, e.i)
      case None => None
      case Some(o0) =>
        if e.c0.Some? then Some(Closed(rules[e.name], o0, e.c0.value))
        else if e.forced then Some(Closed(rules[e.name], o0, o0))
        else None
  }

  /** Everything the first `n` events close, in close order. */
  function AllClosed(rules: Rules, events: seq<RuleEvent>, n: nat): seq<Closed>
    requires n <= |events|
  {
    if n == 0 then []
    else
      AllClosed(rules, events, n - 1)
      + match ClosedAt(rules, events, n - 1) case None => [] case Some(c) => [c]
  }

  /** Pair the events with a map of the rules still open. */
  method Pair(rules: Rules, events: seq<RuleEvent>) returns (closed: seq<Closed>)
    ensures closed == AllClosed(rules, events, |events|)
  {
    var open: map<nat, T.TokenPoint> := map[];
    closed := [];
    for n := 0 to |events|
      invariant closed == AllClosed(rules, events, n)
      invariant forall i: nat :: (i in open) == OpenOf(rules, events, n, i).Some?
      invariant forall i: nat :: i in open ==> open[i] == OpenOf(rules, events, n, i).value
    {
      var e := events[n];
      if e.name !in rules {
        continue;
      }
      if e.pass == Open {
        if e.o0.Some? {
          open := open[e.i := e.o0.value];
        }
      } else if e.i in open {
        var o0 := open[e.i];
        open := open - {e.i};
        if e.c0.Some? {
          closed := closed + [Closed(rules[e.name], o0, e.c0.value)];
        } else if e.forced {
          closed := closed + [Closed(rules[e.name], o0, o0)];
        }
      }
    }
  }

  // ---------------------------------------------------------------------------------------
  // Symbols.

  function SiteOf(enc: Encoding, text: string, t: T.TokenPoint): D.Position {
    D.SitePosition(enc, text, Floor(text, t.si), t.ri, t.ci)
  }

  /** The symbol of a closed rule whose tokens are at `start` and `end`: to the end of its end
      token, never less than one unit long. */
  function MakeSymbol(enc: Encoding, c: Closed, start: D.Position, end: D.Position): Symbol {
    var len := Width(enc, c.end.src, |c.end.src|);
    Symbol(c.name, SymbolKind(c.name),
           D.Range(start, D.Position(end.line, end.character + if len < 1 then 1 else len)),
           D.Range(start, start))
  }

  function SymbolOf(enc: Encoding, text: string, c: Closed): Symbol {
    MakeSymbol(enc, c, SiteOf(enc, text, c.open), SiteOf(enc, text, c.end))
  }

  function SpannedOf(enc: Encoding, text: string, c: Closed): Spanned<Symbol> {
    Spanned(SymbolOf(enc, text, c), c.open.si, c.end.si)
  }

  function AllSpanned(enc: Encoding, text: string, cs: seq<Closed>): (r: seq<Spanned<Symbol>>)
    ensures |r| == |cs| && forall k :: 0 <= k < |cs| ==> r[k] == SpannedOf(enc, text, cs[k])
  {
    MapSeq((c: Closed) => SpannedOf(enc, text, c), cs)
  }

  /** The outline the source promises: the symbols of the closed rules, each under the last
      earlier symbol in sorted order that contains it, down to the depth bound. */
  ghost function OutlineOf(rules: Rules, events: seq<RuleEvent>, enc: Encoding, text: string): seq<Tree<Symbol>> {
    Outlined(SortSpans(AllSpanned(enc, text, AllClosed(rules, events, |events|))), MAX_OUTLINE_DEPTH)
  }

  /** The `x`th token to position: the open and end tokens of each closed rule in turn. */
  function TokenAt(closed: seq<Closed>, x: nat): T.TokenPoint
    requires x < 2 * |closed|
  {
    if x % 2 == 0 then closed[x / 2].open else closed[x / 2].end
  }

  datatype Site = Site(slot: nat, token: T.TokenPoint)

  ghost predicate SitesOf(closed: seq<Closed>, sites: seq<Site>) {
    && (forall x :: 0 <= x < |sites| ==>
         sites[x].slot < 2 * |closed| && sites[x].token == TokenAt(closed, sites[x].slot))
    && (forall slot :: 0 <= slot < 2 * |closed| ==> Site(slot, TokenAt(closed, slot)) in sites)
  }

  predicate SiteBefore(a: Site, b: Site) {
    a.token.si <= b.token.si
  }

  lemma {:induction false} SortedSites(closed: seq<Closed>, sites: seq<Site>)
    requires SitesOf(closed, sites)
    ensures SitesOf(closed, Sorting.StableSort(SiteBefore, sites))
  {
    var r := Sorting.StableSort(SiteBefore, sites);
    forall x | 0 <= x < |r| ensures r[x].slot < 2 * |closed| && r[x].token == TokenAt(closed, r[x].slot) {
      assert r[x] in multiset(r);
      assert r[x] in sites;
    }
    forall slot | 0 <= slot < 2 * |closed| ensures Site(slot, TokenAt(closed, slot)) in r {
      assert Site(slot, TokenAt(closed, slot)) in multiset(sites);
    }
  }

  lemma {:induction false} TokensOf(closed: seq<Closed>, n: nat)
    requires n < |closed|
    ensures TokenAt(closed, 2 * n) == closed[n].open && TokenAt(closed, 2 * n + 1) == closed[n].end
  {
  }

  /** The tokens to position, each with the slot its position goes in. */
  method Sites(closed: seq<Closed>) returns (sites: seq<Site>)
    ensures SitesOf(closed, sites)
  {
    sites := [];
    for n := 0 to |closed|
      invariant |sites| == 2 * n
      invariant forall x :: 0 <= x < 2 * n ==> sites[x] == Site(x, TokenAt(closed, x))
    {
      TokensOf(closed, n);
      sites := sites + [Site(2 * n, closed[n].open), Site(2 * n + 1, closed[n].end)];
    }
    forall slot | 0 <= slot < 2 * |closed| ensures Site(slot, TokenAt(closed, slot)) in sites {
      assert sites[slot] == Site(slot, TokenAt(closed, slot));
    }
  }

  ghost predicate Positioned(enc: Encoding, text: string, sites: seq<Site>, n: nat, positions: seq<D.Position>)
    requires n <= |sites|
  {
    forall y :: 0 <= y < n ==>
      sites[y].slot < |positions| && positions[sites[y].slot] == SiteOf(enc, text, sites[y].token)
  }

  lemma {:induction false} PositionedStep(
    enc: Encoding, text: string, closed: seq<Closed>, sites: seq<Site>, n: nat, positions: seq<D.Position>,
    p: D.Position)
    requires SitesOf(closed, sites) && n < |sites| && |positions| == 2 * |closed|
    requires Positioned(enc, text, sites, n, positions) && p == SiteOf(enc, text, sites[n].token)
    ensures Positioned(enc, text, sites, n + 1, positions[sites[n].slot := p])
  {
  }

  /** Measure the tokens in offset order and put each position in its token's slot. */
  method Positions(closed: seq<Closed>, doc: D.Doc) returns (positions: seq<D.Position>)
    requires doc.Valid()
    modifies doc`index
    ensures doc.Valid() && |positions| == 2 * |closed|
    ensures forall x :: 0 <= x < 2 * |closed| ==> positions[x] == SiteOf(doc.enc, doc.text, TokenAt(closed, x))
  {
    var sites := Sites(closed);
    SortedSites(closed, sites);
    sites := Sorting.StableSort(SiteBefore, sites);
    positions := seq(2 * |closed|, _ => D.Position(0, 0));
    var starts := doc.LineStarts();
    var columns := new C.Columns(doc.enc, doc.text);
    for x := 0 to |sites|
      invariant doc.Valid() && columns.Valid() && columns.enc == doc.enc && columns.text == doc.text
      invariant |positions| == 2 * |closed|
      invariant Positioned(doc.enc, doc.text, sites, x, positions)
    {
      var token := sites[x].token;
      var line := if C.Pred(token.ri) < |starts| then C.Pred(token.ri) else |starts| - 1;
      var column := columns.Measure(token.si, token.ci);
      PositionedStep(doc.enc, doc.text, closed, sites, x, positions, D.Position(line, column.units));
      positions := positions[sites[x].slot := D.Position(line, column.units)];
    }
    forall slot | 0 <= slot < 2 * |closed|
      ensures positions[slot] == SiteOf(doc.enc, doc.text, TokenAt(closed, slot))
    {
      var y :| 0 <= y < |sites| && sites[y] == Site(slot, TokenAt(closed, slot));
    }
  }

  /** The symbols of the closed rules, from the positions of their tokens. */
  method Symbols(closed: seq<Closed>, positions: seq<D.Position>, enc: Encoding, ghost text: string)
    returns (symbols: seq<Spanned<Symbol>>)
    requires |positions| == 2 * |closed|
    requires forall x :: 0 <= x < 2 * |closed| ==> positions[x] == SiteOf(enc, text, TokenAt(closed, x))
    ensures symbols == AllSpanned(enc, text, closed)
  {
    symbols := [];
    for n := 0 to |closed|
      invariant |symbols| == n
      invariant forall k :: 0 <= k < n ==> symbols[k] == SpannedOf(enc, text, closed[k])
    {
      var c := closed[n];
      TokensOf(closed, n);
      assert 2 * n + 1 < |positions|;
      assert positions[2 * n] == SiteOf(enc, text, c.open) && positions[2 * n + 1] == SiteOf(enc, text, c.end);
      symbols := symbols + [Spanned(MakeSymbol(enc, c, positions[2 * n], positions[2 * n + 1]), c.open.si, c.end.si)];
    }
  }

  /** `outline`. */
  method BuildOutline(rules: Rules, events: seq<RuleEvent>, doc: D.Doc) returns (forest: seq<Tree<Symbol>>)
    requires doc.Valid()
    modifies doc`index
    ensures doc.Valid() && forest == OutlineOf(rules, events, doc.enc, doc.text)
  {
    var closed := Pair(rules, events);
    var positions := Positions(closed, doc);
    var symbols := Symbols(closed, positions, doc.enc, doc.text);
    forest := Nest(symbols, MAX_OUTLINE_DEPTH);
  }
}
