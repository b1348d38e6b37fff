/** What the symbols of an outline say (rs/src/outline.rs, `outline`): names, kinds, and ranges read
    off the text itself. */
module OutlineFacts {
  import opened Wrappers
  import opened Text
  import opened Forest
  import opened Nesting
  import opened Outline
  import opened Sites
  import C = Columns
  import D = Documents
  import T = Trace

  /** Symbol `s` is for a rule labelled `name`, opened at token `open` and ended at token `end`:
      an array's kind is 18 and any other's 19; nothing of it is selected but its start; and it
      reaches from where the engine places the open token to the end of the end token, never less
      than one unit on. */
  ghost predicate Says(
    enc: Encoding, text: string, s: Symbol, name: string, open: T.TokenPoint, end: T.TokenPoint) {
    && s.name == name && s.kind == (if name == "Array" then 18 else 19)
    && s.selection == D.Range(s.range.start, s.range.start)
    && StartsAt(enc, text, s, open) && EndsAt(enc, text, s, end)
  }

  ghost predicate StartsAt(enc: Encoding, text: string, s: Symbol, open: T.TokenPoint) {
    forall k: nat :: Consistent(text, open, k) ==> s.range.start == EnginePlace(enc, text, k)
  }

  ghost predicate EndsAt(enc: Encoding, text: string, s: Symbol, end: T.TokenPoint) {
    forall j: nat :: Consistent(text, end, j) ==>
      && s.range.end.line == EnginePlace(enc, text, j).line
      && s.range.end.character == EnginePlace(enc, text, j).character
           + if end.src == "" then 1 else Width(enc, end.src, |end.src|)
  }

  lemma {:induction false} SymbolSays(enc: Encoding, text: string, c: Closed)
    ensures Says(enc, text, SymbolOf(enc, text, c), c.name, c.open, c.end)
  {
    forall k: nat | Consistent(text, c.open, k)
      ensures SiteOf(enc, text, c.open) == EnginePlace(enc, text, k)
    {
      SiteIsEnginePlace(enc, text, c.open, k);
    }
    forall k: nat | Consistent(text, c.end, k)
      ensures SiteOf(enc, text, c.end) == EnginePlace(enc, text, k)
    {
      SiteIsEnginePlace(enc, text, c.end, k);
    }
    WidthGrows(enc, c.end.src, 0, |c.end.src|);
  }

  /** In the client's copy the range of a symbol is its source's: when no carriage return restarts
      a column before its tokens and the end token is not empty and on one line, it goes from the
      place of the open token to the end of the end token. */
  lemma {:induction false} RangeIsSource(
    enc: Encoding, text: string, s: Symbol, name: string, open: T.TokenPoint, end: T.TokenPoint, k: nat, j: nat)
    requires Says(enc, text, s, name, open, end)
    requires Consistent(text, open, k) && NoReturnBefore(text, k)
    requires Consistent(text, end, j) && NoReturnBefore(text, j) && end.src != "" && '\n' !in end.src
    ensures s.range == D.Range(D.PositionOf(enc, text, k), D.PositionOf(enc, text, j + |end.src|))
    ensures s.selection == D.Range(D.PositionOf(enc, text, k), D.PositionOf(enc, text, k))
  {
    PlainPlace(enc, text, k);
    PlainPlace(enc, text, j);
    var n := j + |end.src|;
    forall i | j <= i < n ensures text[i] != '\n' {
      assert text[i] == text[j..n][i - j];
    }
    NewlinesGrow(text, j, n);
    SameLineBegin(text, j, n);
    WidthOfSlice(enc, text, j, n);
  }

  // ---------------------------------------------------------------------------------------
  // Every symbol of an outline.

  /** Whatever the events, and however their spans cross, every symbol of the outline is that of
      a rule they close. */
  lemma {:induction false} EverySymbolSays(
    rules: Rules, events: seq<RuleEvent>, enc: Encoding, text: string, x: (Symbol, nat))
    requires x in Flatten(OutlineOf(rules, events, enc, text), 0)
    ensures exists c :: c in AllClosed(rules, events, |events|) && Says(enc, text, x.0, c.name, c.open, c.end)
  {
    var closed := AllClosed(rules, events, |events|);
    var all := AllSpanned(enc, text, closed);
    var s := SortSpans(all);
    SortSpansOrders(all);
    PreorderIsSortedOrder(s, MAX_OUTLINE_DEPTH);
    var k := KeptIsListed(s, MAX_OUTLINE_DEPTH, 0, x);
    assert s[k] in multiset(all);
    var n :| 0 <= n < |all| && all[n] == s[k];
    SymbolSays(enc, text, closed[n]);
  }

  lemma {:induction false} KeptIsListed<I>(s: seq<Spanned<I>>, bound: nat, j: nat, x: (I, nat)) returns (k: nat)
    requires j <= |s| && x in KeptFrom(s, bound, j)
    ensures k < |s| && s[k].item == x.0
    decreases |s| - j
  {
    if Depth(s, j) < bound && x == (s[j].item, Depth(s, j)) {
      k := j;
    } else {
      k := KeptIsListed(s, bound, j + 1, x);
    }
  }
}
