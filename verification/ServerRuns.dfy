/** What the client sees of the server in every run (rs/src/server.rs): which documents show
    diagnostics, when they show none, and what a passed deadline brings. */
module ServerRuns {
  import opened Wrappers
  import opened Text
  import opened Server

  // ---------------------------------------------------------------------------------------
  // What the client sees.

  predicate Routed(c: Config, s: State, u: Uri) {
    u in s.docs && c.routes(s.tier, s.docs[u].lang, u)
  }

  /** What every step keeps, document by document: only an open one is cached, pending or shown;
      the server remembers exactly the ones that show something; one that shows diagnostics but
      that nothing routes any more is about to be looked at; and one that is not pending was last
      analyzed as it is. */
  ghost predicate InvAt(c: Config, s: State, u: Uri) {
    && (u in s.analyses || u in s.pending || u in s.published ==> u in s.docs)
    && (u in s.published <==> Shown(s.pushes, u) != [])
    && (u in s.published && u !in s.pending ==> Routed(c, s, u))
    && (u in s.docs && u !in s.pending ==> u in s.attempted && s.attempted[u] == s.docs[u].text)
  }

  /** One due document, taken off the pending ones and analyzed. */
  function Taken(c: Config, s: State, u: Uri, outcome: Outcome): State {
    Analyzed(c, s.(pending := s.pending - {u}), u, outcome)
  }

  /** Two states agree about a document. */
  predicate Agree(s: State, r: State, w: Uri) {
    && r.docs == s.docs && r.tier == s.tier
    && (w in r.pending <==> w in s.pending)
    && (w in r.published <==> w in s.published)
    && (w in r.attempted <==> w in s.attempted)
    && (w in s.attempted ==> r.attempted[w] == s.attempted[w])
    && (w in r.analyses <==> w in s.analyses)
    && (w in s.analyses ==> r.analyses[w] == s.analyses[w])
    && Shown(r.pushes, w) == Shown(s.pushes, w)
  }

  lemma {:induction false} PushedElsewhere(s: State, u: Uri, version: Option<int>, d: seq<Diagnostic>, w: Uri)
    requires u != w
    ensures Agree(s, Pushed(s, u, version, d), w)
  {
    ShownAfter(s.pushes, Push(u, version, d), w);
  }

  lemma {:induction false} CachesElsewhere(s: State, u: Uri, text: string, version: int, cache: Caching, w: Uri)
    requires u != w
    ensures Agree(s, s.(pending := s.pending - {u}, attempted := s.attempted[u := text],
                        analyses := Recached(s, u, version, cache)), w)
  {
  }

  /** An analysis says nothing about any other document. */
  lemma {:induction false} TakenElsewhere(c: Config, s: State, u: Uri, outcome: Outcome, w: Uri)
    requires u != w
    ensures Agree(s, Taken(c, s, u, outcome), w)
  {
    if u in s.docs {
      var doc, a := s.docs[u], s.(pending := s.pending - {u});
      var j := Judged(c, a, u, outcome);
      var b := a.(attempted := a.attempted[u := doc.text], analyses := Recached(s, u, doc.version, j.cache));
      CachesElsewhere(s, u, doc.text, doc.version, j.cache, w);
      if j.push.Some? {
        PushedElsewhere(b, u, Some(doc.version), j.push.value, w);
      }
    }
  }

  /** What the client shows for an open document once it is analyzed. */
  function Verdict(c: Config, s: State, u: Uri, outcome: Outcome): seq<Diagnostic>
    requires u in s.docs
  {
    if !Routed(c, s, u) then []
    else if c.limit.Some? && ByteLen(s.docs[u].text) > c.limit.value then [c.tooLarge]
    else if outcome.Finished? then outcome.diagnostics
    else Shown(s.pushes, u)
  }

  lemma {:induction false} TakenShows(c: Config, s: State, u: Uri, outcome: Outcome)
    requires InvAt(c, s, u) && u in s.docs
    ensures var r := Taken(c, s, u, outcome);
            && r.docs == s.docs && r.tier == s.tier && u !in r.pending
            && r.attempted == s.attempted[u := s.docs[u].text]
            && Shown(r.pushes, u) == Verdict(c, s, u, outcome)
            && (u in r.published <==> Verdict(c, s, u, outcome) != [])
  {
    var j := Judged(c, s.(pending := s.pending - {u}), u, outcome);
    if j.push.Some? {
      ShownAfter(s.pushes, Push(u, Some(s.docs[u].version), j.push.value), u);
    }
  }

  /** Whatever the analysis of a due document comes to. */
  lemma {:induction false} TakenKeepsInv(c: Config, s: State, u: Uri, outcome: Outcome, w: Uri)
    requires InvAt(c, s, w)
    ensures InvAt(c, Taken(c, s, u, outcome), w)
  {
    if u != w {
      TakenElsewhere(c, s, u, outcome, w);
    } else if u in s.docs {
      TakenShows(c, s, u, outcome);
    }
  }

  /** Whatever message comes, in any order. */
  lemma {:induction false} HandledKeepsInv(c: Config, s: State, m: Message, now: Time, w: Uri)
    requires InvAt(c, s, w)
    ensures InvAt(c, Handled(c, s, m, now), w)
  {
    match m
    case DidOpen(_, _, _, _) =>
    case DidChange(_, _, _) =>
    case DidClose(uri) => ShownAfter(s.pushes, Push(uri, None, []), w);
    case DidChangeWatchedFiles(watched) => ReloadedKeepsInv(c, s, watched, now, w);
    case _ =>
  }

  lemma {:induction false} ReloadedKeepsInv(c: Config, s: State, watched: Watched, now: Time, w: Uri)
    requires InvAt(c, s, w)
    ensures InvAt(c, Reloaded(c, s, watched, now), w)
  {
  }

  lemma {:induction false} AnalyzedAllKeepsInv(c: Config, s: State, due: seq<Uri>, outcomes: Uri -> Outcome, w: Uri)
    requires InvAt(c, s, w)
    ensures InvAt(c, AnalyzedAll(c, s, due, outcomes), w)
    decreases |due|
  {
    if due != [] {
      TakenKeepsInv(c, s, due[0], outcomes(due[0]), w);
      AnalyzedAllKeepsInv(c, Taken(c, s, due[0], outcomes(due[0])), due[1..], outcomes, w);
    }
  }

  lemma {:induction false} RunKeepsInv(c: Config, s: State, ts: seq<Turn>, w: Uri)
    requires InvAt(c, s, w)
    ensures InvAt(c, Ran(c, s, ts), w)
    decreases |ts|
  {
    if ts != [] {
      if !s.exited {
        var t := ts[0];
        var due := Due(s.pending, t.now);
        AnalyzedAllKeepsInv(c, s, due, t.outcomes, w);
        if t.message.Some? {
          HandledKeepsInv(c, AnalyzedAll(c, s, due, t.outcomes), t.message.value, t.received, w);
        }
      }
      RunKeepsInv(c, Turned(c, s, ts[0]), ts[1..], w);
    }
  }

  /** After any run at all: what shows is open and remembered; and once nothing is pending,
      whatever no language routes shows nothing, and every open document was last analyzed with
      the text it has. */
  lemma {:induction false} WhatTheClientSees(c: Config, tier: Tier, ts: seq<Turn>, u: Uri)
    ensures var s := Ran(c, Initialized(tier), ts);
            && (Shown(s.pushes, u) != [] <==> u in s.published)
            && (Shown(s.pushes, u) != [] ==> u in s.docs)
            && (Shown(s.pushes, u) != [] && u !in s.pending ==> Routed(c, s, u))
            && (u in s.docs && u !in s.pending ==> u in s.attempted && s.attempted[u] == s.docs[u].text)
  {
    RunKeepsInv(c, Initialized(tier), ts, u);
  }

  // ---------------------------------------------------------------------------------------
  // Documents that are closed.

  /** A push of this step: for an open document, about the version it has, or nothing to show. */
  predicate Honest(s: State, p: Push) {
    p.diagnostics == [] || (p.uri in s.docs && p.version == Some(s.docs[p.uri].version))
  }

  /** What the pushes from the `n`th on say about a document. */
  predicate SilentFrom(pushes: seq<Push>, n: nat, u: Uri) {
    forall i :: n <= i < |pushes| && pushes[i].uri == u ==> pushes[i].diagnostics == []
  }

  lemma {:induction false} AnalyzedAllIsHonest(c: Config, s: State, due: seq<Uri>, outcomes: Uri -> Outcome)
    ensures var r := AnalyzedAll(c, s, due, outcomes);
            && r.docs == s.docs && r.tier == s.tier
            && s.pushes <= r.pushes
            && forall i :: |s.pushes| <= i < |r.pushes| ==> Honest(s, r.pushes[i])
    decreases |due|
  {
    if due != [] {
      AnalyzedAllIsHonest(c, Taken(c, s, due[0], outcomes(due[0])), due[1..], outcomes);
    }
  }

  lemma {:induction false} HandledIsHonest(c: Config, s: State, m: Message, now: Time, u: Uri)
    ensures var r := Handled(c, s, m, now);
            && (r.pushes == s.pushes || exists p: Push :: r.pushes == s.pushes + [p] && p.diagnostics == [])
            && (u in r.docs && u !in s.docs ==> m.DidOpen? && m.uri == u)
  {
    if m.DidClose? {
      assert Handled(c, s, m, now).pushes == s.pushes + [Push(m.uri, None, [])];
    }
  }

  predicate Opens(t: Turn, u: Uri) {
    t.message.Some? && t.message.value.DidOpen? && t.message.value.uri == u
  }

  /** A turn pushes diagnostics only for the documents open when it starts, stamped with the
      version they were made from; and only `didOpen` opens a document. */
  lemma {:induction false} TurnIsHonest(c: Config, s: State, t: Turn, u: Uri)
    ensures var r := Turned(c, s, t);
            && s.pushes <= r.pushes
            && (forall i :: |s.pushes| <= i < |r.pushes| ==> Honest(s, r.pushes[i]))
            && (u in r.docs && u !in s.docs ==> Opens(t, u))
  {
    if !s.exited {
      AnalyzedAllIsHonest(c, s, Due(s.pending, t.now), t.outcomes);
      if t.message.Some? {
        HandledIsHonest(c, AnalyzedAll(c, s, Due(s.pending, t.now), t.outcomes), t.message.value, t.received, u);
      }
    }
  }

  /** Nothing is shown for a closed document until it is opened again, whatever else happens. */
  lemma {:induction false} ClosedStaysSilent(c: Config, s: State, ts: seq<Turn>, u: Uri)
    requires u !in s.docs
    requires forall i :: 0 <= i < |ts| ==> !Opens(ts[i], u)
    ensures var r := Ran(c, s, ts);
            u !in r.docs && s.pushes <= r.pushes && SilentFrom(r.pushes, |s.pushes|, u)
    decreases |ts|
  {
    if ts != [] {
      TurnIsHonest(c, s, ts[0], u);
      ClosedStaysSilent(c, Turned(c, s, ts[0]), ts[1..], u);
    }
  }

  // ---------------------------------------------------------------------------------------
  // What is due.

  predicate Distinct(us: seq<Uri>) {
    forall i, j :: 0 <= i < j < |us| ==> us[i] != us[j]
  }

  /** The documents due are exactly those whose deadline has passed, each once, earliest first. */
  lemma {:induction false} DueIsExact(pending: map<Uri, Time>, now: Time)
    ensures forall u: Uri :: u in Due(pending, now) <==> u in pending && pending[u] <= now
    ensures Distinct(Due(pending, now))
    ensures var due := Due(pending, now);
            forall i, j :: 0 <= i < j < |due| ==> Earlier(pending, due[i], due[j])
    decreases |pending|
  {
    if some: Uri :| some in pending && pending[some] <= now {
      var u := NextDueExists(pending, now, some);
      NextDueUnique(pending, now, u);
      DueIsExact(pending - {u}, now);
    }
  }

  lemma {:induction false} AnalyzedAllPending(c: Config, s: State, due: seq<Uri>, outcomes: Uri -> Outcome, w: Uri)
    ensures w in AnalyzedAll(c, s, due, outcomes).pending <==> w in s.pending && w !in due
    decreases |due|
  {
    if due != [] {
      AnalyzedAllPending(c, Taken(c, s, due[0], outcomes(due[0])), due[1..], outcomes, w);
    }
  }

  /** Each document analyzed shows the verdict on the text it has, whatever the order. */
  lemma {:induction false} AnalyzedAllShows(c: Config, s: State, due: seq<Uri>, outcomes: Uri -> Outcome, w: Uri)
    requires InvAt(c, s, w) && w in s.docs
    requires Distinct(due)
    ensures Shown(AnalyzedAll(c, s, due, outcomes).pushes, w) ==
            if w in due then Verdict(c, s, w, outcomes(w)) else Shown(s.pushes, w)
    decreases |due|
  {
    if due != [] {
      var a := Taken(c, s, due[0], outcomes(due[0]));
      TakenKeepsInv(c, s, due[0], outcomes(due[0]), w);
      if due[0] == w {
        TakenShows(c, s, w, outcomes(w));
      } else {
        TakenElsewhere(c, s, due[0], outcomes(due[0]), w);
      }
      AnalyzedAllShows(c, a, due[1..], outcomes, w);
    }
  }

  /** In the state any run leaves, a turn settles exactly the documents whose deadline has passed:
      they are pending no more and show the verdict on their text, and every other stays pending
      if it was and shows what it did. Once all deadlines have passed nothing is pending. */
  lemma {:induction false} DeadlinesSettle(c: Config, tier: Tier, ts: seq<Turn>, t: Turn, u: Uri)
    requires var s := Ran(c, Initialized(tier), ts);
             !s.exited && u in s.docs && t.message.None?
    ensures var s := Ran(c, Initialized(tier), ts);
            var r := Turned(c, s, t);
            var settled := u in s.pending && s.pending[u] <= t.now;
            && (u in r.pending <==> u in s.pending && !settled)
            && Shown(r.pushes, u) == (if settled then Verdict(c, s, u, t.outcomes(u)) else Shown(s.pushes, u))
            && ((forall w :: w in s.pending ==> s.pending[w] <= t.now) ==> r.pending == map[])
  {
    var s := Ran(c, Initialized(tier), ts);
    RunKeepsInv(c, Initialized(tier), ts, u);
    var due := Due(s.pending, t.now);
    DueIsExact(s.pending, t.now);
    AnalyzedAllShows(c, s, due, t.outcomes, u);
    forall w: Uri
      ensures w in Turned(c, s, t).pending <==> w in s.pending && s.pending[w] > t.now
    {
      AnalyzedAllPending(c, s, due, t.outcomes, w);
    }
  }
}
