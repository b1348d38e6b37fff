/** What each message does to each document (rs/src/server.rs, `handle`), and what follows over runs
    (`did_change_watched_files`, `run_analysis`): a reloaded grammar is looked at again, a rebuilt
    tier serves nothing old, and a finished analysis is what is served next. */
module ServerLaws {
  import opened Wrappers
  import opened Text
  import opened Server
  import opened ServerRuns
  import D = Documents

  // ---------------------------------------------------------------------------------------
  // Message by message, document by document.

  /** The message gives an open document a new deadline. */
  predicate Reschedules(s: State, m: Message, u: Uri) {
    match m
    case DidOpen(uri, _, _, _) => uri == u
    case DidChange(uri, _, _) => uri == u && u in s.docs
    case DidChangeWatchedFiles(Manifest(_)) => u in s.docs
    case DidChangeWatchedFiles(Grammars(serves)) => u in s.docs && serves(s.docs[u].lang, u)
    case _ => false
  }

  /** The message makes what is cached for the document useless. */
  predicate Outdates(s: State, m: Message, u: Uri) {
    match m
    case DidChange(uri, _, _) => uri == u && u in s.docs
    case DidClose(uri) => uri == u
    case DidChangeWatchedFiles(Manifest(_)) => u in s.docs
    case _ => false
  }

  /** Its deadline is the debounce after the message that gave it one, and `didClose` takes it
      away. */
  lemma {:induction false} MessageSchedules(c: Config, s: State, m: Message, now: Time, u: Uri)
    ensures var r := Handled(c, s, m, now);
      && (u in r.pending <==> Reschedules(s, m, u) || (u in s.pending && m != DidClose(u)))
      && (u in r.pending ==> r.pending[u] == if Reschedules(s, m, u) then now + c.debounce else s.pending[u])
  {
    if m.DidChangeWatchedFiles? { FilesReschedule(c, s, m.watched, now, u); }
  }

  lemma {:induction false} FilesReschedule(c: Config, s: State, w: Watched, now: Time, u: Uri)
    ensures var r, again := Reloaded(c, s, w, now), Reschedules(s, DidChangeWatchedFiles(w), u);
      && (u in r.pending <==> again || u in s.pending)
      && (u in r.pending ==> r.pending[u] == if again then now + c.debounce else s.pending[u])
  {
  }

  /** Which document it is: as the client opened it, with the client's version and its edits made
      in order, until the client closes it. */
  lemma {:induction false} MessageDocuments(c: Config, s: State, m: Message, now: Time, u: Uri)
    ensures var r := Handled(c, s, m, now);
      match m
      case DidOpen(uri, lang, version, text) =>
        if uri == u then u in r.docs && r.docs[u] == Doc(lang, version, text) else SameDoc(s, r, u)
      case DidChange(uri, version, changes) =>
        if uri == u && u in s.docs then
          u in r.docs && r.docs[u] == Doc(s.docs[u].lang, version, D.AppliedAll(c.enc, s.docs[u].text, changes))
        else SameDoc(s, r, u)
      case DidClose(uri) => if uri == u then u !in r.docs else SameDoc(s, r, u)
      case _ => SameDoc(s, r, u)
  {
  }

  predicate SameDoc(s: State, r: State, u: Uri) {
    (u in r.docs <==> u in s.docs) && (u in s.docs ==> r.docs[u] == s.docs[u])
  }

  /** What is cached for it stays, unless the message outdates it. */
  lemma {:induction false} MessageCaches(c: Config, s: State, m: Message, now: Time, u: Uri)
    ensures var r := Handled(c, s, m, now);
      && (u in r.analyses <==> u in s.analyses && !Outdates(s, m, u))
      && (u in r.analyses ==> r.analyses[u] == s.analyses[u])
  {
  }

  /** The rest: only `didClose` pushes, once and nothing to show; only a manifest changes the tier;
      and only `shutdown` and `exit` are remembered. */
  lemma {:induction false} MessageRest(c: Config, s: State, m: Message, now: Time)
    ensures var r := Handled(c, s, m, now);
      && r.pushes == s.pushes + (if m.DidClose? then [Push(m.uri, None, [])] else [])
      && r.published == s.published - (if m.DidClose? then {m.uri} else {})
      && r.tier == (if m.DidChangeWatchedFiles? && m.watched.Manifest? then m.watched.tier else s.tier)
      && (r.shutdown <==> s.shutdown || m.Shutdown?) && (r.exited <==> s.exited || m.Exit?)
      && r.attempted == s.attempted
  {
  }

  // ---------------------------------------------------------------------------------------
  // One analysis.

  /** What an analysis of an open document pushes: at most once, and nothing for a document that no
      language routes and that shows nothing. */
  lemma {:induction false} TakenPushes(c: Config, s: State, u: Uri, outcome: Outcome)
    requires u in s.docs
    ensures var version := Some(s.docs[u].version);
      Taken(c, s, u, outcome).pushes == s.pushes +
        if !Routed(c, s, u) then (if u in s.published then [Push(u, version, [])] else [])
        else if TooLarge(c, s, u) then [Push(u, version, [c.tooLarge])]
        else if outcome.Finished? then [Push(u, version, outcome.diagnostics)]
        else []
  {
  }

  predicate TooLarge(c: Config, s: State, u: Uri)
    requires u in s.docs
  {
    c.limit.Some? && ByteLen(s.docs[u].text) > c.limit.value
  }

  /** What is served for a document after its analysis: the new one if the parse finished without
      failing, nothing if it is too large, and what was served before in every other case. */
  function Answer(c: Config, s: State, u: Uri, outcome: Outcome): Option<Analysis>
    requires u in s.docs
  {
    if !Routed(c, s, u) then Current(s, u)
    else if TooLarge(c, s, u) then None
    else if outcome.Finished? && !outcome.failed then Some(Analysis(s.docs[u].text, outcome.diagnostics))
    else Current(s, u)
  }

  lemma {:induction false} TakenServes(c: Config, s: State, u: Uri, outcome: Outcome)
    requires u in s.docs
    ensures Current(Taken(c, s, u, outcome), u) == Answer(c, s, u, outcome)
  {
  }

  lemma {:induction false} AnalyzedAllServes(
    c: Config, s: State, due: seq<Uri>, outcomes: Uri -> Outcome, w: Uri)
    requires w in s.docs && Distinct(due)
    ensures Current(AnalyzedAll(c, s, due, outcomes), w) ==
            if w in due then Answer(c, s, w, outcomes(w)) else Current(s, w)
    decreases |due|
  {
    if due != [] {
      var a := Taken(c, s, due[0], outcomes(due[0]));
      if due[0] == w {
        TakenServes(c, s, w, outcomes(w));
        TakenShape(c, s, w, outcomes(w));
      } else {
        TakenElsewhere(c, s, due[0], outcomes(due[0]), w);
      }
      AnalyzedAllServes(c, a, due[1..], outcomes, w);
    }
  }

  lemma {:induction false} TakenShape(c: Config, s: State, u: Uri, outcome: Outcome)
    ensures Taken(c, s, u, outcome).docs == s.docs && Taken(c, s, u, outcome).tier == s.tier
  {
  }

  // ---------------------------------------------------------------------------------------
  // Over runs.

  lemma {:induction false} RanOneMore(c: Config, s: State, ts: seq<Turn>, t: Turn)
    ensures Ran(c, s, ts + [t]) == Turned(c, Ran(c, s, ts), t)
    decreases |ts|
  {
    if ts == [] {
      assert ts + [t] == [t] && [t][1..] == [];
    } else {
      assert (ts + [t])[0] == ts[0] && (ts + [t])[1..] == ts[1..] + [t];
      RanOneMore(c, Turned(c, s, ts[0]), ts[1..], t);
    }
  }

  /** The state a turn's message meets, document by document: what was due is pending no more. */
  lemma {:induction false} MeetsMessage(c: Config, s: State, t: Turn, u: Uri)
    ensures var a := AnalyzedAll(c, s, Due(s.pending, t.now), t.outcomes);
      && a.docs == s.docs && a.tier == s.tier
      && (u in a.pending <==> u in s.pending && s.pending[u] > t.now)
      && (u in a.pending ==> a.pending[u] == s.pending[u])
  {
    var due := Due(s.pending, t.now);
    DueIsExact(s.pending, t.now);
    AnalyzedAllIsHonest(c, s, due, t.outcomes);
    AnalyzedAllPending(c, s, due, t.outcomes, u);
    AnalyzedAllDeadline(c, s, due, t.outcomes, u);
  }

  lemma {:induction false} AnalyzedAllDeadline(
    c: Config, s: State, due: seq<Uri>, outcomes: Uri -> Outcome, w: Uri)
    ensures var a := AnalyzedAll(c, s, due, outcomes);
      w in a.pending ==> w in s.pending && a.pending[w] == s.pending[w]
    decreases |due|
  {
    if due != [] { AnalyzedAllDeadline(c, Taken(c, s, due[0], outcomes(due[0])), due[1..], outcomes, w); }
  }

  /** Pending documents after a turn that reports changed files: those the change concerns have the
      debounce to go, and every other is pending with the deadline it had, unless that passed. */
  lemma {:induction false} FilesSchedule(c: Config, s: State, t: Turn, w: Watched, u: Uri)
    requires !s.exited && t.message == Some(DidChangeWatchedFiles(w))
    ensures var r := Turned(c, s, t);
      var concerned := u in s.docs && (w.Manifest? || (w.Grammars? && w.serves(s.docs[u].lang, u)));
      && r.docs == s.docs && r.exited == s.exited
      && r.tier == (if w.Manifest? then w.tier else s.tier)
      && (u in r.pending <==> concerned || (u in s.pending && s.pending[u] > t.now))
      && (u in r.pending ==> r.pending[u] == if concerned then t.received + c.debounce else s.pending[u])
  {
    var a := AnalyzedAll(c, s, Due(s.pending, t.now), t.outcomes);
    MeetsMessage(c, s, t, u);
    MessageSchedules(c, a, t.message.value, t.received, u);
    MessageRest(c, a, t.message.value, t.received);
    StillRunning(c, s, Due(s.pending, t.now), t.outcomes);
    forall v: Uri ensures SameDoc(s, Turned(c, s, t), v) {
      MessageDocuments(c, a, t.message.value, t.received, v);
    }
  }

  lemma {:induction false} StillRunning(c: Config, s: State, due: seq<Uri>, outcomes: Uri -> Outcome)
    ensures AnalyzedAll(c, s, due, outcomes).exited == s.exited
    decreases |due|
  {
    if due != [] { StillRunning(c, Taken(c, s, due[0], outcomes(due[0])), due[1..], outcomes); }
  }

  /** A grammar file changed on disk: in the state any run leaves, every open document it serves is
      pending a debounce later, and a turn at or past that time shows the verdict on its text. */
  lemma {:induction false} GrammarIsLookedAtAgain(
    c: Config, tier: Tier, ts: seq<Turn>, t: Turn, serves: (Lang, Uri) -> bool, later: Turn, u: Uri)
    requires !Ran(c, Initialized(tier), ts).exited
    requires t.message == Some(DidChangeWatchedFiles(Grammars(serves)))
    requires later.message == None && later.now >= t.received + c.debounce
    requires var s := Ran(c, Initialized(tier), ts); u in s.docs && serves(s.docs[u].lang, u)
    ensures var r := Ran(c, Initialized(tier), ts + [t]);
      && u in r.docs && u in r.pending && r.pending[u] == t.received + c.debounce
      && Shown(Turned(c, r, later).pushes, u) == Verdict(c, r, u, later.outcomes(u))
  {
    RanOneMore(c, Initialized(tier), ts, t);
    FilesSchedule(c, Ran(c, Initialized(tier), ts), t, Grammars(serves), u);
    DeadlinesSettle(c, tier, ts + [t], later, u);
  }

  /** A manifest changed: every open document is pending a debounce later under the new tier, has
      nothing cached and is served nothing, and a turn at or past that time shows the verdict on
      its text under that tier, and serves what that analysis gives. */
  lemma {:induction false} ManifestStartsOver(
    c: Config, tier: Tier, ts: seq<Turn>, t: Turn, newTier: Tier, later: Turn, u: Uri)
    requires !Ran(c, Initialized(tier), ts).exited
    requires t.message == Some(DidChangeWatchedFiles(Manifest(newTier)))
    requires later.message == None && later.now >= t.received + c.debounce
    requires u in Ran(c, Initialized(tier), ts).docs
    ensures var r := Ran(c, Initialized(tier), ts + [t]);
      && u in r.docs && r.tier == newTier
      && u in r.pending && r.pending[u] == t.received + c.debounce
      && u !in r.analyses && Current(r, u) == None
      && Shown(Turned(c, r, later).pushes, u) == Verdict(c, r, u, later.outcomes(u))
      && Current(Turned(c, r, later), u) == Answer(c, r, u, later.outcomes(u))
  {
    var s := Ran(c, Initialized(tier), ts);
    RanOneMore(c, Initialized(tier), ts, t);
    FilesSchedule(c, s, t, Manifest(newTier), u);
    MeetsMessage(c, s, t, u);
    MessageCaches(c, AnalyzedAll(c, s, Due(s.pending, t.now), t.outcomes), t.message.value, t.received, u);
    DeadlinesSettle(c, tier, ts + [t], later, u);
    AnalysisServes(c, Turned(c, s, t), later, u);
  }

  /** In whatever state, a turn that analyzes a document then serves what the analysis gives, and
      one that does not serves what was served. */
  lemma {:induction false} AnalysisServes(c: Config, s: State, t: Turn, u: Uri)
    requires !s.exited && t.message == None && u in s.docs
    ensures Current(Turned(c, s, t), u) ==
            if u in s.pending && s.pending[u] <= t.now then Answer(c, s, u, t.outcomes(u)) else Current(s, u)
  {
    DueIsExact(s.pending, t.now);
    AnalyzedAllServes(c, s, Due(s.pending, t.now), t.outcomes, u);
  }
}
