/** The server's state under any sequence of messages (rs/src/server.rs).

    Documents, the analyses cached for them, the deadlines they are due at and the diagnostics
    last pushed for them. What a parse finds, whether a grammar loads, and which documents a
    language routes are oracles: they answer anything, at every turn. */
module Server {
  import opened Wrappers
  import opened Text
  import D = Documents

  type Uri = nat
  type Lang = nat
  type Time = nat
  type Diagnostic = int

  /** The workspace tier's entries, as routing sees them. */
  type Tier = nat

  datatype Doc = Doc(lang: Lang, version: int, text: string)

  /** A cached analysis: the text it was made from and what it found. */
  datatype Analysis = Analysis(source: string, diagnostics: seq<Diagnostic>)

  /** What one analysis comes to: no instance (quarantined, or the grammar does not load), a
      failure of the grammar's own code, or a finished parse, itself failed or not. */
  datatype Outcome = NoInstance | Crashed | Finished(diagnostics: seq<Diagnostic>, failed: bool)

  /** One `publishDiagnostics`, stamped with the version it is about unless the document is closing. */
  datatype Push = Push(uri: Uri, version: Option<int>, diagnostics: seq<Diagnostic>)

  datatype Config = Config(
    enc: Encoding, routes: (Tier, Lang, Uri) -> bool, limit: Option<nat>, debounce: nat, tooLarge: Diagnostic)

  /** What changed on disk: nothing under watch, a manifest (the tier is rebuilt), or grammar
      files, reloading the entries that serve the chosen documents. */
  datatype Watched = Nothing | Manifest(tier: Tier) | Grammars(serves: (Lang, Uri) -> bool)

  datatype Message =
    | DidOpen(uri: Uri, lang: Lang, version: int, text: string)
    | DidChange(uri: Uri, version: int, changes: seq<D.Change>)
    | DidClose(uri: Uri)
    | DidChangeWatchedFiles(watched: Watched)
    | Query
    | Shutdown
    | Exit

  /** One turn of the loop: the time it starts, what the analyses it runs come to, and the
      message received, if any, with its time. */
  datatype Turn = Turn(now: Time, outcomes: Uri -> Outcome, message: Option<Message>, received: Time)

  /** `attempted` is not a field of the server: it records the text each document had when it
      was last taken up for analysis. */
  datatype State = State(
    docs: map<Uri, Doc>,
    analyses: map<Uri, (int, Analysis)>,
    pending: map<Uri, Time>,
    published: set<Uri>,
    pushes: seq<Push>,
    tier: Tier,
    shutdown: bool,
    exited: bool,
    attempted: map<Uri, string>)

  // ---------------------------------------------------------------------------------------
  // What each step does.

  function Scheduled(c: Config, s: State, u: Uri, now: Time): State {
    s.(pending := s.pending[u := now + c.debounce])
  }

  function Pushed(s: State, u: Uri, version: Option<int>, diagnostics: seq<Diagnostic>): State {
    s.(pushes := s.pushes + [Push(u, version, diagnostics)],
       published := if diagnostics == [] then s.published - {u} else s.published + {u})
  }

  /** What the analysis of an open document comes to: what is pushed, if anything, and what
      becomes of the analysis cached. */
  datatype Judgement = Judgement(push: Option<seq<Diagnostic>>, cache: Caching)
  datatype Caching = Kept | Dropped | Cached(analysis: Analysis)

  function Judged(c: Config, s: State, u: Uri, outcome: Outcome): Judgement
    requires u in s.docs
  {
    var doc := s.docs[u];
    if !c.routes(s.tier, doc.lang, u) then
      Judgement(if u in s.published then Some([]) else None, Kept)
    else if c.limit.Some? && ByteLen(doc.text) > c.limit.value then
      Judgement(Some([c.tooLarge]), Dropped)
    else
      match outcome
      case NoInstance => Judgement(None, Kept)
      case Crashed => Judgement(None, Kept)
      case Finished(diagnostics, failed) =>
        Judgement(Some(diagnostics), if failed then Kept else Cached(Analysis(doc.text, diagnostics)))
  }

  function Recached(s: State, u: Uri, version: int, cache: Caching): map<Uri, (int, Analysis)> {
    match cache
    case Kept => s.analyses
    case Dropped => s.analyses - {u}
    case Cached(analysis) => s.analyses[u := (version, analysis)]
  }

  /** `run_analysis`. */
  function Analyzed(c: Config, s: State, u: Uri, outcome: Outcome): State {
    if u !in s.docs then s
    else
      var doc, j := s.docs[u], Judged(c, s, u, outcome);
      var s := s.(attempted := s.attempted[u := doc.text], analyses := Recached(s, u, doc.version, j.cache));
      if j.push.Some? then Pushed(s, u, Some(doc.version), j.push.value) else s
  }

  predicate Earlier(pending: map<Uri, Time>, u: Uri, w: Uri) {
    u in pending && w in pending && (pending[u] < pending[w] || (pending[u] == pending[w] && u <= w))
  }

  predicate IsNextDue(pending: map<Uri, Time>, now: Time, u: Uri) {
    u in pending && pending[u] <= now && forall w :: w in pending ==> Earlier(pending, u, w)
  }

  lemma {:induction false} NextDueExists(pending: map<Uri, Time>, now: Time, some: Uri) returns (u: Uri)
    requires some in pending && pending[some] <= now
    ensures IsNextDue(pending, now, u)
    decreases pending[some], some
  {
    if w :| w in pending && !Earlier(pending, some, w) {
      u := NextDueExists(pending, now, w);
    } else {
      u := some;
    }
  }

  /** What is due by `now`, in the order of the deadlines. */
  ghost function Due(pending: map<Uri, Time>, now: Time): seq<Uri>
    decreases |pending|
  {
    if u: Uri :| IsNextDue(pending, now, u) then [u] + Due(pending - {u}, now) else []
  }

  function AnalyzedAll(c: Config, s: State, due: seq<Uri>, outcomes: Uri -> Outcome): State
    decreases |due|
  {
    if due == [] then s
    else AnalyzedAll(c, Analyzed(c, s.(pending := s.pending - {due[0]}), due[0], outcomes(due[0])), due[1..], outcomes)
  }

  /** The open documents the reloaded entries serve. */
  function Served(s: State, serves: (Lang, Uri) -> bool): set<Uri> {
    set u | u in s.docs && serves(s.docs[u].lang, u)
  }

  /** Restart the debounce of several documents. */
  function ScheduledAll(c: Config, s: State, us: set<Uri>, now: Time): State {
    s.(pending := Rescheduled(s.pending, us, now + c.debounce))
  }

  function Rescheduled(pending: map<Uri, Time>, us: set<Uri>, at: Time): map<Uri, Time> {
    map u | u in us + pending.Keys :: if u in us then at else pending[u]
  }

  /** `did_change_watched_files`. */
  function Reloaded(c: Config, s: State, w: Watched, now: Time): State {
    match w
    case Nothing => s
    case Manifest(tier) => ScheduledAll(c, s.(tier := tier, analyses := s.analyses - s.docs.Keys), s.docs.Keys, now)
    case Grammars(serves) => ScheduledAll(c, s, Served(s, serves), now)
  }

  /** `handle`. */
  function Handled(c: Config, s: State, m: Message, now: Time): State {
    match m
    case DidOpen(uri, lang, version, text) =>
      Scheduled(c, s.(docs := s.docs[uri := Doc(lang, version, text)]), uri, now)
    case DidChange(uri, version, changes) =>
      if uri !in s.docs then s
      else
        var doc := s.docs[uri];
        var text := D.AppliedAll(c.enc, doc.text, changes);
        Scheduled(c, s.(docs := s.docs[uri := Doc(doc.lang, version, text)], analyses := s.analyses - {uri}), uri, now)
    case DidClose(uri) =>
      Pushed(s.(docs := s.docs - {uri}, analyses := s.analyses - {uri}, pending := s.pending - {uri}), uri, None, [])
    case DidChangeWatchedFiles(watched) => Reloaded(c, s, watched, now)
    case Query => s
    case Shutdown => s.(shutdown := true)
    case Exit => s.(exited := true)
  }

  /** One turn of the loop, unless `exit` ended it. */
  ghost function Turned(c: Config, s: State, t: Turn): State {
    if s.exited then s
    else
      var s := AnalyzedAll(c, s, Due(s.pending, t.now), t.outcomes);
      match t.message
      case None => s
      case Some(m) => Handled(c, s, m, t.received)
  }

  ghost function Ran(c: Config, s: State, ts: seq<Turn>): State
    decreases |ts|
  {
    if ts == [] then s else Ran(c, Turned(c, s, ts[0]), ts[1..])
  }

  /** A server that has answered `initialize`, before any document is opened. */
  function Initialized(tier: Tier): State {
    State(map[], map[], map[], {}, [], tier, false, false, map[])
  }

  // ---------------------------------------------------------------------------------------
  // What the client sees, and what it is served.

  /** The diagnostics a client shows for a document: those last pushed. */
  function Shown(pushes: seq<Push>, u: Uri): seq<Diagnostic> {
    if pushes == [] then []
    else
      var last := pushes[|pushes| - 1];
      if last.uri == u then last.diagnostics else Shown(pushes[..|pushes| - 1], u)
  }

  lemma {:induction false} ShownAfter(pushes: seq<Push>, p: Push, u: Uri)
    ensures Shown(pushes + [p], u) == if p.uri == u then p.diagnostics else Shown(pushes, u)
  {
    assert (pushes + [p])[..|pushes|] == pushes;
  }

  /** A cached analysis is of the document as it is, so its version is the document's too. */
  predicate FreshAt(s: State, u: Uri) {
    u in s.analyses ==>
      u in s.docs && s.analyses[u].0 == s.docs[u].version && s.analyses[u].1.source == s.docs[u].text
  }

  /** What structural requests are served from. */
  function Current(s: State, u: Uri): Option<Analysis> {
    if u in s.docs && u in s.analyses && s.analyses[u].0 == s.docs[u].version then Some(s.analyses[u].1) else None
  }

  // ---------------------------------------------------------------------------------------
  // The server.

  class Server {
    const config: Config
    var docs: map<Uri, Doc>
    var analyses: map<Uri, (int, Analysis)>
    var pending: map<Uri, Time>
    var published: set<Uri>
    var pushes: seq<Push>
    var tier: Tier
    var shutdown: bool
    var exited: bool
    ghost var attempted: map<Uri, string>

    ghost function Now(): State
      reads this
    {
      State(docs, analyses, pending, published, pushes, tier, shutdown, exited, attempted)
    }

    constructor (config: Config, tier: Tier)
      ensures this.config == config && Now() == Initialized(tier)
    {
      this.config, this.tier := config, tier;
      docs, analyses, pending, published, pushes := map[], map[], map[], {}, [];
      shutdown, exited, attempted := false, false, map[];
    }

    /** Restart a document's debounce. */
    method Schedule(uri: Uri, now: Time)
      modifies this`pending
      ensures pending == old(pending)[uri := now + config.debounce]
    {
      pending := pending[uri := now + config.debounce];
    }

    /** Send a document's diagnostics and remember whether there were any: the client then shows
        exactly those for it, and the server still knows which documents show something. */
    method Publish(uri: Uri, version: Option<int>, diagnostics: seq<Diagnostic>)
      modifies this`published, this`pushes
      ensures Now() == Pushed(old(Now()), uri, version, diagnostics)
      ensures forall u: Uri :: Shown(pushes, u) == if u == uri then diagnostics else Shown(old(pushes), u)
      ensures forall u: Uri :: old(u in published <==> Shown(pushes, u) != []) ==>
        (u in published <==> Shown(pushes, u) != [])
    {
      if diagnostics == [] {
        published := published - {uri};
      } else {
        published := published + {uri};
      }
      ghost var was := pushes;
      pushes := pushes + [Push(uri, version, diagnostics)];
      forall u: Uri
        ensures Shown(pushes, u) == if u == uri then diagnostics else Shown(was, u)
      {
        ShownAfter(was, Push(uri, version, diagnostics), u);
      }
    }

    method RunAnalysis(uri: Uri, outcome: Outcome)
      modifies this
      ensures Now() == Analyzed(config, old(Now()), uri, outcome)
    {
      if uri !in docs {
        return;
      }
      var doc := docs[uri];
      attempted := attempted[uri := doc.text];
      if !config.routes(tier, doc.lang, uri) {
        if uri in published {
          Publish(uri, Some(doc.version), []);
        }
        return;
      }
      if config.limit.Some? && ByteLen(doc.text) > config.limit.value {
        analyses := analyses - {uri};
        Publish(uri, Some(doc.version), [config.tooLarge]);
        return;
      }
      if !outcome.Finished? {
        return;
      }
      Publish(uri, Some(doc.version), outcome.diagnostics);
      if !outcome.failed {
        analyses := analyses[uri := (doc.version, Analysis(doc.text, outcome.diagnostics))];
      }
    }

    /** The documents due by `now`, earliest first. */
    method DueNow(now: Time) returns (due: seq<Uri>)
      ensures due == Due(pending, now)
    {
      var left: map<Uri, Time> := pending;
      due := [];
      while exists u: Uri :: u in left && left[u] <= now
        invariant due + Due(left, now) == Due(pending, now)
        decreases |left|
      {
        ghost var some: Uri :| some in left && left[some] <= now;
        assert exists u: Uri :: IsNextDue(left, now, u) by {
          var _ := NextDueExists(left, now, some);
        }
        var u: Uri :| u in left && left[u] <= now && forall w :: w in left ==> Earlier(left, u, w);
        NextDueUnique(left, now, u);
        due := due + [u];
        left := left - {u};
      }
    }

    /** Take what is due off the pending documents and analyze it in order. */
    method AnalyzeDue(now: Time, outcomes: Uri -> Outcome)
      modifies this
      ensures Now() == AnalyzedAll(config, old(Now()), Due(old(pending), now), outcomes)
    {
      var due := DueNow(now);
      for i := 0 to |due|
        invariant AnalyzedAll(config, Now(), due[i..], outcomes) == AnalyzedAll(config, old(Now()), due, outcomes)
      {
        assert due[i..][1..] == due[i + 1..];
        pending := pending - {due[i]};
        RunAnalysis(due[i], outcomes(due[i]));
      }
    }

    method DidChangeFiles(watched: Watched, now: Time)
      modifies this
      ensures Now() == Reloaded(config, old(Now()), watched, now)
    {
      match watched
      case Nothing =>
      case Manifest(newTier) =>
        tier := newTier;
        analyses := analyses - docs.Keys;
        ScheduleAll(docs.Keys, now);
        RescheduledIs(old(pending), docs.Keys, now + config.debounce, pending);
      case Grammars(serves) =>
        var due := set u | u in docs && serves(docs[u].lang, u);
        ScheduleAll(due, now);
        RescheduledIs(old(pending), due, now + config.debounce, pending);
    }

    /** Restart the debounce of several documents. */
    method ScheduleAll(uris: set<Uri>, now: Time)
      modifies this`pending
      ensures AreRescheduled(old(pending), uris, now + config.debounce, pending)
    {
      ghost var was: map<Uri, Time> := pending;
      var at: Time := now + config.debounce;
      var due: set<Uri> := uris;
      while due != {}
        invariant LeftToSchedule(was, uris, due, at, pending)
        decreases |due|
      {
        var u: Uri :| u in due;
        ScheduledOneMore(was, uris, due, u, at, pending);
        pending := pending[u := at];
        due := due - {u};
      }
      NoneLeft(was, uris, at, pending);
    }

    method DidChange(uri: Uri, version: int, changes: seq<D.Change>, now: Time)
      modifies this
      ensures Now() == Handled(config, old(Now()), Message.DidChange(uri, version, changes), now)
    {
      if uri !in docs {
        return;
      }
      var doc := new D.Doc(config.enc, docs[uri].text, docs[uri].version);
      doc.ApplyChanges(changes, version);
      docs := docs[uri := Doc(docs[uri].lang, doc.version, doc.text)];
      analyses := analyses - {uri};
      Schedule(uri, now);
    }

    method Handle(m: Message, now: Time)
      modifies this
      ensures Now() == Handled(config, old(Now()), m, now)
    {
      match m
      case DidOpen(uri, lang, version, text) =>
        docs := docs[uri := Doc(lang, version, text)];
        Schedule(uri, now);
      case DidChange(uri, version, changes) =>
        DidChange(uri, version, changes, now);
      case DidClose(uri) =>
        docs := docs - {uri};
        analyses := analyses - {uri};
        pending := pending - {uri};
        Publish(uri, None, []);
      case DidChangeWatchedFiles(watched) => DidChangeFiles(watched, now);
      case Query =>
      case Shutdown => shutdown := true;
      case Exit => exited := true;
    }

    /** The message loop. */
    method Run(turns: seq<Turn>)
      modifies this
      ensures Now() == Ran(config, old(Now()), turns)
    {
      var i := 0;
      while i < |turns| && !exited
        invariant i <= |turns|
        invariant Ran(config, Now(), turns[i..]) == Ran(config, old(Now()), turns)
      {
        assert turns[i..][1..] == turns[i + 1..];
        var t := turns[i];
        AnalyzeDue(t.now, t.outcomes);
        if t.message.Some? {
          Handle(t.message.value, t.received);
        }
        i := i + 1;
      }
      if exited {
        ExitedStays(config, Now(), turns[i..]);
      }
    }

    /** What a structural request is answered from, if anything: as long as the cache is
        fresh, whatever is cached is served, and it was made from the text the document has. */
    method CurrentAnalysis(uri: Uri) returns (r: Option<Analysis>)
      ensures r == Current(Now(), uri)
      ensures FreshAt(Now(), uri) ==> (r.Some? <==> uri in analyses)
      ensures FreshAt(Now(), uri) && r.Some? ==> uri in docs && r.value.source == docs[uri].text
    {
      if uri in docs && uri in analyses && analyses[uri].0 == docs[uri].version {
        return Some(analyses[uri].1);
      }
      r := None;
    }
  }

  ghost predicate AreRescheduled(pending: map<Uri, Time>, us: set<Uri>, at: Time, next: map<Uri, Time>) {
    next.Keys == us + pending.Keys && forall u :: u in next ==> next[u] == if u in us then at else pending[u]
  }

  /** Of the documents to reschedule, all have been but those left. */
  ghost predicate LeftToSchedule(
    pending: map<Uri, Time>, us: set<Uri>, left: set<Uri>, at: Time, next: map<Uri, Time>) {
    left <= us && AreRescheduled(pending, us - left, at, next)
  }

  lemma {:induction false} ScheduledOneMore(
    pending: map<Uri, Time>, us: set<Uri>, left: set<Uri>, u: Uri, at: Time, next: map<Uri, Time>)
    requires LeftToSchedule(pending, us, left, at, next) && u in left
    ensures LeftToSchedule(pending, us, left - {u}, at, next[u := at])
  {
    assert us - (left - {u}) == us - left + {u};
  }

  lemma {:induction false} NoneLeft(pending: map<Uri, Time>, us: set<Uri>, at: Time, next: map<Uri, Time>)
    requires LeftToSchedule(pending, us, {}, at, next)
    ensures AreRescheduled(pending, us, at, next)
  {
    assert us - {} == us;
  }

  lemma {:induction false} RescheduledIs(pending: map<Uri, Time>, us: set<Uri>, at: Time, next: map<Uri, Time>)
    requires AreRescheduled(pending, us, at, next)
    ensures next == Rescheduled(pending, us, at)
  {
  }

  lemma {:induction false} NextDueUnique(pending: map<Uri, Time>, now: Time, u: Uri)
    requires IsNextDue(pending, now, u)
    ensures Due(pending, now) == [u] + Due(pending - {u}, now)
  {
    var w := Due(pending, now)[0];
    assert IsNextDue(pending, now, w) && Earlier(pending, u, w) && Earlier(pending, w, u);
  }

  lemma {:induction false} ExitedStays(c: Config, s: State, ts: seq<Turn>)
    requires s.exited
    ensures Ran(c, s, ts) == s
    decreases |ts|
  {
    if ts != [] { ExitedStays(c, s, ts[1..]); }
  }
}
