/** Cache coherence (rs/src/server.rs, `current_analysis`), and a client's whole session.

    An analysis is served only for the text it was made from as long as the client opens only
    what is closed (LSP 3.17, `textDocument/didOpen`), or gives no version to two texts. A client
    may do neither: which runs then stay coherent is said exactly. */
module ServerSession {
  import opened Wrappers
  import opened Server
  import R = ServerRuns
  import D = Documents

  /** What is served for a document, if anything, was made from the text it has. */
  predicate CoherentAt(s: State, u: Uri) {
    Current(s, u).Some? ==> Current(s, u).value.source == s.docs[u].text
  }

  /** The client opens the document only while it is closed. */
  ghost predicate OpensOnlyClosed(c: Config, s: State, ts: seq<Turn>, u: Uri)
    decreases |ts|
  {
    ts != [] ==>
      (!s.exited && R.Opens(ts[0], u) ==> u !in s.docs) && OpensOnlyClosed(c, Turned(c, s, ts[0]), ts[1..], u)
  }

  /** A cached analysis is of the text its version names. */
  predicate NamedAt(s: State, u: Uri, textOf: int -> string) {
    u in s.analyses ==> u in s.docs && s.analyses[u].1.source == textOf(s.analyses[u].0)
  }

  /** The version of the document names its text. */
  predicate TextNamedAt(s: State, u: Uri, textOf: int -> string) {
    u in s.docs ==> s.docs[u].text == textOf(s.docs[u].version)
  }

  /** What is cached for a document after its own analysis: what was, or an analysis of it as it
      is. */
  lemma {:induction false} OwnTaken(c: Config, s: State, u: Uri, outcome: Outcome)
    ensures var r := R.Taken(c, s, u, outcome);
      && r.docs == s.docs && r.exited == s.exited
      && (u in r.analyses ==>
           || (u in s.analyses && r.analyses[u] == s.analyses[u])
           || (u in s.docs && r.analyses[u].0 == s.docs[u].version && r.analyses[u].1.source == s.docs[u].text))
  {
  }

  /** An analysis leaves the documents alone, and nothing cached for one gets stale by it. */
  lemma {:induction false} TakenKeeps(c: Config, s: State, u: Uri, outcome: Outcome, w: Uri, textOf: int -> string)
    ensures var r := R.Taken(c, s, u, outcome);
      && r.docs == s.docs && r.exited == s.exited
      && (FreshAt(s, w) ==> FreshAt(r, w))
      && (CoherentAt(s, w) && (w in s.analyses ==> w in s.docs) ==>
           CoherentAt(r, w) && (w in r.analyses ==> w in r.docs))
      && (NamedAt(s, w, textOf) && TextNamedAt(s, w, textOf) ==> NamedAt(r, w, textOf))
  {
    OwnTaken(c, s, u, outcome);
    if u != w { R.TakenElsewhere(c, s, u, outcome, w); }
  }

  lemma {:induction false} AnalyzedAllKeeps(
    c: Config, s: State, due: seq<Uri>, outcomes: Uri -> Outcome, w: Uri, textOf: int -> string)
    ensures var r := AnalyzedAll(c, s, due, outcomes);
      && r.docs == s.docs && r.exited == s.exited
      && (FreshAt(s, w) ==> FreshAt(r, w))
      && (CoherentAt(s, w) && (w in s.analyses ==> w in s.docs) ==>
           CoherentAt(r, w) && (w in r.analyses ==> w in r.docs))
      && (NamedAt(s, w, textOf) && TextNamedAt(s, w, textOf) ==> NamedAt(r, w, textOf))
    decreases |due|
  {
    if due != [] {
      TakenKeeps(c, s, due[0], outcomes(due[0]), w, textOf);
      AnalyzedAllKeeps(c, R.Taken(c, s, due[0], outcomes(due[0])), due[1..], outcomes, w, textOf);
    }
  }

  /** No version names any text in particular. */
  function Unnamed(): int -> string {
    _ => ""
  }

  lemma {:induction false} HandledKeepsFresh(c: Config, s: State, m: Message, now: Time, w: Uri)
    ensures FreshAt(s, w) && (m.DidOpen? && m.uri == w ==> w !in s.docs) ==> FreshAt(Handled(c, s, m, now), w)
  {
  }

  lemma {:induction false} RunKeepsFresh(c: Config, s: State, ts: seq<Turn>, u: Uri)
    requires FreshAt(s, u) && OpensOnlyClosed(c, s, ts, u)
    ensures FreshAt(Ran(c, s, ts), u)
    decreases |ts|
  {
    if ts != [] {
      var t := ts[0];
      if !s.exited {
        var due := Due(s.pending, t.now);
        AnalyzedAllKeeps(c, s, due, t.outcomes, u, Unnamed());
        if t.message.Some? {
          HandledKeepsFresh(c, AnalyzedAll(c, s, due, t.outcomes), t.message.value, t.received, u);
        }
      }
      RunKeepsFresh(c, Turned(c, s, t), ts[1..], u);
    }
  }

  /** Across edits, reloads, failed analyses and rebuilt tiers, no structural request is answered
      from another text than the document's own. */
  lemma {:induction false} ServedIsCurrent(c: Config, tier: Tier, ts: seq<Turn>, u: Uri)
    requires OpensOnlyClosed(c, Initialized(tier), ts, u)
    ensures var s := Ran(c, Initialized(tier), ts);
            CoherentAt(s, u) && (u in s.analyses ==> u in s.docs)
  {
    RunKeepsFresh(c, Initialized(tier), ts, u);
  }

  // ---------------------------------------------------------------------------------------
  // Reopening.

  /** A `didOpen` with this version and text is served from no analysis of another text: none is
      cached, or the one cached is for another version or of this very text. */
  predicate MayOpen(s: State, u: Uri, version: int, text: string) {
    u in s.analyses ==> s.analyses[u].0 != version || s.analyses[u].1.source == text
  }

  /** `didOpen` leaves the old analysis in place: whatever state it comes in, what is served next
      is of the new text exactly when the cached analysis allows it. */
  lemma {:induction false} ReopenIsExact(c: Config, s: State, u: Uri, lang: Lang, version: int, text: string, now: Time)
    ensures CoherentAt(Handled(c, s, DidOpen(u, lang, version, text), now), u) <==> MayOpen(s, u, version, text)
  {
    var r := Handled(c, s, DidOpen(u, lang, version, text), now);
    assert r.docs[u] == Doc(lang, version, text) && r.analyses == s.analyses;
  }

  /** What is served for the document is of its text at the start of every turn, and when the
      turn's message is answered. */
  ghost predicate StaysCoherent(c: Config, s: State, ts: seq<Turn>, u: Uri)
    decreases |ts|
  {
    && CoherentAt(s, u)
    && (ts != [] ==>
      (s.exited || CoherentAt(BeforeMessage(c, s, ts[0]), u)) && StaysCoherent(c, Turned(c, s, ts[0]), ts[1..], u))
  }

  /** The state a turn's message meets: what was due has been analyzed. */
  ghost function BeforeMessage(c: Config, s: State, t: Turn): State {
    AnalyzedAll(c, s, Due(s.pending, t.now), t.outcomes)
  }

  /** Every `didOpen` of the document that finds it open meets a cache that allows it. */
  ghost predicate ReopensAllowed(c: Config, s: State, ts: seq<Turn>, u: Uri)
    decreases |ts|
  {
    ts != [] ==>
      && (!s.exited && R.Opens(ts[0], u) && u in s.docs ==>
        MayOpen(BeforeMessage(c, s, ts[0]), u, ts[0].message.value.version, ts[0].message.value.text))
      && ReopensAllowed(c, Turned(c, s, ts[0]), ts[1..], u)
  }

  /** A message keeps what is served coherent exactly when it is no `didOpen` of the document, or
      one the cache allows. */
  lemma {:induction false} HandledCoherent(c: Config, s: State, m: Message, now: Time, w: Uri)
    requires CoherentAt(s, w) && (w in s.analyses ==> w in s.docs)
    ensures var r := Handled(c, s, m, now);
      && (w in r.analyses ==> w in r.docs)
      && (CoherentAt(r, w) <==> (m.DidOpen? && m.uri == w && w in s.docs ==> MayOpen(s, w, m.version, m.text)))
  {
    if m.DidOpen? && m.uri == w {
      ReopenIsExact(c, s, w, m.lang, m.version, m.text, now);
    }
  }

  /** Over every run, reopenings and all: what is served is of the document's text throughout
      exactly when every `didOpen` that finds the document open meets a cache that allows it. */
  lemma {:induction false} CoherenceIsExact(c: Config, s: State, ts: seq<Turn>, u: Uri)
    requires CoherentAt(s, u) && (u in s.analyses ==> u in s.docs)
    ensures StaysCoherent(c, s, ts, u) <==> ReopensAllowed(c, s, ts, u)
    decreases |ts|
  {
    if ts != [] {
      var t, s' := ts[0], Turned(c, s, ts[0]);
      if !s.exited {
        AnalyzedAllKeeps(c, s, Due(s.pending, t.now), t.outcomes, u, Unnamed());
        if t.message.Some? {
          HandledCoherent(c, BeforeMessage(c, s, t), t.message.value, t.received, u);
        }
      }
      if CoherentAt(s', u) {
        CoherenceIsExact(c, s', ts[1..], u);
      }
    }
  }

  /** At the start of every turn, the version of the document names its text. */
  ghost predicate VersionsName(c: Config, s: State, ts: seq<Turn>, u: Uri, textOf: int -> string)
    decreases |ts|
  {
    && TextNamedAt(s, u, textOf)
    && (ts != [] ==> VersionsName(c, Turned(c, s, ts[0]), ts[1..], u, textOf))
  }

  lemma {:induction false} HandledKeepsNamed(c: Config, s: State, m: Message, now: Time, w: Uri, textOf: int -> string)
    ensures NamedAt(s, w, textOf) ==> NamedAt(Handled(c, s, m, now), w, textOf)
  {
  }

  /** A client that gives no version to two texts of a document may open it as often as it likes:
      what it is served stays of the document's text. */
  lemma {:induction false} NamedStaysCoherent(c: Config, s: State, ts: seq<Turn>, u: Uri, textOf: int -> string)
    requires NamedAt(s, u, textOf) && VersionsName(c, s, ts, u, textOf)
    ensures StaysCoherent(c, s, ts, u)
    decreases |ts|
  {
    if ts != [] {
      var t := ts[0];
      if !s.exited {
        AnalyzedAllKeeps(c, s, Due(s.pending, t.now), t.outcomes, u, textOf);
        if t.message.Some? {
          HandledKeepsNamed(c, BeforeMessage(c, s, t), t.message.value, t.received, u, textOf);
        }
      }
      NamedStaysCoherent(c, Turned(c, s, t), ts[1..], u, textOf);
    }
  }

  lemma {:induction false} CoherentAtEnd(c: Config, s: State, ts: seq<Turn>, u: Uri)
    requires StaysCoherent(c, s, ts, u)
    ensures CoherentAt(Ran(c, s, ts), u)
    decreases |ts|
  {
    if ts != [] { CoherentAtEnd(c, Turned(c, s, ts[0]), ts[1..], u); }
  }

  /** Open, let the debounce run out, open again with the same version and another text. */
  function Reopening(c: Config, text: string): seq<Turn> {
    [Turn(0, _ => NoInstance, Some(DidOpen(0, 0, 1, "")), 0),
     Turn(c.debounce, _ => Finished([], false), Some(DidOpen(0, 0, 1, text)), c.debounce)]
  }

  lemma {:induction false} ReopenServesStale(c: Config, text: string)
    requires text != "" && c.routes(0, 0, 0) && c.limit.None?
    ensures var s := Ran(c, Initialized(0), Reopening(c, text));
      0 in s.docs && s.docs[0].text == text && Current(s, 0) == Some(Analysis("", []))
  {
    var ts, d := Reopening(c, text), c.debounce;
    var a := Turned(c, Initialized(0), ts[0]);
    assert Due(map[], 0) == [];
    assert a.pending == map[0 := d];
    NextDueUnique(a.pending, d, 0);
    assert Due(a.pending, d) == [0] by {
      assert a.pending - {0} == map[];
    }
    var b := R.Taken(c, a, 0, Finished([], false));
    assert AnalyzedAll(c, a, [0], ts[1].outcomes) == b;
    assert Turned(c, a, ts[1]) == Handled(c, b, DidOpen(0, 0, 1, text), d);
    assert ts[1..][1..] == [];
    assert Ran(c, a, ts[1..]) == Turned(c, a, ts[1]);
  }

  // ---------------------------------------------------------------------------------------
  // A session: the client's own copies, and what it tells the server about them.

  datatype Copy = Copy(lang: Lang, version: int, text: string)

  type Copies = map<Uri, Copy>

  /** What the client does to its copies; or something that leaves them alone. A document may be
      opened again while it is open. */
  datatype Act =
    | Opened(uri: Uri, lang: Lang, version: int, text: string)
    | Edited(uri: Uri, version: int, edits: seq<D.Edit>)
    | Closed(uri: Uri)
    | Other(message: Message)

  datatype Moment = Moment(now: Time, outcomes: Uri -> Outcome, act: Option<Act>, received: Time)

  predicate Possible(client: Copies, a: Act) {
    match a
    case Opened(_, _, _, _) => true
    case Edited(uri, _, edits) => uri in client && D.SendableAll(client[uri].text, edits)
    case Closed(uri) => uri in client
    case Other(m) => m.Query? || m.Shutdown? || m.DidChangeWatchedFiles?
  }

  function Done(client: Copies, a: Act): Copies
    requires Possible(client, a)
  {
    match a
    case Opened(uri, lang, version, text) => client[uri := Copy(lang, version, text)]
    case Edited(uri, version, edits) =>
      client[uri := Copy(client[uri].lang, version, D.EditedAll(client[uri].text, edits))]
    case Closed(uri) => client - {uri}
    case Other(_) => client
  }

  function Told(c: Config, client: Copies, a: Act): Message
    requires Possible(client, a)
  {
    match a
    case Opened(uri, lang, version, text) => DidOpen(uri, lang, version, text)
    case Edited(uri, version, edits) => DidChange(uri, version, D.SentAll(c.enc, client[uri].text, edits))
    case Closed(uri) => DidClose(uri)
    case Other(m) => m
  }

  /** The client's copies after a moment. */
  function Next(client: Copies, m: Moment): Copies
    requires m.act.Some? ==> Possible(client, m.act.value)
  {
    if m.act.None? then client else Done(client, m.act.value)
  }

  /** The turn the server takes at a moment. */
  function TurnAt(c: Config, client: Copies, m: Moment): Turn
    requires m.act.Some? ==> Possible(client, m.act.value)
  {
    Turn(m.now, m.outcomes, if m.act.None? then None else Some(Told(c, client, m.act.value)), m.received)
  }

  predicate Plays(client: Copies, ms: seq<Moment>)
    decreases |ms|
  {
    ms != [] ==> (ms[0].act.Some? ==> Possible(client, ms[0].act.value)) && Plays(Next(client, ms[0]), ms[1..])
  }

  function ClientAfter(client: Copies, ms: seq<Moment>): Copies
    requires Plays(client, ms)
    decreases |ms|
  {
    if ms == [] then client else ClientAfter(Next(client, ms[0]), ms[1..])
  }

  function Sending(c: Config, client: Copies, ms: seq<Moment>): seq<Turn>
    requires Plays(client, ms)
    decreases |ms|
  {
    if ms == [] then [] else [TurnAt(c, client, ms[0])] + Sending(c, Next(client, ms[0]), ms[1..])
  }

  /** The server has the document exactly when the client does, and has the same. */
  predicate InSyncAt(s: State, client: Copies, u: Uri) {
    && !s.exited && (u in s.docs <==> u in client)
    && (u in client ==> s.docs[u] == Doc(client[u].lang, client[u].version, client[u].text))
  }

  lemma {:induction false} ActKeepsInSync(c: Config, s: State, client: Copies, a: Act, now: Time, u: Uri)
    requires InSyncAt(s, client, u) && Possible(client, a)
    ensures InSyncAt(Handled(c, s, Told(c, client, a), now), Done(client, a), u)
  {
    if a.Edited? && a.uri == u {
      D.ReplicaInSync(c.enc, client[u].text, a.edits, |a.edits|);
      assert a.edits[..|a.edits|] == a.edits;
      var cs := D.SentAll(c.enc, client[u].text, a.edits);
      assert cs[..|cs|] == cs;
    }
  }

  lemma {:induction false} MomentKeepsInSync(c: Config, s: State, client: Copies, m: Moment, u: Uri)
    requires InSyncAt(s, client, u) && (m.act.Some? ==> Possible(client, m.act.value))
    ensures InSyncAt(Turned(c, s, TurnAt(c, client, m)), Next(client, m), u)
  {
    AnalyzedAllKeeps(c, s, Due(s.pending, m.now), m.outcomes, u, Unnamed());
    if m.act.Some? {
      ActKeepsInSync(c, BeforeMessage(c, s, TurnAt(c, client, m)), client, m.act.value, m.received, u);
    }
  }

  lemma {:induction false} SessionKeepsInSync(c: Config, s: State, client: Copies, ms: seq<Moment>, u: Uri)
    requires InSyncAt(s, client, u) && Plays(client, ms)
    ensures InSyncAt(Ran(c, s, Sending(c, client, ms)), ClientAfter(client, ms), u)
    decreases |ms|
  {
    if ms != [] {
      MomentKeepsInSync(c, s, client, ms[0], u);
      SessionKeepsInSync(c, Turned(c, s, TurnAt(c, client, ms[0])), Next(client, ms[0]), ms[1..], u);
    }
  }

  /** The client opens the document only while its own copy is closed. */
  predicate OpensClosed(client: Copies, ms: seq<Moment>, u: Uri)
    requires Plays(client, ms)
    decreases |ms|
  {
    ms != [] ==>
      && (ms[0].act.Some? && ms[0].act.value.Opened? && ms[0].act.value.uri == u ==> u !in client)
      && OpensClosed(Next(client, ms[0]), ms[1..], u)
  }

  /** The client's versions of the document name its texts: no version is given to two. */
  ghost predicate OneTextPerVersion(client: Copies, ms: seq<Moment>, u: Uri, textOf: int -> string)
    requires Plays(client, ms)
    decreases |ms|
  {
    && (u in client ==> client[u].text == textOf(client[u].version))
    && (ms != [] ==> OneTextPerVersion(Next(client, ms[0]), ms[1..], u, textOf))
  }

  lemma {:induction false} SessionOpensClosed(c: Config, s: State, client: Copies, ms: seq<Moment>, u: Uri)
    requires InSyncAt(s, client, u) && Plays(client, ms) && OpensClosed(client, ms, u)
    ensures OpensOnlyClosed(c, s, Sending(c, client, ms), u)
    decreases |ms|
  {
    if ms != [] {
      MomentKeepsInSync(c, s, client, ms[0], u);
      SessionOpensClosed(c, Turned(c, s, TurnAt(c, client, ms[0])), Next(client, ms[0]), ms[1..], u);
    }
  }

  lemma {:induction false} SessionVersionsName(
    c: Config, s: State, client: Copies, ms: seq<Moment>, u: Uri, textOf: int -> string)
    requires InSyncAt(s, client, u) && Plays(client, ms) && OneTextPerVersion(client, ms, u, textOf)
    ensures VersionsName(c, s, Sending(c, client, ms), u, textOf)
    decreases |ms|
  {
    if ms != [] {
      MomentKeepsInSync(c, s, client, ms[0], u);
      SessionVersionsName(c, Turned(c, s, TurnAt(c, client, ms[0])), Next(client, ms[0]), ms[1..], u, textOf);
    }
  }

  /** From `initialize` on, whatever the client opens, opens again, edits and closes, and whatever
      reloads and analyses come to in between, the server's copies are the client's. If besides
      the client opens only what is closed, or gives no version to two texts, then what it is
      served was made from its own text. */
  lemma {:induction false} SessionInSync(c: Config, tier: Tier, ms: seq<Moment>, u: Uri, textOf: int -> string)
    requires Plays(map[], ms)
    ensures var s, client := Ran(c, Initialized(tier), Sending(c, map[], ms)), ClientAfter(map[], ms);
      && (u in s.docs <==> u in client)
      && (u in client ==> s.docs[u] == Doc(client[u].lang, client[u].version, client[u].text))
      && (OpensClosed(map[], ms, u) || OneTextPerVersion(map[], ms, u, textOf) ==>
           (Current(s, u).Some? ==> u in client && Current(s, u).value.source == client[u].text))
  {
    var s, ts := Initialized(tier), Sending(c, map[], ms);
    SessionKeepsInSync(c, s, map[], ms, u);
    if OpensClosed(map[], ms, u) {
      SessionOpensClosed(c, s, map[], ms, u);
      ServedIsCurrent(c, tier, ts, u);
    }
    if OneTextPerVersion(map[], ms, u, textOf) {
      SessionVersionsName(c, s, map[], ms, u, textOf);
      NamedStaysCoherent(c, s, ts, u, textOf);
      CoherentAtEnd(c, s, ts, u);
    }
  }
}
