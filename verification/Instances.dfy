/** The instance cache and its keys (rs/src/instances.rs, `Instances`).

    A key is a language id, a compact JSON array naming what the entry loads, and a folder. The
    array is self-delimiting, so an entry's prefix is a prefix of a key exactly when the key was
    made for that entry, and hot reload, which matches by prefix, touches no other entry. */
module Instances {
  import opened Wrappers
  import opened Json

  const QUARANTINE_LIMIT := 3

  datatype Load = Module(name: string) | Grammar(file: string) | SpecFile(file: string) | SpecInline(value: Json)

  /** What of a registry entry its identity reads: `scope` is the folder it routes in, `dir` its
      sandbox folder. */
  datatype Entry = Entry(
    language: string, options: Option<Json>, load: Load, scope: Option<string>, dir: Option<string>)

  /** What the host computes: a grammar file's dialect and the digest of an inline spec's text. */
  datatype Host = Host(dialect: string -> Option<string>, digest: string -> string)

  function OrNull(s: Option<string>): Json {
    match s case None => Null case Some(v) => Str(v)
  }

  function Options(e: Entry): Json {
    match e.options case None => Obj([]) case Some(o) => o
  }

  function Inline(h: Host, value: Json): Json {
    Obj([Field("inline", Str(h.digest(Print(value))))])
  }

  /** The array an entry is identified by. */
  function Identity(h: Host, e: Entry): seq<Json> {
    match e.load
    case Module(name) => [Options(e), Str(name), Null, Null, OrNull(e.scope), Null]
    case Grammar(file) => [Options(e), Null, Str(file), OrNull(h.dialect(file)), OrNull(e.scope), Null]
    case SpecFile(file) => [Options(e), Null, Null, Null, OrNull(e.scope), Str(file)]
    case SpecInline(value) => [Options(e), Null, Null, Null, OrNull(e.scope), Inline(h, value)]
  }

  function EntryPrefix(h: Host, e: Entry): string {
    e.language + " " + Print(Arr(Identity(h, e))) + " "
  }

  /** The folder as the key spells it: the one given, or the entry's own. */
  function FolderOf(e: Entry, folder: Option<string>): string {
    if folder.Some? then folder.value else if e.dir.Some? then e.dir.value else ""
  }

  function Key(h: Host, e: Entry, folder: Option<string>): string {
    EntryPrefix(h, e) + FolderOf(e, folder)
  }

  // ---------------------------------------------------------------------------------------
  // Prefix-freeness.

  /** Neither language id goes on as the other's identity array would begin: they are equal, or
      part ways before that. */
  predicate Apart(id: string, id': string) {
    !(id + " [" <= id') && !(id' + " [" <= id)
  }

  /** Ids clash only when one holds a space and a bracket right where the other ends: ids without
      spaces never do. */
  lemma {:induction false} ClashingIdHoldsBracket(id: string, id': string)
    requires !Apart(id, id')
    ensures var (short, long) := if |id| < |id'| then (id, id') else (id', id);
      |short| + 2 <= |long| && long[|short|] == ' ' && long[|short| + 1] == '['
  {
    var (short, long) := if |id| < |id'| then (id, id') else (id', id);
    assert short + " [" == long[..|short| + 2];
  }

  /** An identity's text, from its opening bracket. */
  lemma {:induction false} IdentityOpens(h: Host, e: Entry)
    ensures var a := Print(Arr(Identity(h, e)));
      a != "" && a[0] == '[' && EntryPrefix(h, e) == e.language + " " + (a + " ")
  {
  }

  /** Where a shorter id's array stands, a longer one goes on alike. */
  lemma {:induction false} LongerIdGoesOn(id: string, tail: string, id': string, tail': string)
    requires |id| < |id'| && |tail| > 1 && tail[0] == '[' && |tail'| > 1
    requires var s, s' := id + " " + tail, id' + " " + tail'; s <= s' || s' <= s
    ensures id + " [" <= id'
  {
    var s, s' := id + " " + tail, id' + " " + tail';
    assert forall i :: 0 <= i < |s| && i < |s'| ==> s[i] == s'[i];
    assert s[|id|] == ' ' && s[|id| + 1] == '[' && s'[|id'|] == ' ';
    assert id' == s'[..|id'|];
    assert id'[..|id| + 2] == s[..|id| + 2] == id + " [";
  }

  /** Prefix texts that are one a prefix of the other name the same language. */
  lemma {:induction false} SameLanguage(id: string, tail: string, id': string, tail': string)
    requires Apart(id, id') && |tail| > 1 && tail[0] == '[' && |tail'| > 1 && tail'[0] == '['
    requires id + " " + tail <= id' + " " + tail'
    ensures id == id' && tail <= tail'
  {
    var s, s' := id + " " + tail, id' + " " + tail';
    if |id| < |id'| {
      LongerIdGoesOn(id, tail, id', tail');
    } else if |id'| < |id| {
      LongerIdGoesOn(id', tail', id, tail);
    }
    assert id == s[..|id|] && id' == s'[..|id|] && s == s'[..|s|];
    assert tail == s[|id| + 1..] && tail' == s'[|id| + 1..];
    assert tail == tail'[..|tail|];
  }

  /** An entry's prefix is a prefix of a key exactly when the key was made for an entry with
      that same prefix, whatever the folder. */
  lemma {:induction false} PrefixMatchesOwnKeys(h: Host, e: Entry, e': Entry, folder: Option<string>)
    requires Apart(e.language, e'.language)
    ensures EntryPrefix(h, e) <= Key(h, e', folder) <==> EntryPrefix(h, e) == EntryPrefix(h, e')
  {
    var a, b := Print(Arr(Identity(h, e))), Print(Arr(Identity(h, e')));
    var tail := b + " " + FolderOf(e', folder);
    IdentityOpens(h, e);
    IdentityOpens(h, e');
    assert Key(h, e', folder) == e'.language + " " + tail;
    if EntryPrefix(h, e) <= Key(h, e', folder) {
      SameLanguage(e.language, a + " ", e'.language, tail);
      assert a <= a + " ";
      assert tail == b + (" " + FolderOf(e', folder));
      ArraysAreSelfDelimiting(Identity(h, e), Identity(h, e'), " " + FolderOf(e', folder));
    }
  }

  /** Equal keys are for equal prefixes and one folder. */
  lemma {:induction false} KeysAreUnique(h: Host, e: Entry, folder: Option<string>, e': Entry, folder': Option<string>)
    requires Apart(e.language, e'.language)
    requires Key(h, e, folder) == Key(h, e', folder')
    ensures EntryPrefix(h, e) == EntryPrefix(h, e') && FolderOf(e, folder) == FolderOf(e', folder')
  {
    assert EntryPrefix(h, e) <= Key(h, e, folder);
    PrefixMatchesOwnKeys(h, e, e', folder');
    SameTail(EntryPrefix(h, e), FolderOf(e, folder), FolderOf(e', folder'));
  }

  /** Two folders given for one entry have keys of their own; and with none given the key is that of
      the entry's own folder, or of the empty one. */
  lemma {:induction false} FoldersAreApart(h: Host, e: Entry, folder: string, folder': string)
    ensures Key(h, e, Some(folder)) == Key(h, e, Some(folder')) <==> folder == folder'
    ensures Key(h, e, None) == Key(h, e, Some(if e.dir == None then "" else e.dir.value))
  {
    if Key(h, e, Some(folder)) == Key(h, e, Some(folder')) {
      SameTail(EntryPrefix(h, e), folder, folder');
    }
  }

  /** Two loads that one prefix can name: the same, or inline specs with one digest. */
  predicate SameLoad(h: Host, a: Load, b: Load) {
    match a
    case Module(_) => a == b
    case Grammar(_) => a == b
    case SpecFile(_) => a == b
    case SpecInline(v) => b.SpecInline? && h.digest(Print(v)) == h.digest(Print(b.value))
  }

  /** Entries share a prefix exactly when they agree on language, options, routing scope and
      what they load: no instance serves two grammars. */
  lemma {:induction false} PrefixNamesTheGrammar(h: Host, e: Entry, e': Entry)
    requires Apart(e.language, e'.language)
    ensures EntryPrefix(h, e) == EntryPrefix(h, e') <==>
      && e.language == e'.language && e.scope == e'.scope
      && (if e.options == None then Obj([]) else e.options.value)
         == (if e'.options == None then Obj([]) else e'.options.value)
      && SameLoad(h, e.load, e'.load)
  {
    if EntryPrefix(h, e) == EntryPrefix(h, e') {
      var a, b := Print(Arr(Identity(h, e))), Print(Arr(Identity(h, e')));
      IdentityOpens(h, e);
      IdentityOpens(h, e');
      SameLanguage(e.language, a + " ", e'.language, b + " ");
      assert a == (a + " ")[..|a|] && b == (b + " ")[..|b|];
      assert a + "" == a && b + "" == b;
      assert a + " " == b + " ";
      assert a == b;
      PrintUnique(Arr(Identity(h, e)), Arr(Identity(h, e')), "", "");
      SameIdentity(h, e, e');
    }
  }

  lemma {:induction false} SameIdentity(h: Host, e: Entry, e': Entry)
    requires Identity(h, e) == Identity(h, e')
    ensures Options(e) == Options(e') && e.scope == e'.scope && SameLoad(h, e.load, e'.load)
  {
    var a, b := Identity(h, e), Identity(h, e');
    assert a[0] == b[0] && a[1] == b[1] && a[2] == b[2] && a[4] == b[4] && a[5] == b[5];
    if e.load.SpecInline? && e'.load.SpecInline? {
      assert a[5].fields[0] == b[5].fields[0];
    }
  }

  /** Some condition on language ids is needed: an id that holds an entry's whole prefix makes the
      reload of that entry match its keys. */
  lemma {:induction false} ApartIdsNeeded(h: Host, e: Entry)
    ensures var e' := e.(language := e.language + " " + Print(Arr(Identity(h, e))) + " x");
      && EntryPrefix(h, e) <= Key(h, e', None)
      && EntryPrefix(h, e) != EntryPrefix(h, e')
  {
    var e' := e.(language := e.language + " " + Print(Arr(Identity(h, e))) + " x");
    assert Key(h, e', None) == EntryPrefix(h, e)
      + ("x " + Print(Arr(Identity(h, e'))) + " " + FolderOf(e', None));
  }

  // ---------------------------------------------------------------------------------------
  // The cache.

  /** What the loader answers when it is asked: an instance, or a refusal (a panic is one). */
  datatype Made<I> = Loaded(inst: I) | Refused

  datatype Got<I> = Instance(inst: I) | Quarantined | LoadFailed

  /** The cached instances and the failure counts, by key. */
  datatype Store<I> = Store(cache: map<string, I>, failures: map<string, nat>)

  function Failures<I>(s: Store<I>, key: string): nat {
    if key in s.failures then s.failures[key] else 0
  }

  predicate IsQuarantined<I>(s: Store<I>, key: string) {
    Failures(s, key) >= QUARANTINE_LIMIT
  }

  /** Whether fetching `key` asks the loader. */
  predicate Asks<I>(s: Store<I>, key: string) {
    !IsQuarantined(s, key) && key !in s.cache
  }

  function Failed<I>(s: Store<I>, key: string): Store<I> {
    s.(failures := s.failures[key := Failures(s, key) + 1])
  }

  /** The store after fetching `key`, the loader answering `made` if it is asked. */
  function Fetched<I>(s: Store<I>, key: string, made: Made<I>): Store<I> {
    if !Asks(s, key) then s
    else if made.Loaded? then s.(cache := s.cache[key := made.inst])
    else Failed(s, key)
  }

  /** The store without the keys that start with `prefix`. */
  function Reloaded<I>(s: Store<I>, prefix: string): Store<I> {
    Store(map key | key in s.cache && !(prefix <= key) :: s.cache[key],
          map key | key in s.failures && !(prefix <= key) :: s.failures[key])
  }

  /** Two entries and folders that stand for one grammar in one folder. */
  predicate SameSlot(h: Host, e: Entry, folder: Option<string>, e': Entry, folder': Option<string>) {
    EntryPrefix(h, e) == EntryPrefix(h, e') && FolderOf(e, folder) == FolderOf(e', folder')
  }

  lemma {:induction false} SlotIsKey(h: Host, e: Entry, folder: Option<string>, e': Entry, folder': Option<string>)
    requires Apart(e.language, e'.language)
    ensures Key(h, e', folder') == Key(h, e, folder) <==> SameSlot(h, e, folder, e', folder')
  {
    if Key(h, e', folder') == Key(h, e, folder) {
      KeysAreUnique(h, e, folder, e', folder');
    }
  }

  /** From `s` to `s'` a key is forgotten, or its instance and failure count are as they were. */
  ghost predicate Forgets<I>(s: Store<I>, s': Store<I>, key: string, forgotten: bool) {
    if forgotten then key !in s'.cache && Failures(s', key) == 0
    else
      && (key in s'.cache <==> key in s.cache)
      && (key in s.cache ==> s'.cache[key] == s.cache[key])
      && Failures(s', key) == Failures(s, key)
  }

  class Instances<I> {
    var cache: map<string, I>
    var failures: map<string, nat>

    ghost function State(): Store<I>
      reads this
    {
      Store(cache, failures)
    }

    constructor ()
      ensures State() == Store(map[], map[])
    {
      cache, failures := map[], map[];
    }

    /** Count one failure: one more for this grammar in this folder, and none for any other entry
        or folder, so that no grammar is quarantined for another's failure. */
    method RecordFailure(h: Host, e: Entry, folder: Option<string>)
      modifies this
      ensures State() == Failed(old(State()), Key(h, e, folder))
      ensures forall e': Entry, folder': Option<string> | Apart(e.language, e'.language) ::
        Failures(State(), Key(h, e', folder')) ==
          Failures(old(State()), Key(h, e', folder')) + if SameSlot(h, e, folder, e', folder') then 1 else 0
    {
      var key := Key(h, e, folder);
      failures := failures[key := (if key in failures then failures[key] else 0) + 1];
      forall e': Entry, folder': Option<string> | Apart(e.language, e'.language)
        ensures Key(h, e', folder') == key <==> SameSlot(h, e, folder, e', folder')
      {
        SlotIsKey(h, e, folder, e', folder');
      }
    }

    /** The instance for an entry: refused under quarantine, then from the cache, then made, a
        failed make being counted. */
    method Get(h: Host, e: Entry, folder: Option<string>, made: Made<I>) returns (got: Got<I>)
      modifies this
      ensures State() == Fetched(old(State()), Key(h, e, folder), made)
      ensures got.Quarantined? <==> Failures(old(State()), Key(h, e, folder)) >= 3
      ensures got.LoadFailed? <==> !got.Quarantined? && Key(h, e, folder) !in old(cache) && made.Refused?
      ensures got.Instance? ==> Key(h, e, folder) in cache && cache[Key(h, e, folder)] == got.inst
      ensures got.Instance? ==>
        if Key(h, e, folder) in old(cache) then got.inst == old(cache)[Key(h, e, folder)] else made == Loaded(got.inst)
      ensures forall key :: (Failures(State(), key) ==
        Failures(old(State()), key) + if key == Key(h, e, folder) && got.LoadFailed? then 1 else 0)
      ensures forall key :: key in cache <==> key in old(cache) || (key == Key(h, e, folder) && got.Instance?)
      ensures forall key :: key in old(cache) ==> cache[key] == old(cache)[key]
    {
      var key := Key(h, e, folder);
      if (if key in failures then failures[key] else 0) >= QUARANTINE_LIMIT {
        return Quarantined;
      }
      if key in cache {
        return Instance(cache[key]);
      }
      if made.Refused? {
        failures := failures[key := (if key in failures then failures[key] else 0) + 1];
        return LoadFailed;
      }
      cache := cache[key := made.inst];
      got := Instance(made.inst);
    }

    /** Hot reload: this entry's instances and failure counts are gone under every folder, and
        every other entry keeps both. */
    method Invalidate(h: Host, e: Entry)
      modifies this
      ensures State() == Reloaded(old(State()), EntryPrefix(h, e))
      ensures forall e': Entry, folder: Option<string> | Apart(e.language, e'.language) ::
        Forgets(old(State()), State(), Key(h, e', folder), EntryPrefix(h, e) == EntryPrefix(h, e'))
    {
      ghost var was := State();
      var prefix := EntryPrefix(h, e);
      cache := map key | key in cache && !(prefix <= key) :: cache[key];
      failures := map key | key in failures && !(prefix <= key) :: failures[key];
      forall e': Entry, folder: Option<string> | Apart(e.language, e'.language)
        ensures Forgets(was, State(), Key(h, e', folder), EntryPrefix(h, e) == EntryPrefix(h, e'))
      {
        ReloadIsExact(h, was, e, e', folder);
      }
    }
  }

  /** Reloading one entry forgets it under every folder and leaves every other entry's instance
      and failure count as they were, quarantine included. */
  lemma {:induction false} ReloadIsExact<I>(h: Host, s: Store<I>, e: Entry, e': Entry, folder: Option<string>)
    requires Apart(e.language, e'.language)
    ensures Forgets(s, Reloaded(s, EntryPrefix(h, e)), Key(h, e', folder), EntryPrefix(h, e) == EntryPrefix(h, e'))
  {
    PrefixMatchesOwnKeys(h, e, e', folder);
  }

  // ---------------------------------------------------------------------------------------
  // Quarantine bounds the loads.

  /** One use of the cache. */
  datatype Use<I> = Fetch(key: string, made: Made<I>) | Fail(key: string) | Reload(prefix: string)

  function Used<I>(s: Store<I>, u: Use<I>): Store<I> {
    match u
    case Fetch(key, made) => Fetched(s, key, made)
    case Fail(key) => Failed(s, key)
    case Reload(prefix) => Reloaded(s, prefix)
  }

  /** How often a run of uses asks the loader for `key`. */
  function Loads<I>(s: Store<I>, us: seq<Use<I>>, key: string): nat
    decreases |us|
  {
    if us == [] then 0
    else (if us[0].Fetch? && us[0].key == key && Asks(s, key) then 1 else 0) + Loads(Used(s, us[0]), us[1..], key)
  }

  /** Until its entry is reloaded, a key's loader is asked at most as often as failures are left
      to it, and never again once it has answered or the limit is reached. */
  lemma {:induction false} LoadsAreBounded<I>(s: Store<I>, us: seq<Use<I>>, key: string)
    requires forall u :: u in us && u.Reload? ==> !(u.prefix <= key)
    ensures Loads(s, us, key) <= if Asks(s, key) then QUARANTINE_LIMIT - Failures(s, key) else 0
    decreases |us|
  {
    if us != [] {
      assert us[0] in us;
      LoadsAreBounded(Used(s, us[0]), us[1..], key);
    }
  }
}
