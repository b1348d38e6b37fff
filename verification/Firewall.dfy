/** The grammar firewall (rs/src/loaders.rs, `firewall_spec` and its scans).

    What is accepted is said declaratively, over every path into the tree. The scans recurse
    into one shared list of findings, stop at a depth, past a number of findings and past a
    number of alternates; none of those exits changes what is accepted. */
module Firewall {
  import opened Wrappers
  import opened Json

  const MAX_GRAMMAR_RULES := 5000
  const MAX_GRAMMAR_ALTS := 10000
  const MAX_GRAMMAR_DEPTH := 100
  const MAX_OPTIONS_ISSUES := 100

  const FORBIDDEN_KEYS := ["__proto__", "constructor", "prototype"]
  const ALT_FUNC_KEYS := ["b", "p", "r", "a", "e", "h", "c"]

  datatype Reason =
    | NotAnObject | ForbiddenKey | TooDeep | LiveRef | Plugins | SchemaVersion
    | BadRef | TooManyRules | TooManyAlts

  datatype Issue = Issue(path: string, reason: Reason)

  // ---------------------------------------------------------------------------------------
  // The declarative rules.

  function Children(v: Json): seq<Json> {
    match v
    case Arr(items) => items
    case Obj(fields) => seq(|fields|, i requires 0 <= i < |fields| => fields[i].value)
    case _ => []
  }

  predicate IsContainer(v: Json) {
    v.Arr? || v.Obj?
  }

  /** The value at a path of child numbers. */
  function At(v: Json, path: seq<nat>): Option<Json>
    decreases |path|
  {
    if path == [] then Some(v)
    else if path[0] < |Children(v)| then At(Children(v)[path[0]], path[1..])
    else None
  }

  predicate HasKey(v: Json, key: string) {
    v.Obj? && exists i :: 0 <= i < |v.fields| && v.fields[i].key == key
  }

  /** The object has the value under the key, which a parsed object has once. */
  ghost predicate Holds(v: Json, key: string, w: Json) {
    v.Obj? && exists i: nat :: FieldAt(v.fields, i, key, w)
  }

  /** Field `i` is the first under the key, and has the value. */
  ghost predicate FieldAt(fields: seq<Field>, i: nat, key: string, w: Json) {
    i < |fields| && fields[i] == Field(key, w) && forall j :: 0 <= j < i ==> fields[j].key != key
  }

  predicate PlainKeys(v: Json) {
    v.Obj? ==> forall i :: 0 <= i < |v.fields| ==> v.fields[i].key !in ["__proto__", "constructor", "prototype"]
  }

  /** No forbidden key anywhere, and no container below the depth limit. */
  ghost predicate CleanTree(v: Json) {
    forall path: seq<nat> :: At(v, path).Some? ==>
      PlainKeys(At(v, path).value) && (IsContainer(At(v, path).value) ==> |path| <= 100)
  }

  predicate IsNameStart(c: char) {
    'a' <= c <= 'z' || 'A' <= c <= 'Z' || c == '_' || c == '$'
  }

  predicate IsNameChar(c: char) {
    IsNameStart(c) || '0' <= c <= '9' || c == '.' || c == '-'
  }

  /** The shape of a name the engine looks up among its functions. */
  predicate RefShaped(s: string) {
    |s| >= 2 && s[0] == '@' && IsNameStart(s[1]) && forall i :: 2 <= i < |s| ==> IsNameChar(s[i])
  }

  predicate OptionAllowed(isBuiltin: string -> bool, v: Json) {
    v.Str? ==> !RefShaped(v.s) || v.s == "@SKIP" || isBuiltin(v.s)
  }

  /** Every string in the options names a builtin, if it names a function at all. */
  ghost predicate OptionsAllowed(isBuiltin: string -> bool, v: Json) {
    forall path: seq<nat> :: At(v, path).Some? ==> OptionAllowed(isBuiltin, At(v, path).value)
  }

  predicate RefAllowed(isBuiltin: string -> bool, v: Json) {
    v.Str? && v.s != "" && v.s[0] == '@' ==> isBuiltin(v.s)
  }

  predicate IsSlot(key: string) {
    key == "b" || key == "p" || key == "r" || key == "a" || key == "e" || key == "h" || key == "c"
  }

  /** Every `@`-string in a function position of the alternate names a builtin. */
  ghost predicate AltAllowed(isBuiltin: string -> bool, alt: Json) {
    forall key, v :: IsSlot(key) && Holds(alt, key, v) ==>
      && RefAllowed(isBuiltin, v)
      && (key == "a" && v.Arr? ==> forall i :: 0 <= i < |v.items| ==> RefAllowed(isBuiltin, v.items[i]))
  }

  /** The list of alternates of a rule's state: the state itself, or what an object holds under
      `alts`. */
  ghost predicate ListOf(rule: Json, state: string, alts: seq<Json>) {
    Holds(rule, state, Arr(alts)) || exists wrapper :: Holds(rule, state, wrapper) && Holds(wrapper, "alts", Arr(alts))
  }

  ghost predicate StateAllowed(isBuiltin: string -> bool, rule: Json, state: string) {
    forall alts, i :: ListOf(rule, state, alts) && 0 <= i < |alts| ==> AltAllowed(isBuiltin, alts[i])
  }

  ghost predicate RuleAllowed(isBuiltin: string -> bool, rule: Json) {
    StateAllowed(isBuiltin, rule, "open") && StateAllowed(isBuiltin, rule, "close")
  }

  ghost function AltCount(rule: Json, state: string): nat {
    if exists alts :: ListOf(rule, state, alts) then (var alts :| ListOf(rule, state, alts); |alts|) else 0
  }

  ghost function RuleAltCount(rule: Json): nat {
    AltCount(rule, "open") + AltCount(rule, "close")
  }

  /** How many alternates the first `n` rules hold. */
  ghost function TotalAlts(rules: seq<Json>, n: nat): nat
    requires n <= |rules|
  {
    if n == 0 then 0 else TotalAlts(rules, n - 1) + RuleAltCount(rules[n - 1])
  }

  ghost predicate RuleTableAllowed(isBuiltin: string -> bool, rules: seq<Json>) {
    && |rules| <= 5000 && TotalAlts(rules, |rules|) <= 10000
    && forall i :: 0 <= i < |rules| ==> RuleAllowed(isBuiltin, rules[i])
  }

  /** The schema version the engine supports, and the double a number is. */
  datatype Schema = Schema(version: real, double: NumberText -> real)

  ghost predicate HeaderAllowed(schema: Schema, spec: Json) {
    && !HasKey(spec, "ref")
    && (forall options :: Holds(spec, "options", options) ==> !HasKey(options, "plugins"))
    && (forall v :: Holds(spec, "v", v) && v.Num? ==> schema.double(v.text) <= schema.version)
  }

  ghost predicate OptionsFieldAllowed(isBuiltin: string -> bool, spec: Json) {
    forall options :: Holds(spec, "options", options) && IsContainer(options) ==> OptionsAllowed(isBuiltin, options)
  }

  ghost predicate RuleFieldAllowed(isBuiltin: string -> bool, spec: Json) {
    forall rule :: Holds(spec, "rule", rule) ==> RuleTableAllowed(isBuiltin, Children(rule))
  }

  /** What the firewall accepts, for an engine with these builtins and this schema version. */
  ghost predicate Acceptable(isBuiltin: string -> bool, schema: Schema, spec: Json) {
    && spec.Obj?
    && CleanTree(spec)
    && HeaderAllowed(schema, spec)
    && OptionsFieldAllowed(isBuiltin, spec)
    && RuleFieldAllowed(isBuiltin, spec)
  }

  // ---------------------------------------------------------------------------------------
  // The rules as the scans meet them.

  function FindKey(fields: seq<Field>, key: string): Option<Json> {
    if fields == [] then None
    else if fields[0].key == key then Some(fields[0].value)
    else FindKey(fields[1..], key)
  }

  function Get(v: Json, key: string): Option<Json> {
    if v.Obj? then FindKey(v.fields, key) else None
  }

  lemma {:induction false} FindKeyExactly(fields: seq<Field>, key: string, w: Json)
    ensures FindKey(fields, key) == Some(w) <==> Holds(Obj(fields), key, w)
    decreases |fields|
  {
    if fields != [] {
      var head, rest := fields[0], fields[1..];
      FindKeyExactly(rest, key, w);
      forall i: nat ensures FieldAt(fields, i + 1, key, w) <==> head.key != key && FieldAt(rest, i, key, w) {
        LaterFieldAt(fields, i, key, w);
      }
      if Holds(Obj(fields), key, w) {
        var i: nat :| FieldAt(fields, i, key, w);
        if i > 0 { LaterFieldAt(fields, i - 1, key, w); }
      }
      if head.key != key && Holds(Obj(rest), key, w) {
        var i: nat :| FieldAt(rest, i, key, w);
        assert FieldAt(fields, i + 1, key, w);
      }
      assert head == Field(head.key, head.value);
      assert head == Field(key, w) ==> FieldAt(fields, 0, key, w);
    }
  }

  lemma {:induction false} LaterFieldAt(fields: seq<Field>, i: nat, key: string, w: Json)
    requires fields != []
    ensures FieldAt(fields, i + 1, key, w) <==> fields[0].key != key && FieldAt(fields[1..], i, key, w)
  {
    var rest := fields[1..];
    assert forall j :: 0 <= j < |rest| ==> rest[j] == fields[j + 1];
    assert forall j :: 0 < j < |fields| ==> fields[j] == rest[j - 1];
  }

  lemma {:induction false} GetExactly(v: Json, key: string)
    ensures forall w :: Get(v, key) == Some(w) <==> Holds(v, key, w)
  {
    if v.Obj? {
      forall w ensures Get(v, key) == Some(w) <==> Holds(v, key, w) {
        FindKeyExactly(v.fields, key, w);
      }
    }
  }

  predicate SlotAllowed(isBuiltin: string -> bool, alt: Json, key: string) {
    match Get(alt, key)
    case None => true
    case Some(v) =>
      && RefAllowed(isBuiltin, v)
      && (v.Arr? && key == "a" ==> forall i :: 0 <= i < |v.items| ==> RefAllowed(isBuiltin, v.items[i]))
  }

  lemma {:induction false} SlotsExactly(isBuiltin: string -> bool, alt: Json)
    ensures AltAllowed(isBuiltin, alt) <==>
      forall k :: 0 <= k < |ALT_FUNC_KEYS| ==> SlotAllowed(isBuiltin, alt, ALT_FUNC_KEYS[k])
  {
    forall key ensures forall w :: Get(alt, key) == Some(w) <==> Holds(alt, key, w) {
      GetExactly(alt, key);
    }
    assert forall k :: 0 <= k < |ALT_FUNC_KEYS| ==> IsSlot(ALT_FUNC_KEYS[k]);
    assert (forall k :: 0 <= k < |ALT_FUNC_KEYS| ==> SlotAllowed(isBuiltin, alt, ALT_FUNC_KEYS[k])) ==>
      AltAllowed(isBuiltin, alt) by {
      assert forall key | IsSlot(key) :: key in ALT_FUNC_KEYS;
    }
  }

  /** Where the scan finds alternates: in a list, or in the `alts` list of an object. */
  function AltsOf(state: Option<Json>): seq<Json> {
    match state
    case Some(Arr(alts)) => alts
    case Some(Obj(fields)) =>
      (match FindKey(fields, "alts") case Some(Arr(alts)) => alts case _ => [])
    case _ => []
  }

  /** The scan finds the alternates of a rule's state. */
  lemma {:induction false} AltsExactly(isBuiltin: string -> bool, rule: Json, state: string)
    ensures StateAllowed(isBuiltin, rule, state) <==>
      var alts := AltsOf(Get(rule, state)); AltsBefore(isBuiltin, alts, |alts|)
    ensures AltCount(rule, state) == |AltsOf(Get(rule, state))|
  {
    GetExactly(rule, state);
    var found := AltsOf(Get(rule, state));
    if Get(rule, state).Some? {
      GetExactly(Get(rule, state).value, "alts");
    }
    assert forall alts :: ListOf(rule, state, alts) ==> alts == found;
    assert found != [] ==> ListOf(rule, state, found);
  }

  lemma {:induction false} ChildIsSmaller(v: Json, i: nat)
    requires i < |Children(v)|
    ensures v decreases to Children(v)[i]
  {
    match v
    case Arr(items) =>
    case Obj(fields) => assert Children(v)[i] == fields[i].value;
  }

  /** `CleanTree` for a subtree that stands at `depth`. */
  ghost predicate CleanFrom(v: Json, depth: nat)
    decreases v
  {
    && PlainKeys(v) && (IsContainer(v) ==> depth <= MAX_GRAMMAR_DEPTH)
    && forall i :: 0 <= i < |Children(v)| ==> (ChildIsSmaller(v, i); CleanFrom(Children(v)[i], depth + 1))
  }

  lemma {:induction false} CleanFromPaths(v: Json, depth: nat, path: seq<nat>)
    requires CleanFrom(v, depth) && At(v, path).Some?
    ensures PlainKeys(At(v, path).value)
    ensures IsContainer(At(v, path).value) ==> depth + |path| <= MAX_GRAMMAR_DEPTH
    decreases |path|
  {
    if path != [] {
      CleanFromPaths(Children(v)[path[0]], depth + 1, path[1..]);
    }
  }

  /** The place at a path into a subtree at `depth` is allowed. */
  ghost predicate CleanAt(v: Json, depth: nat, path: seq<nat>) {
    At(v, path).Some? ==>
      PlainKeys(At(v, path).value) && (IsContainer(At(v, path).value) ==> depth + |path| <= MAX_GRAMMAR_DEPTH)
  }

  ghost predicate CleanPaths(v: Json, depth: nat) {
    forall path: seq<nat> :: CleanAt(v, depth, path)
  }

  lemma {:induction false} ChildPathsClean(v: Json, depth: nat, i: nat)
    requires CleanPaths(v, depth) && i < |Children(v)|
    ensures CleanPaths(Children(v)[i], depth + 1)
  {
    var c, d := Children(v)[i], depth + 1;
    forall path: seq<nat> ensures CleanAt(c, d, path) {
      assert CleanAt(v, depth, [i] + path);
      assert ([i] + path)[1..] == path;
    }
  }

  lemma {:induction false} PathsCleanFrom(v: Json, depth: nat)
    requires CleanPaths(v, depth)
    ensures CleanFrom(v, depth)
    decreases v
  {
    assert CleanAt(v, depth, []);
    forall i | 0 <= i < |Children(v)| ensures CleanFrom(Children(v)[i], depth + 1) {
      ChildPathsClean(v, depth, i);
      ChildIsSmaller(v, i);
      PathsCleanFrom(Children(v)[i], depth + 1);
    }
  }

  lemma {:induction false} CleanIsCleanFrom(v: Json)
    ensures CleanTree(v) <==> CleanFrom(v, 0)
  {
    if CleanTree(v) {
      assert CleanPaths(v, 0);
      PathsCleanFrom(v, 0);
    }
    if CleanFrom(v, 0) {
      forall path: seq<nat> | At(v, path).Some?
        ensures PlainKeys(At(v, path).value) && (IsContainer(At(v, path).value) ==> |path| <= MAX_GRAMMAR_DEPTH)
      {
        CleanFromPaths(v, 0, path);
      }
    }
  }

  ghost predicate OptionsFrom(isBuiltin: string -> bool, v: Json)
    decreases v
  {
    && OptionAllowed(isBuiltin, v)
    && forall i :: 0 <= i < |Children(v)| ==> (ChildIsSmaller(v, i); OptionsFrom(isBuiltin, Children(v)[i]))
  }

  lemma {:induction false} OptionsFromPaths(isBuiltin: string -> bool, v: Json, path: seq<nat>)
    requires OptionsFrom(isBuiltin, v) && At(v, path).Some?
    ensures OptionAllowed(isBuiltin, At(v, path).value)
    decreases |path|
  {
    if path != [] {
      var c := Children(v)[path[0]];
      assert OptionsFrom(isBuiltin, c);
      OptionsFromPaths(isBuiltin, c, path[1..]);
    }
  }

  lemma {:induction false} PathsOptionsFrom(isBuiltin: string -> bool, v: Json)
    requires OptionsAllowed(isBuiltin, v)
    ensures OptionsFrom(isBuiltin, v)
    decreases v
  {
    assert At(v, []) == Some(v);
    forall i | 0 <= i < |Children(v)| ensures OptionsFrom(isBuiltin, Children(v)[i]) {
      var c := Children(v)[i];
      forall path: seq<nat> | At(c, path).Some? ensures OptionAllowed(isBuiltin, At(c, path).value) {
        assert ([i] + path)[1..] == path;
        assert At(v, [i] + path) == At(c, path);
      }
      ChildIsSmaller(v, i);
      PathsOptionsFrom(isBuiltin, c);
    }
  }

  lemma {:induction false} OptionsIsOptionsFrom(isBuiltin: string -> bool, v: Json)
    ensures OptionsAllowed(isBuiltin, v) <==> OptionsFrom(isBuiltin, v)
  {
    if OptionsAllowed(isBuiltin, v) {
      PathsOptionsFrom(isBuiltin, v);
    }
    if OptionsFrom(isBuiltin, v) {
      forall path: seq<nat> | At(v, path).Some? ensures OptionAllowed(isBuiltin, At(v, path).value) {
        OptionsFromPaths(isBuiltin, v, path);
      }
    }
  }

  // ---------------------------------------------------------------------------------------
  // The scans.

  /** `out` grew by findings, at least one of them unless all was well. */
  ghost predicate Found(out: seq<Issue>, r: seq<Issue>, allWell: bool) {
    out <= r && (r == out <==> allWell)
  }

  /** `scan_forbidden_keys`. */
  method ScanForbiddenKeys(v: Json, path: string, out: seq<Issue>, depth: nat) returns (r: seq<Issue>)
    ensures Found(out, r, CleanFrom(v, depth))
    decreases v, 1
  {
    r := out;
    if !IsContainer(v) {
      return;
    }
    if depth > MAX_GRAMMAR_DEPTH {
      return out + [Issue(path, TooDeep)];
    }
    if v.Arr? {
      r := ScanForbiddenItems(v, path, out, depth);
    } else {
      r := ScanForbiddenFields(v, path, out, depth);
    }
  }

  method ScanForbiddenItems(v: Json, path: string, out: seq<Issue>, depth: nat) returns (r: seq<Issue>)
    requires v.Arr?
    ensures Found(out, r, forall i :: 0 <= i < |Children(v)| ==> CleanFrom(Children(v)[i], depth + 1))
    decreases v, 0
  {
    r := out;
    for i := 0 to |v.items|
      invariant Found(out, r, forall j :: 0 <= j < i ==> CleanFrom(Children(v)[j], depth + 1))
    {
      ChildIsSmaller(v, i);
      r := ScanForbiddenKeys(v.items[i], path, r, depth + 1);
    }
  }

  method ScanForbiddenFields(v: Json, path: string, out: seq<Issue>, depth: nat) returns (r: seq<Issue>)
    requires v.Obj?
    ensures Found(out, r, PlainKeys(v) && forall i :: 0 <= i < |Children(v)| ==> CleanFrom(Children(v)[i], depth + 1))
    decreases v, 0
  {
    r := out;
    for i := 0 to |v.fields|
      invariant Found(out, r, forall j :: 0 <= j < i ==>
        v.fields[j].key !in FORBIDDEN_KEYS && CleanFrom(Children(v)[j], depth + 1))
    {
      ChildIsSmaller(v, i);
      var childPath := path + "." + v.fields[i].key;
      if v.fields[i].key in FORBIDDEN_KEYS {
        r := r + [Issue(childPath, ForbiddenKey)];
        continue;
      }
      r := ScanForbiddenKeys(v.fields[i].value, childPath, r, depth + 1);
    }
  }

  /** Whether names are builtins, asking the engine about each only once. */
  class BuiltinRefs {
    const isBuiltin: string -> bool
    var memo: map<string, bool>

    ghost predicate Valid()
      reads this
    {
      forall name :: name in memo ==> memo[name] == isBuiltin(name)
    }

    constructor (isBuiltin: string -> bool)
      ensures Valid() && this.isBuiltin == isBuiltin
    {
      this.isBuiltin, memo := isBuiltin, map[];
    }

    method IsBuiltin(name: string) returns (known: bool)
      requires Valid()
      modifies this
      ensures Valid() && known == isBuiltin(name)
    {
      if name in memo {
        return memo[name];
      }
      known := isBuiltin(name);
      memo := memo[name := known];
    }
  }

  /** What an options or alternate scan promises: it may stop early, but only with findings
      already in hand. */
  ghost predicate Searched(out: seq<Issue>, r: seq<Issue>, allWell: bool) {
    out <= r && (|out| <= MAX_OPTIONS_ISSUES ==> (r == out <==> allWell))
  }

  /** `scan_options_refs`: in a tree the first scan found clean, the depth cutoff never bites. */
  method ScanOptionsRefs(
    v: Json, path: string, out: seq<Issue>, depth: nat, builtins: BuiltinRefs) returns (r: seq<Issue>)
    requires builtins.Valid() && depth <= MAX_GRAMMAR_DEPTH && CleanFrom(v, depth + 1)
    modifies builtins
    ensures builtins.Valid()
    ensures Searched(out, r, OptionsFrom(builtins.isBuiltin, v))
    decreases v, 1
  {
    r := out;
    if depth > MAX_GRAMMAR_DEPTH || |out| > MAX_OPTIONS_ISSUES {
      return;
    }
    if v.Str? {
      if !RefShaped(v.s) || v.s == "@SKIP" {
        return;
      }
      var known := builtins.IsBuiltin(v.s);
      if !known {
        r := r + [Issue(path, BadRef)];
      }
    } else if IsContainer(v) {
      r := ScanOptionsChildren(v, path, out, depth, builtins);
    }
  }

  ghost predicate OptionsBefore(isBuiltin: string -> bool, vs: seq<Json>, n: nat)
    requires n <= |vs|
  {
    forall i :: 0 <= i < n ==> OptionsFrom(isBuiltin, vs[i])
  }

  lemma {:induction false} OptionsBeforeStep(isBuiltin: string -> bool, vs: seq<Json>, n: nat)
    requires n < |vs|
    ensures OptionsBefore(isBuiltin, vs, n + 1) <==> OptionsBefore(isBuiltin, vs, n) && OptionsFrom(isBuiltin, vs[n])
  {
  }

  method ScanOptionsChildren(
    v: Json, path: string, out: seq<Issue>, depth: nat, builtins: BuiltinRefs) returns (r: seq<Issue>)
    requires IsContainer(v) && builtins.Valid() && CleanFrom(v, depth + 1)
    modifies builtins
    ensures builtins.Valid()
    ensures Searched(out, r, OptionsBefore(builtins.isBuiltin, Children(v), |Children(v)|))
    decreases v, 0
  {
    r := out;
    var children := Children(v);
    for i := 0 to |children|
      invariant builtins.Valid()
      invariant Searched(out, r, OptionsBefore(builtins.isBuiltin, children, i))
    {
      ChildIsSmaller(v, i);
      OptionsBeforeStep(builtins.isBuiltin, children, i);
      var childPath := if v.Obj? then path + "." + v.fields[i].key else path;
      r := ScanOptionsRefs(children[i], childPath, r, depth + 1, builtins);
    }
  }

  predicate IsRef(v: Json) {
    v.Str? && v.s != "" && v.s[0] == '@'
  }

  /** The references of an `a` slot's list. */
  method ScanList(items: seq<Json>, path: string, out: seq<Issue>, builtins: BuiltinRefs) returns (r: seq<Issue>)
    requires builtins.Valid()
    modifies builtins
    ensures builtins.Valid()
    ensures Searched(out, r, forall i :: 0 <= i < |items| ==> RefAllowed(builtins.isBuiltin, items[i]))
  {
    r := out;
    for i := 0 to |items|
      invariant builtins.Valid()
      invariant Searched(out, r, forall j :: 0 <= j < i ==> RefAllowed(builtins.isBuiltin, items[j]))
    {
      if |r| > MAX_OPTIONS_ISSUES {
        return;
      }
      if IsRef(items[i]) {
        var known := builtins.IsBuiltin(items[i].s);
        if !known {
          r := r + [Issue(path, BadRef)];
        }
      }
    }
  }

  /** `scan_alt_refs`. */
  method ScanAltRefs(alt: Json, path: string, out: seq<Issue>, builtins: BuiltinRefs) returns (r: seq<Issue>)
    requires builtins.Valid()
    modifies builtins
    ensures builtins.Valid()
    ensures Searched(out, r, AltAllowed(builtins.isBuiltin, alt))
  {
    SlotsExactly(builtins.isBuiltin, alt);
    r := out;
    if !alt.Obj? || |out| > MAX_OPTIONS_ISSUES {
      return;
    }
    for k := 0 to |ALT_FUNC_KEYS|
      invariant builtins.Valid()
      invariant Searched(out, r, forall j :: 0 <= j < k ==> SlotAllowed(builtins.isBuiltin, alt, ALT_FUNC_KEYS[j]))
    {
      var key := ALT_FUNC_KEYS[k];
      var slot := Get(alt, key);
      if slot.Some? && IsRef(slot.value) {
        var known := builtins.IsBuiltin(slot.value.s);
        if !known {
          r := r + [Issue(path + "." + key, BadRef)];
        }
      } else if slot.Some? && slot.value.Arr? && key == "a" {
        r := ScanList(slot.value.items, path + ".a", r, builtins);
      }
    }
  }

  /** The alternates of one rule state. */
  method ScanAlts(alts: seq<Json>, path: string, out: seq<Issue>, builtins: BuiltinRefs) returns (r: seq<Issue>)
    requires builtins.Valid()
    modifies builtins
    ensures builtins.Valid()
    ensures Searched(out, r, AltsBefore(builtins.isBuiltin, alts, |alts|))
  {
    r := out;
    for i := 0 to |alts|
      invariant builtins.Valid()
      invariant Searched(out, r, AltsBefore(builtins.isBuiltin, alts, i))
    {
      ghost var mid := r;
      r := ScanAltRefs(alts[i], path, r, builtins);
      AltsBeforeStep(builtins.isBuiltin, alts, i);
      SearchedJoin(out, mid, r, AltsBefore(builtins.isBuiltin, alts, i), AltAllowed(builtins.isBuiltin, alts[i]));
    }
  }

  ghost predicate AltsBefore(isBuiltin: string -> bool, alts: seq<Json>, n: nat) {
    forall i :: 0 <= i < n && i < |alts| ==> AltAllowed(isBuiltin, alts[i])
  }

  lemma {:induction false} AltsBeforeStep(isBuiltin: string -> bool, alts: seq<Json>, n: nat)
    ensures AltsBefore(isBuiltin, alts, n + 1) <==>
      AltsBefore(isBuiltin, alts, n) && (n < |alts| ==> AltAllowed(isBuiltin, alts[n]))
  {
  }

  /** One rule: both its states, when it is an object at all. */
  method ScanRule(rule: Json, path: string, out: seq<Issue>, builtins: BuiltinRefs) returns (r: seq<Issue>, alts: nat)
    requires builtins.Valid()
    modifies builtins
    ensures builtins.Valid() && alts == RuleAltCount(rule)
    ensures Searched(out, r, RuleAllowed(builtins.isBuiltin, rule))
  {
    AltsExactly(builtins.isBuiltin, rule, "open");
    AltsExactly(builtins.isBuiltin, rule, "close");
    if !rule.Obj? {
      return out, 0;
    }
    var open, close := AltsOf(Get(rule, "open")), AltsOf(Get(rule, "close"));
    r := ScanAlts(open, path + ".open", out, builtins);
    ghost var mid := r;
    r := ScanAlts(close, path + ".close", r, builtins);
    alts := |open| + |close|;
    SearchedJoin(out, mid, r,
                 AltsBefore(builtins.isBuiltin, open, |open|), AltsBefore(builtins.isBuiltin, close, |close|));
  }

  lemma {:induction false} TotalAltsGrows(rules: seq<Json>, m: nat, n: nat)
    requires m <= n <= |rules|
    ensures TotalAlts(rules, m) <= TotalAlts(rules, n)
    decreases n
  {
    if m < n { TotalAltsGrows(rules, m, n - 1); }
  }

  /** The first `n` rules' alternates are allowed. */
  ghost predicate RulesBefore(isBuiltin: string -> bool, rules: seq<Json>, n: nat)
    requires n <= |rules|
  {
    n == 0 || (RulesBefore(isBuiltin, rules, n - 1) && RuleAllowed(isBuiltin, rules[n - 1]))
  }

  lemma {:induction false} RulesBeforeAt(isBuiltin: string -> bool, rules: seq<Json>, n: nat, i: nat)
    requires i < n <= |rules| && RulesBefore(isBuiltin, rules, n)
    ensures RuleAllowed(isBuiltin, rules[i])
    decreases n
  {
    if i < n - 1 { RulesBeforeAt(isBuiltin, rules, n - 1, i); }
  }

  lemma {:induction false} RulesBeforeAll(isBuiltin: string -> bool, rules: seq<Json>, n: nat)
    requires n <= |rules| && forall i :: 0 <= i < |rules| ==> RuleAllowed(isBuiltin, rules[i])
    ensures RulesBefore(isBuiltin, rules, n)
  {
    if n > 0 { RulesBeforeAll(isBuiltin, rules, n - 1); }
  }

  lemma {:induction false} RulesBeforeEach(isBuiltin: string -> bool, rules: seq<Json>)
    ensures RulesBefore(isBuiltin, rules, |rules|) <==>
      forall i :: 0 <= i < |rules| ==> RuleAllowed(isBuiltin, rules[i])
  {
    if RulesBefore(isBuiltin, rules, |rules|) {
      forall i | 0 <= i < |rules| ensures RuleAllowed(isBuiltin, rules[i]) {
        RulesBeforeAt(isBuiltin, rules, |rules|, i);
      }
    } else if forall i :: 0 <= i < |rules| ==> RuleAllowed(isBuiltin, rules[i]) {
      RulesBeforeAll(isBuiltin, rules, |rules|);
    }
  }

  /** Two searches one after the other. */
  lemma {:induction false} SearchedJoin(out: seq<Issue>, mid: seq<Issue>, r: seq<Issue>, a: bool, b: bool)
    requires Searched(out, mid, a) && Searched(mid, r, b)
    ensures Searched(out, r, a && b)
  {
  }

  /** The first `n` rules have been searched, and their alternates counted. */
  ghost predicate RulesScanned(
    isBuiltin: string -> bool, rules: seq<Json>, n: nat, out: seq<Issue>, r: seq<Issue>, altCount: nat)
  {
    n <= |rules| && altCount == TotalAlts(rules, n) && Searched(out, r, RulesBefore(isBuiltin, rules, n))
  }

  lemma {:induction false} RulesScannedStep(
    isBuiltin: string -> bool, rules: seq<Json>, n: nat, out: seq<Issue>, mid: seq<Issue>, altCount: nat,
    r: seq<Issue>)
    requires n < |rules| && RulesScanned(isBuiltin, rules, n, out, mid, altCount)
    requires Searched(mid, r, RuleAllowed(isBuiltin, rules[n]))
    ensures RulesScanned(isBuiltin, rules, n + 1, out, r, altCount + RuleAltCount(rules[n]))
  {
    SearchedJoin(out, mid, r, RulesBefore(isBuiltin, rules, n), RuleAllowed(isBuiltin, rules[n]));
  }

  /** Stopping past the cap changes nothing about the rules: their alternates are too many. */
  lemma {:induction false} ScanStops(
    isBuiltin: string -> bool, rules: seq<Json>, n: nat, out: seq<Issue>, r: seq<Issue>, altCount: nat)
    requires RulesScanned(isBuiltin, rules, n, out, r, altCount)
    requires n == |rules| || altCount > MAX_GRAMMAR_ALTS
    ensures altCount > MAX_GRAMMAR_ALTS <==> TotalAlts(rules, |rules|) > MAX_GRAMMAR_ALTS
    ensures altCount <= MAX_GRAMMAR_ALTS ==> Searched(out, r, RulesBefore(isBuiltin, rules, |rules|))
  {
    TotalAltsGrows(rules, n, |rules|);
  }

  lemma {:induction false} NothingScanned(isBuiltin: string -> bool, rules: seq<Json>, out: seq<Issue>)
    ensures RulesScanned(isBuiltin, rules, 0, out, out, 0)
  {
  }

  /** The alternates of the rules in turn, up to the break past the cap. */
  method ScanEachRule(rules: seq<Json>, out: seq<Issue>, builtins: BuiltinRefs) returns (r: seq<Issue>, altCount: nat)
    requires builtins.Valid()
    modifies builtins
    ensures builtins.Valid() && out <= r
    ensures altCount > MAX_GRAMMAR_ALTS <==> TotalAlts(rules, |rules|) > MAX_GRAMMAR_ALTS
    ensures altCount <= MAX_GRAMMAR_ALTS ==> Searched(out, r, RulesBefore(builtins.isBuiltin, rules, |rules|))
  {
    ghost var isBuiltin := builtins.isBuiltin;
    r, altCount := out, 0;
    NothingScanned(isBuiltin, rules, out);
    var i := 0;
    while i < |rules| && altCount <= MAX_GRAMMAR_ALTS
      invariant i <= |rules| && builtins.Valid()
      invariant RulesScanned(isBuiltin, rules, i, out, r, altCount)
    {
      ghost var mid := r;
      var alts;
      r, alts := ScanRule(rules[i], "$.rule", r, builtins);
      RulesScannedStep(isBuiltin, rules, i, out, mid, altCount, r);
      altCount := altCount + alts;
      i := i + 1;
    }
    ScanStops(isBuiltin, rules, i, out, r, altCount);
  }

  /** The rules: their number, their alternates' references, and the alternates' number. */
  method ScanRules(rules: seq<Json>, out: seq<Issue>, builtins: BuiltinRefs) returns (r: seq<Issue>)
    requires builtins.Valid()
    modifies builtins
    ensures builtins.Valid()
    ensures out <= r && (out == [] ==> (r == [] <==> RuleTableAllowed(builtins.isBuiltin, rules)))
  {
    r := out;
    if |rules| > MAX_GRAMMAR_RULES {
      r := r + [Issue("$.rule", TooManyRules)];
    }
    RulesBeforeEach(builtins.isBuiltin, rules);
    var altCount;
    r, altCount := ScanEachRule(rules, r, builtins);
    if altCount > MAX_GRAMMAR_ALTS {
      r := r + [Issue("$.rule", TooManyAlts)];
    }
  }

  /** The checks of single fields. */
  method ScanHeader(schema: Schema, spec: Json) returns (out: seq<Issue>)
    ensures |out| <= 3 && (out == [] <==> HeaderAllowed(schema, spec))
  {
    GetExactly(spec, "options");
    GetExactly(spec, "v");
    out := [];
    if HasKey(spec, "ref") {
      out := out + [Issue("$.ref", LiveRef)];
    }
    var options := Get(spec, "options");
    if options.Some? && HasKey(options.value, "plugins") {
      out := out + [Issue("$.options.plugins", Plugins)];
    }
    var v := Get(spec, "v");
    if v.Some? && v.value.Num? && schema.double(v.value.text) > schema.version {
      out := out + [Issue("$.v", SchemaVersion)];
    }
  }

  method ScanOptions(spec: Json, out: seq<Issue>, builtins: BuiltinRefs) returns (r: seq<Issue>)
    requires builtins.Valid() && CleanFrom(spec, 0) && |out| <= MAX_OPTIONS_ISSUES
    modifies builtins
    ensures builtins.Valid() && Found(out, r, OptionsFieldAllowed(builtins.isBuiltin, spec))
  {
    r := out;
    GetExactly(spec, "options");
    var options := Get(spec, "options");
    if options.Some? && IsContainer(options.value) {
      FieldIsClean(spec, "options");
      OptionsIsOptionsFrom(builtins.isBuiltin, options.value);
      r := ScanOptionsRefs(options.value, "$.options", out, 0, builtins);
    }
  }

  method ScanRuleField(spec: Json, out: seq<Issue>, builtins: BuiltinRefs) returns (r: seq<Issue>)
    requires builtins.Valid()
    modifies builtins
    ensures builtins.Valid() && out <= r
    ensures out == [] ==> (r == [] <==> RuleFieldAllowed(builtins.isBuiltin, spec))
  {
    GetExactly(spec, "rule");
    var rule := Get(spec, "rule");
    if rule.None? || !IsContainer(rule.value) {
      return out;
    }
    r := ScanRules(Children(rule.value), out, builtins);
  }

  /** The firewall is exact: it finds nothing exactly when the tree satisfies every rule. */
  method FirewallSpec(isBuiltin: string -> bool, schema: Schema, spec: Json) returns (issues: seq<Issue>)
    ensures issues == [] <==> Acceptable(isBuiltin, schema, spec)
  {
    if !spec.Obj? {
      return [Issue("$", NotAnObject)];
    }
    issues := ScanForbiddenKeys(spec, "$", [], 0);
    CleanIsCleanFrom(spec);
    if issues != [] {
      return;
    }
    issues := ScanHeader(schema, spec);
    var builtins := new BuiltinRefs(isBuiltin);
    issues := ScanOptions(spec, issues, builtins);
    issues := ScanRuleField(spec, issues, builtins);
  }

  lemma {:induction false} FieldIsClean(v: Json, key: string)
    requires CleanFrom(v, 0) && Get(v, key).Some?
    ensures CleanFrom(Get(v, key).value, 1)
  {
    var i := FieldIndex(v.fields, key);
    assert Children(v)[i] == v.fields[i].value;
  }

  lemma {:induction false} FieldIndex(fields: seq<Field>, key: string) returns (i: nat)
    requires FindKey(fields, key).Some?
    ensures i < |fields| && fields[i].value == FindKey(fields, key).value
  {
    if fields[0].key == key {
      i := 0;
    } else {
      i := FieldIndex(fields[1..], key);
      i := i + 1;
    }
  }
}
