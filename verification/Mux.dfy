/** Collector isolation (rs/src/instances.rs, `Mux::parse`, `Mux::without_collector` and
    `Activation`): one slot holds the collector of the parse that is running, under the gate,
    saved and put back around every nested call, on unwind too.

    A run interleaves the steps of calls on any number of threads, nested to any depth, any of
    which may end by unwinding. Beside the slot, each call keeps the log of the events emitted
    while it was its thread's innermost call; the slot must always tell the same story. */
module Mux {
  import opened Wrappers
  import G = Gate

  type Tid = G.Tid
  type Event = int
  type Collector = Option<seq<Event>>

  /** How far a call has come: waiting in the gate's `enter`, in the gate, with its collector
      in the slot, or with the previous collector put back and the turn still held. */
  datatype Phase = Entering | Entered | Active | Restored

  /** One `parse` (or, without a collector, one `without_collector`) call. */
  datatype Call = Call(parse: bool, phase: Phase, previous: Collector, log: seq<Event>)

  /** What a parse returned, and what it should have. */
  datatype Return = Return(collected: seq<Event>, emitted: seq<Event>)

  datatype State = State(gate: G.State, slot: Collector, calls: map<Tid, seq<Call>>, returned: seq<Return>)

  datatype Action =
    | Begin(t: Tid, parse: bool)
    | Wake(t: Tid)
    | Recheck(t: Tid)
    | Activate(t: Tid)
    | Emit(t: Tid, e: Event)
    | Finish(t: Tid)
    | Unwind(t: Tid)
    | Leave(t: Tid, notified: Option<Tid>)

  const INIT := State(G.INIT, None, map[], [])

  /** The live calls of a thread, outermost first. */
  function Calls(s: State, t: Tid): seq<Call> {
    if t in s.calls then s.calls[t] else []
  }

  predicate TopIs(cs: seq<Call>, phase: Phase) {
    cs != [] && cs[|cs| - 1].phase == phase
  }

  function Top(cs: seq<Call>): Call
    requires cs != []
  {
    cs[|cs| - 1]
  }

  function WithTop(cs: seq<Call>, c: Call): seq<Call>
    requires cs != []
  {
    cs[|cs| - 1 := c]
  }

  /** The collector a call puts in the slot, holding what the call has logged. */
  function CollectorOf(c: Call): Collector {
    if c.parse then Some(c.log) else None
  }

  ghost predicate Step(s: State, a: Action, s': State) {
    var t := a.t;
    var cs := Calls(s, t);
    match a
    case Begin(_, parse) =>
      // A call starts on a thread with none, or inside the running engine call of another.
      && (cs == [] || TopIs(cs, Active))
      && G.Step(s.gate, G.Enter(t), s'.gate)
      && s' == s.(gate := s'.gate,
        calls := s.calls[t := cs + [Call(parse, if t in s'.gate.waiting then Entering else Entered, None, [])]])
    case Wake(_) =>
      G.Step(s.gate, G.Spurious(t), s'.gate) && s' == s.(gate := s'.gate)
    case Recheck(_) =>
      && TopIs(cs, Entering)
      && G.Step(s.gate, G.Recheck(t), s'.gate)
      && s' == s.(gate := s'.gate,
        calls := s.calls[t := WithTop(cs, Top(cs).(phase := if t in s'.gate.waiting then Entering else Entered))])
    case Activate(_) =>
      && TopIs(cs, Entered)
      && s' == s.(slot := if Top(cs).parse then Some([]) else None,
        calls := s.calls[t := WithTop(cs, Top(cs).(phase := Active, previous := s.slot, log := []))])
    case Emit(_, e) =>
      && TopIs(cs, Active)
      && s' == s.(slot := if s.slot.Some? then Some(s.slot.value + [e]) else None,
        calls := s.calls[t := WithTop(cs, Top(cs).(log := Top(cs).log + [e]))])
    case Finish(_) =>
      && TopIs(cs, Active)
      && s' == s.(slot := Top(cs).previous,
        calls := s.calls[t := WithTop(cs, Top(cs).(phase := Restored))],
        returned := if Top(cs).parse
          then s.returned + [Return(if s.slot.Some? then s.slot.value else [], Top(cs).log)]
          else s.returned)
    case Unwind(_) =>
      && TopIs(cs, Active)
      && s' == s.(slot := Top(cs).previous, calls := s.calls[t := WithTop(cs, Top(cs).(phase := Restored))])
    case Leave(_, notified) =>
      && TopIs(cs, Restored)
      && G.Step(s.gate, G.Leave(t, notified), s'.gate)
      && s' == s.(gate := s'.gate, calls := s.calls[t := cs[..|cs| - 1]])
  }

  // ---------------------------------------------------------------------------------------
  // What every run keeps.

  /** How many of a thread's calls are through the gate. */
  function Inside(cs: seq<Call>): nat {
    if TopIs(cs, Entering) then |cs| - 1 else |cs|
  }

  /** How many of a thread's calls have their collector in place. */
  function ActiveCount(cs: seq<Call>): nat {
    if cs == [] || TopIs(cs, Active) then |cs| else |cs| - 1
  }

  /** What the slot holds when the innermost active call is the `n`th. */
  function Held(cs: seq<Call>, n: nat): Collector
    requires n <= |cs|
  {
    if n == 0 then None else CollectorOf(cs[n - 1])
  }

  /** Every call but the innermost is active, and each active call saved what the one outside it
      had in the slot. */
  ghost predicate Stacked(cs: seq<Call>) {
    && (forall k :: 0 <= k < |cs| - 1 ==> cs[k].phase == Active)
    && (forall k :: 0 <= k < ActiveCount(cs) ==> cs[k].previous == Held(cs, k))
  }

  ghost predicate ThreadInv(s: State, t: Tid) {
    var cs := Calls(s, t);
    && Stacked(cs)
    && G.Turns(s.gate, t) == Inside(cs)
    && (t in s.gate.waiting <==> TopIs(cs, Entering))
    && (s.gate.thread == Some(t) ==> s.slot == Held(cs, ActiveCount(cs)))
  }

  ghost predicate Inv(s: State) {
    && G.Inv(s.gate)
    && (forall t: Tid :: ThreadInv(s, t))
    && (s.gate.thread.None? ==> s.slot.None?)
    && (forall r :: r in s.returned ==> r.collected == r.emitted)
  }

  lemma {:induction false} InitInv()
    ensures Inv(INIT)
  {
  }

  lemma {:induction false} BeginKeeps(s: State, a: Action, s': State)
    requires Inv(s) && Step(s, a, s') && a.Begin?
    ensures ThreadInv(s', a.t)
  {
    assert ThreadInv(s, a.t);
    var cs, cs' := Calls(s, a.t), Calls(s', a.t);
    assert cs'[..|cs|] == cs;
    forall k | 0 <= k < ActiveCount(cs') ensures cs'[k].previous == Held(cs', k) {
      assert cs'[k] == cs[k] && (k > 0 ==> cs'[k - 1] == cs[k - 1]);
    }
  }

  lemma {:induction false} RecheckKeeps(s: State, a: Action, s': State)
    requires Inv(s) && Step(s, a, s') && (a.Recheck? || a.Wake?)
    ensures ThreadInv(s', a.t)
  {
    assert ThreadInv(s, a.t);
  }

  lemma {:induction false} ActivateKeeps(s: State, a: Action, s': State)
    requires Inv(s) && Step(s, a, s') && a.Activate?
    ensures ThreadInv(s', a.t)
  {
    assert ThreadInv(s, a.t);
    TopReplaced(Calls(s, a.t), Calls(s', a.t));
  }

  lemma {:induction false} EmitKeeps(s: State, a: Action, s': State)
    requires Inv(s) && Step(s, a, s') && a.Emit?
    ensures ThreadInv(s', a.t)
  {
    assert ThreadInv(s, a.t);
    TopReplaced(Calls(s, a.t), Calls(s', a.t));
  }

  /** Replacing an innermost call by an active one keeps the stack, if the saved collector is
      the one outside it. */
  lemma {:induction false} TopReplaced(cs: seq<Call>, cs': seq<Call>)
    requires cs != [] && Stacked(cs) && TopIs(cs', Active) && cs' == WithTop(cs, Top(cs'))
    requires Top(cs').previous == Held(cs, |cs| - 1)
    ensures Stacked(cs') && ActiveCount(cs') == Inside(cs') == |cs|
    ensures Held(cs', |cs'|) == CollectorOf(Top(cs'))
  {
    forall k | 0 <= k < ActiveCount(cs') ensures cs'[k].previous == Held(cs', k) {
      assert k > 0 ==> cs'[k - 1] == cs[k - 1];
      assert k < |cs| - 1 ==> k < ActiveCount(cs);
    }
  }

  lemma {:induction false} RestoreKeeps(s: State, a: Action, s': State)
    requires Inv(s) && Step(s, a, s') && (a.Finish? || a.Unwind?)
    ensures ThreadInv(s', a.t)
  {
    assert ThreadInv(s, a.t);
  }

  lemma {:induction false} LeaveKeeps(s: State, a: Action, s': State)
    requires Inv(s) && Step(s, a, s') && a.Leave?
    ensures ThreadInv(s', a.t)
  {
    assert ThreadInv(s, a.t);
  }
}
