/** Collector isolation over every run (rs/src/instances.rs, `Mux::parse`): what each step keeps,
    and what it means for the parses that return. */
module MuxRuns {
  import opened Wrappers
  import opened Mux
  import G = Gate

  /** The thread whose step it was keeps its invariant. */
  lemma {:induction false} OwnThread(s: State, a: Action, s': State)
    requires Inv(s)
    requires Step(s, a, s')
    ensures ThreadInv(s', a.t)
  {
    match a
    case Begin(_, _) => BeginKeeps(s, a, s');
    case Wake(_) => RecheckKeeps(s, a, s');
    case Recheck(_) => RecheckKeeps(s, a, s');
    case Activate(_) => ActivateKeeps(s, a, s');
    case Emit(_, _) => EmitKeeps(s, a, s');
    case Finish(_) => RestoreKeeps(s, a, s');
    case Unwind(_) => RestoreKeeps(s, a, s');
    case Leave(_, _) => LeaveKeeps(s, a, s');
  }

  /** So does every other thread: a step in the gate is the holder's, so a slot that changed is
      not theirs. */
  lemma {:induction false} OtherThread(s: State, a: Action, s': State, u: Tid)
    requires Inv(s)
    requires Step(s, a, s') && u != a.t
    ensures ThreadInv(s', u)
  {
    assert ThreadInv(s, a.t) && ThreadInv(s, u);
  }

  /** What a parse takes out of the slot is its own log. */
  lemma {:induction false} FinishReturnsLog(s: State, a: Action, s': State)
    requires Inv(s)
    requires Step(s, a, s') && a.Finish?
    ensures forall r :: r in s'.returned ==> r.collected == r.emitted
  {
    assert ThreadInv(s, a.t);
  }

  /** When the last turn is dropped, nothing is left in the slot. */
  lemma {:induction false} FreeIsEmpty(s: State, a: Action, s': State)
    requires Inv(s)
    requires Step(s, a, s') && a.Leave? && s'.gate.thread.None?
    ensures s'.slot.None?
  {
    assert ThreadInv(s, a.t);
  }

  lemma {:induction false} GateStep(s: State, a: Action, s': State)
    requires Inv(s)
    requires Step(s, a, s')
    ensures G.Inv(s'.gate)
  {
    match a
    case Begin(t, _) => G.StepKeepsInv(s.gate, G.Enter(t), s'.gate);
    case Wake(t) => G.StepKeepsInv(s.gate, G.Spurious(t), s'.gate);
    case Recheck(t) => G.StepKeepsInv(s.gate, G.Recheck(t), s'.gate);
    case Leave(t, notified) => G.StepKeepsInv(s.gate, G.Leave(t, notified), s'.gate);
    case _ =>
  }

  lemma {:induction false} StepKeepsInv(s: State, a: Action, s': State)
    requires Inv(s)
    requires Step(s, a, s')
    ensures Inv(s')
  {
    GateStep(s, a, s');
    forall t: Tid ensures ThreadInv(s', t) {
      if t == a.t { OwnThread(s, a, s'); } else { OtherThread(s, a, s', t); }
    }
    if a.Finish? { FinishReturnsLog(s, a, s'); }
    if a.Leave? && s'.gate.thread.None? { FreeIsEmpty(s, a, s'); }
    assert ThreadInv(s, a.t);
  }

  ghost predicate IsRun(states: seq<State>, actions: seq<Action>) {
    && |states| == |actions| + 1 && states[0] == INIT
    && forall n :: 0 <= n < |actions| ==> Step(states[n], actions[n], states[n + 1])
  }

  lemma {:induction false} RunKeepsInv(states: seq<State>, actions: seq<Action>, n: nat)
    requires IsRun(states, actions) && n < |states|
    ensures Inv(states[n])
    decreases n
  {
    if n == 0 {
      InitInv();
    } else {
      RunKeepsInv(states, actions, n - 1);
      StepKeepsInv(states[n - 1], actions[n - 1], states[n]);
    }
  }

  /** In every run, each parse returned exactly the events emitted while it was its thread's
      innermost call, whatever other threads did and whichever calls unwound. */
  lemma {:induction false} ParsesAreIsolated(states: seq<State>, actions: seq<Action>, n: nat)
    requires IsRun(states, actions) && n < |states|
    ensures forall r :: r in states[n].returned ==> r.collected == r.emitted
  {
    RunKeepsInv(states, actions, n);
  }

  /** In every run, the slot and the saved collectors are the stack of the holder's live calls:
      the slot holds the innermost active call's collector, each active call saved the one
      outside it, the outermost saved none, and a free gate means an empty slot. */
  lemma {:induction false} SlotIsTheHoldersStack(states: seq<State>, actions: seq<Action>, n: nat, t: Tid)
    requires IsRun(states, actions) && n < |states|
    ensures var s := states[n];
      && (s.gate.thread.None? ==> s.slot.None?)
      && (s.gate.thread == Some(t) ==> s.slot == Held(Calls(s, t), ActiveCount(Calls(s, t))))
      && Stacked(Calls(s, t))
      && (s.gate.thread != Some(t) ==> Inside(Calls(s, t)) == 0)
  {
    RunKeepsInv(states, actions, n);
    assert ThreadInv(states[n], t);
  }
}
