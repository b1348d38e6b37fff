/** The gate that serializes parses (rs/src/instances.rs, `Gate` and `Turn`): a lock built from a
    mutex and a condition variable, which its holder may take again.

    Everything a thread does under the mutex is one step, and the steps of all threads
    interleave freely: entering, entering again, going to sleep, waking for no reason, checking
    again, barging in ahead of a woken thread, and leaving. */
module Gate {
  import opened Wrappers

  type Tid = nat

  /** A thread inside `enter` that does not hold the gate: asleep on the condition variable, or
      woken and yet to look again. */
  datatype Wait = Sleeping | Woken

  datatype State = State(thread: Option<Tid>, depth: nat, waiting: map<Tid, Wait>, turns: map<Tid, nat>)

  datatype Action = Enter(t: Tid) | Recheck(t: Tid) | Spurious(t: Tid) | Leave(t: Tid, notified: Option<Tid>)

  const INIT := State(None, 0, map[], map[])

  /** How many live turns a thread has. */
  function Turns(s: State, t: Tid): nat {
    if t in s.turns then s.turns[t] else 0
  }

  ghost predicate Asleep(s: State, t: Tid) {
    t in s.waiting && s.waiting[t] == Sleeping
  }

  ghost predicate IsWoken(s: State, t: Tid) {
    t in s.waiting && s.waiting[t] == Woken
  }

  /** Take the gate, or take it once more. */
  function Acquired(s: State, t: Tid): State {
    s.(thread := Some(t), depth := s.depth + 1,
       waiting := s.waiting - {t}, turns := s.turns[t := Turns(s, t) + 1])
  }

  /** What one step of one thread does. */
  ghost predicate Step(s: State, a: Action, s': State) {
    match a
    case Enter(t) =>
      && t !in s.waiting
      && s' == if s.thread.Some? && s.thread != Some(t) then s.(waiting := s.waiting[t := Sleeping]) else Acquired(s, t)
    case Recheck(t) =>
      && IsWoken(s, t)
      && s' == if s.thread.Some? then s.(waiting := s.waiting[t := Sleeping]) else Acquired(s, t)
    case Spurious(t) =>
      Asleep(s, t) && s' == s.(waiting := s.waiting[t := Woken])
    case Leave(t, notified) =>
      && Turns(s, t) > 0 && t !in s.waiting
      && (notified.Some? ==> Asleep(s, notified.value))
      && (notified.None? ==> forall u: Tid :: !Asleep(s, u))
      && s' == Left(s, t, notified)
  }

  /** Drop a turn; the last one frees the gate and wakes one sleeper, if there is any. */
  function Left(s: State, t: Tid, notified: Option<Tid>): State {
    var depth := if s.depth == 0 then 0 else s.depth - 1;
    var turns := s.turns[t := if Turns(s, t) == 0 then 0 else Turns(s, t) - 1];
    if depth > 0 then s.(depth := depth, turns := turns)
    else
      s.(thread := None, depth := 0, turns := turns,
         waiting := if notified.Some? then s.waiting[notified.value := Woken] else s.waiting)
  }

  // ---------------------------------------------------------------------------------------
  // What every run keeps.

  ghost predicate Inv(s: State) {
    && (s.thread.None? <==> s.depth == 0)
    && (forall t: Tid :: Turns(s, t) == if s.thread == Some(t) then s.depth else 0)
    && (forall t: Tid :: t in s.waiting ==> s.thread != Some(t))
    && (s.thread.None? && (exists t: Tid :: Asleep(s, t)) ==> exists t: Tid :: IsWoken(s, t))
  }

  lemma {:induction false} InitInv()
    ensures Inv(INIT)
  {
  }

  lemma {:induction false} StepKeepsInv(s: State, a: Action, s': State)
    requires Inv(s) && Step(s, a, s')
    ensures Inv(s')
  {
    match a
    case Enter(t) =>
    case Recheck(t) =>
    case Spurious(t) =>
      assert IsWoken(s', t);
    case Leave(t, notified) =>
      assert s.thread == Some(t);
      forall u: Tid | Asleep(s', u) ensures Asleep(s, u) {
      }
      if notified.Some? && s.depth == 1 {
        assert IsWoken(s', notified.value);
      }
  }

  /** A run: the states between the actions. */
  ghost predicate IsRun(states: seq<State>, actions: seq<Action>) {
    && |states| == |actions| + 1 && states[0] == INIT
    && forall n :: 0 <= n < |actions| ==> Step(states[n], actions[n], states[n + 1])
  }

  lemma {:induction false} RunKeepsInv(states: seq<State>, actions: seq<Action>, n: nat)
    requires IsRun(states, actions) && n < |states|
    ensures Inv(states[n])
    decreases n
  {
    if n == 0 {
      InitInv();
    } else {
      RunKeepsInv(states, actions, n - 1);
      StepKeepsInv(states[n - 1], actions[n - 1], states[n]);
    }
  }

  /** In every run: at most one thread has live turns, the depth counts them, the gate is free
      exactly at depth zero, and a thread that waits has no turn. */
  lemma {:induction false} OneHolder(states: seq<State>, actions: seq<Action>, n: nat, t: Tid, u: Tid)
    requires IsRun(states, actions) && n < |states|
    ensures var s := states[n];
      && (Turns(s, t) > 0 && Turns(s, u) > 0 ==> t == u)
      && (Turns(s, t) > 0 ==> s.thread == Some(t) && s.depth == Turns(s, t))
      && (s.depth == 0 <==> s.thread.None?)
      && (t in s.waiting ==> Turns(s, t) == 0)
  {
    RunKeepsInv(states, actions, n);
  }

  /** In every run, no wakeup is lost: when the gate is free and a thread waits for it, some
      woken thread has yet to look again, and looking now it takes the gate. */
  lemma {:induction false} NoLostWakeup(states: seq<State>, actions: seq<Action>, n: nat, t: Tid)
    requires IsRun(states, actions) && n < |states|
    requires states[n].thread.None? && t in states[n].waiting
    ensures exists u: Tid :: IsWoken(states[n], u) && Step(states[n], Recheck(u), Acquired(states[n], u))
  {
    RunKeepsInv(states, actions, n);
    var s := states[n];
    assert Asleep(s, t) || IsWoken(s, t);
    var u: Tid :| IsWoken(s, u);
    assert Step(s, Recheck(u), Acquired(s, u));
  }
}
