/**
 * The scope guards of the pool, as a state machine over the pool, its queues and
 * all guards that are alive.  A guard is a handle to one queue or to none.  The
 * steps are what users do with guards, what the queues' threads do, and what
 * GetChecker does in its two critical sections, in any order.
 */
module CheckQueueGuards {
  import opened Wrappers
  import opened CheckQueuePool
  import Q = CheckQueue
  import P = CheckQueueProof

  datatype Phase =
    | Free                               // mPool is null
    | Holding(queue: nat)
    | Leaving(queue: nat)                // in the destructor, before Wait
    | Waiting(queue: nat, leaving: bool) // inside the queue's Wait, called by Wait or by the destructor

  datatype Guard = Guard(phase: Phase, result: Q.Verdict)

  datatype System = System(pool: PoolState, guards: map<nat, Guard>)

  datatype Step =
    | Request(value: int)
    | GetChecker(g: nat, value: int, now: int)
    | MakeFree(g: nat)
    | Add(g: nat, checks: seq<Q.Check>, woken: nat)
    | Wait(g: nat)
    | Returned(g: nat)
    | Destroy(g: nat)
    | Move(g: nat, to: nat)
    | Thread(queue: nat, step: Q.Step)
    | CancelToken(queue: nat)

  /** Nobody is inside a call on this guard. */
  predicate Quiet(s: System, g: nat) { g in s.guards && (s.guards[g].phase.Free? || s.guards[g].phase.Holding?) }

  predicate ByThread(step: Q.Step) {
    !step.StartSession? && !step.Add? && !step.CallWait? && !step.Cancel?
  }

  /** The steps that can be attempted: live objects, one caller at a time on each guard. */
  predicate Enabled(s: System, step: Step) {
    match step
    case Request(_) => true
    case GetChecker(g, _, _) => g !in s.guards && s.pool.idle != []
    case MakeFree(g) => g !in s.guards
    case Add(g, checks, woken) =>
      Quiet(s, g) && (s.guards[g].phase.Holding? ==> WokenOk(s, s.guards[g].phase.queue, checks, woken))
    case Wait(g) => g in s.guards && !s.guards[g].phase.Waiting?
    case Returned(g) =>
      g in s.guards && s.guards[g].phase.Waiting? && s.guards[g].phase.queue < |s.pool.queues|
      && s.pool.queues[s.guards[g].phase.queue].MasterOutside()
    case Destroy(g) => Quiet(s, g)
    case Move(g, to) => Quiet(s, g) && (to in s.guards ==> Quiet(s, to))
    case Thread(q, st) => q < |s.pool.queues| && ByThread(st) && Q.Enabled(s.pool.queues[q], st)
    case CancelToken(q) => q < |s.pool.queues| && Q.Enabled(s.pool.queues[q], Q.Cancel)
  }

  /** A single check wakes one worker, if one sleeps. */
  predicate WokenOk(s: System, q: nat, checks: seq<Q.Check>, woken: nat) {
    q < |s.pool.queues| && |checks| == 1 && Q.SomeWorkerBlocked(s.pool.queues[q].threads) ==>
      0 < woken < |s.pool.queues[q].threads| && s.pool.queues[q].threads[woken].Blocked?
  }

  function Put(s: System, q: nat, t: Q.State): System
    requires q < |s.pool.queues|
  {
    s.(pool := s.pool.(queues := s.pool.queues[q := t]))
  }

  function Set(s: System, g: nat, guard: Guard): System { s.(guards := s.guards[g := guard]) }

  function Remove(s: System, g: nat): System { s.(guards := s.guards - {g}) }

  /** The queue's own Add, which throws without a session or after Wait. */
  function AddTo(s: System, q: nat, checks: seq<Q.Check>, woken: nat): Outcome<System>
    requires WokenOk(s, q, checks, woken)
  {
    if q >= |s.pool.queues| || s.pool.queues[q].token.None? || s.pool.queues[q].waitCalled then Threw(s)
    else if !s.pool.queues[q].MasterOutside() then Aborted
    else Done(Put(s, q, Q.Apply(s.pool.queues[q], Q.Add(checks, woken))))
  }

  /** The queue's own Wait up to its first release of the mutex; it throws without a session. */
  function WaitOn(s: System, g: nat, q: nat, leaving: bool): Outcome<System>
    requires g in s.guards
  {
    if q >= |s.pool.queues| || s.pool.queues[q].token.None? then Threw(s)
    else if !s.pool.queues[q].MasterOutside() then Aborted
    else Done(Set(Put(s, q, Q.Apply(s.pool.queues[q], Q.CallWait)), g, s.guards[g].(phase := Waiting(q, leaving))))
  }

  /** Once Wait on the queue is over, it goes back to the pool and the guard is free, or gone. */
  function GiveBack(s: System, g: nat, q: nat, leaving: bool): Outcome<System>
    requires g in s.guards && q < |s.pool.queues|
  {
    match Return(s.pool, q)
    case Done(p) =>
      var verdict := if s.pool.queues[q].returned.Some? then s.pool.queues[q].returned.value else None;
      Done(if leaving then Remove(s, g).(pool := p) else Set(s, g, Guard(Free, verdict)).(pool := p))
    case Threw(_) => Threw(s)
    case Aborted => Aborted
  }

  /** The defaulted moves: the target takes over, whatever it held. */
  function Moved(s: System, g: nat, to: nat): System
    requires g in s.guards
  {
    if g == to then s else Set(Set(s, to, s.guards[g]), g, s.guards[g].(phase := Free))
  }

  function Do(s: System, step: Step): Outcome<System>
    requires Enabled(s, step)
  {
    match step
    case Request(value) => WithPool(s, Preempt(s.pool, value))
    case GetChecker(g, value, now) =>
      WithPool(Set(s, g, Guard(Holding(s.pool.idle[0]), None)), Take(s.pool, value, now))
    case MakeFree(g) => Done(Set(s, g, Guard(Free, Some(true))))
    case Add(g, checks, woken) =>
      if s.guards[g].phase.Free? then Threw(s) else AddTo(s, s.guards[g].phase.queue, checks, woken)
    case Wait(g) =>
      if s.guards[g].phase.Free? then Done(s) else WaitOn(s, g, s.guards[g].phase.queue, s.guards[g].phase.Leaving?)
    case Returned(g) => GiveBack(s, g, s.guards[g].phase.queue, s.guards[g].phase.leaving)
    case Destroy(g) =>
      if s.guards[g].phase.Free? then Done(Remove(s, g)) else Done(Leave(s, g, s.guards[g].phase.queue))
    case Move(g, to) => Done(Moved(s, g, to))
    case Thread(q, st) => Done(Put(s, q, Q.Apply(s.pool.queues[q], st)))
    case CancelToken(q) => Done(Put(s, q, Q.Apply(s.pool.queues[q], Q.Cancel)))
  }

  function WithPool(s: System, o: Outcome<PoolState>): Outcome<System> {
    match o
    case Done(p) => Done(s.(pool := p))
    case Threw(p) => Threw(s.(pool := p))
    case Aborted => Aborted
  }

  /** The destructor of a guard that holds a queue begins by cancelling. */
  function Leave(s: System, g: nat, q: nat): System
    requires g in s.guards
  {
    Set(s, g, s.guards[g].(phase := Leaving(q))).(pool := s.pool.(queues := Cancelled(s.pool.queues, q)))
  }

  // ---------------------------------------------------------------- the invariant

  /** Wait has been called in this session, and when it is over it has left a verdict. */
  predicate Waited(t: Q.State) { t.waitCalled && (t.MasterOutside() ==> t.returned.Some?) }

  predicate PhaseOk(ph: Phase, t: Q.State) {
    match ph
    case Free => true
    case Holding(_) => !t.waitCalled
    case Leaving(_) => !t.waitCalled
    case Waiting(_, _) => Waited(t)
  }

  predicate Holds(guard: Guard, q: nat) { !guard.phase.Free? && guard.phase.queue == q }

  /** What a guard holds is a running queue, in the state that the guard's phase says. */
  ghost predicate GuardOk(p: PoolState, guard: Guard) {
    guard.phase.Free? || (
      && guard.phase.queue in QueuesOf(p.running) && guard.phase.queue < |p.queues|
      && PhaseOk(guard.phase, p.queues[guard.phase.queue]))
  }

  ghost predicate Inv(s: System) {
    && PoolInv(s.pool)
    && (forall g :: g in s.guards ==> GuardOk(s.pool, s.guards[g]))
    && (forall g, h :: g in s.guards && h in s.guards && g != h && !s.guards[g].phase.Free? ==>
         !Holds(s.guards[h], s.guards[g].phase.queue))
  }

  ghost predicate Held(s: System, q: nat) { exists g :: g in s.guards && Holds(s.guards[g], q) }

  // ---------------------------------------------------------------- changes that keep it

  lemma {:induction false} RemoveKeeps(s: System, g: nat)
    requires Inv(s)
    ensures Inv(Remove(s, g))
  {}

  lemma {:induction false} SetKeeps(s: System, g: nat, guard: Guard)
    requires Inv(s) && GuardOk(s.pool, guard)
    requires guard.phase.Free? || forall h :: h in s.guards && h != g ==> !Holds(s.guards[h], guard.phase.queue)
    ensures Inv(Set(s, g, guard))
  {}

  /** A queue may change as its pool list and its guard allow. */
  lemma {:induction false} PutKeeps(s: System, q: nat, t: Q.State)
    requires Inv(s) && q < |s.pool.queues| && P.Inv(t)
    requires q in s.pool.idle ==> AtRest(t)
    requires q in QueuesOf(s.pool.running) ==> t.token.Some?
    requires forall g :: g in s.guards && Holds(s.guards[g], q) ==> PhaseOk(s.guards[g].phase, t)
    ensures Inv(Put(s, q, t))
  {}

  /** The holder of a queue changes it, and its own phase. */
  lemma {:induction false} HolderKeeps(s: System, g: nat, q: nat, t: Q.State, guard: Guard)
    requires Inv(s) && g in s.guards && Holds(s.guards[g], q) && Holds(guard, q) && q < |s.pool.queues|
    requires P.Inv(t) && t.token.Some? && PhaseOk(guard.phase, t)
    ensures Inv(Set(Put(s, q, t), g, guard))
  {
    RemoveKeeps(s, g);
    RunningIsNotIdle(s, q);
    PutKeeps(Remove(s, g), q, t);
    SetKeeps(Put(Remove(s, g), q, t), g, guard);
    assert (s.guards - {g})[g := guard] == s.guards[g := guard];
  }

  lemma RunningIsNotIdle(s: System, q: nat)
    requires Inv(s) && q in QueuesOf(s.pool.running)
    ensures q !in s.pool.idle
  {
    if q in s.pool.idle { IdleIsNotRunning(s.pool.idle, s.pool.running, |s.pool.queues|, q); }
  }

  /** A thread of the queue changes neither its token nor waitCalled, and the master leaves Wait with a verdict. */
  lemma {:induction false} ThreadKeeps(t: Q.State, step: Q.Step)
    requires P.Inv(t) && Q.Enabled(t, step) && ByThread(step)
    ensures var t' := Q.Apply(t, step);
      t'.token == t.token && t'.waitCalled == t.waitCalled && (Waited(t) ==> Waited(t'))
  {
    ThreadLeaves(t, step);
    var t' := Q.Apply(t, step);
    if t.threads[0].Inside() {
      if t'.threads[0].Outside? { P.LeavesByReturning(t, step); }
    } else {
      OutsideReturns(t, step);
    }
  }

  lemma {:induction false} ThreadLeaves(t: Q.State, step: Q.Step)
    requires Q.Enabled(t, step) && ByThread(step)
    ensures Q.Apply(t, step).token == t.token && Q.Apply(t, step).waitCalled == t.waitCalled
  {}

  /** The workers leave the verdict of the master alone. */
  lemma {:induction false} OutsideReturns(t: Q.State, step: Q.Step)
    requires Q.Enabled(t, step) && ByThread(step) && t.MasterOutside()
    ensures Q.Apply(t, step).returned == t.returned
  {}

  lemma {:induction false} CancelledKeeps(s: System, q: nat)
    requires Inv(s) && q < |s.pool.queues| && s.pool.queues[q].token.Some?
    ensures Inv(s.(pool := s.pool.(queues := Cancelled(s.pool.queues, q))))
  {
    CancelKeepsInv(s.pool.queues[q]);
    PutKeeps(s, q, s.pool.queues[q].(token := Some(true)));
  }

  lemma {:induction false} ThreadStepKeeps(s: System, q: nat, step: Q.Step)
    requires Inv(s) && Enabled(s, Thread(q, step))
    ensures Inv(Do(s, Thread(q, step)).state)
  {
    var t := s.pool.queues[q];
    P.StepInv(t, step);
    ThreadKeeps(t, step);
    if q in s.pool.idle { RestIsKept(t, step); }
    PutKeeps(s, q, Q.Apply(t, step));
  }

  lemma {:induction false} RequestKeeps(s: System, value: int)
    requires Inv(s)
    ensures Do(s, Request(value)).Done? && Inv(Do(s, Request(value)).state)
  {
    PreemptKeeps(s.pool, value);
    if s.pool.idle == [] {
      var w := Worst(s.pool.running);
      var q := s.pool.running[w].queue;
      assert QueuesOf(s.pool.running)[w] == q && q in s.pool.idle + QueuesOf(s.pool.running);
      CancelledKeeps(s, q);
    }
  }

  /** The idle queue that a new guard gets is in nobody else's hands. */
  lemma {:induction false} GetCheckerKeeps(s: System, g: nat, value: int, now: int)
    requires Inv(s) && Enabled(s, GetChecker(g, value, now))
    ensures Do(s, GetChecker(g, value, now)).Done? && Inv(Do(s, GetChecker(g, value, now)).state)
  {
    TakeKeeps(s.pool, value, now);
    var q, p := s.pool.idle[0], Take(s.pool, value, now).state;
    var r := Running(value, now, q);
    assert QueuesOf(s.pool.running + [r]) == QueuesOf(s.pool.running) + [q];
    IdleIsNotRunning(s.pool.idle, s.pool.running, |s.pool.queues|, q);
    assert forall h :: h in s.guards ==> !Holds(s.guards[h], q) && GuardOk(p, s.guards[h]);
    SetKeeps(s.(pool := p), g, Guard(Holding(q), None));
  }

  lemma {:induction false} AddKeeps(s: System, g: nat, checks: seq<Q.Check>, woken: nat)
    requires Inv(s) && Enabled(s, Add(g, checks, woken)) && s.guards[g].phase.Holding?
    ensures Do(s, Add(g, checks, woken)).Done? && Inv(Do(s, Add(g, checks, woken)).state)
  {
    var q := s.guards[g].phase.queue;
    var t := s.pool.queues[q];
    P.StepInv(t, Q.Add(checks, woken));
    HolderKeeps(s, g, q, Q.Apply(t, Q.Add(checks, woken)), s.guards[g]);
    assert s.guards[g := s.guards[g]] == s.guards;
  }

  lemma {:induction false} WaitKeeps(s: System, g: nat)
    requires Inv(s) && Enabled(s, Wait(g)) && !s.guards[g].phase.Free?
    ensures Do(s, Wait(g)).Done? && Inv(Do(s, Wait(g)).state)
  {
    var q := s.guards[g].phase.queue;
    var t := s.pool.queues[q];
    P.StepInv(t, Q.CallWait);
    HolderKeeps(s, g, q, Q.Apply(t, Q.CallWait), s.guards[g].(phase := Waiting(q, s.guards[g].phase.Leaving?)));
  }

  lemma {:induction false} DestroyKeeps(s: System, g: nat)
    requires Inv(s) && Enabled(s, Destroy(g))
    ensures Inv(Do(s, Destroy(g)).state)
  {
    if s.guards[g].phase.Free? {
      RemoveKeeps(s, g);
    } else {
      var q := s.guards[g].phase.queue;
      CancelKeepsInv(s.pool.queues[q]);
      HolderKeeps(s, g, q, s.pool.queues[q].(token := Some(true)), s.guards[g].(phase := Leaving(q)));
    }
  }

  /** When Wait is over the queue is idle and found, and the verdict is the queue's. */
  lemma {:induction false} ReturnedKeeps(s: System, g: nat)
    requires Inv(s) && Enabled(s, Returned(g))
    ensures Do(s, Returned(g)).Done? && Inv(Do(s, Returned(g)).state)
  {
    var q := s.guards[g].phase.queue;
    ReturnKeeps(s.pool, q);
    var p := Return(s.pool, q).state;
    RemoveKeeps(s, g);
    var s1 := Remove(s, g).(pool := p);
    forall h | h in s1.guards ensures GuardOk(p, s1.guards[h]) {
      assert GuardOk(s.pool, s.guards[h]);
    }
    assert Inv(s1);
    if !s.guards[g].phase.leaving {
      var guard := Guard(Free, s.pool.queues[q].returned.value);
      SetKeeps(s1, g, guard);
      assert (s.guards - {g})[g := guard] == s.guards[g := guard];
    }
  }

  lemma {:induction false} MoveKeeps(s: System, g: nat, to: nat)
    requires Inv(s) && Enabled(s, Move(g, to))
    ensures Inv(Do(s, Move(g, to)).state)
  {
    if g != to {
      var free := s.guards[g].(phase := Free);
      SetKeeps(s, g, free);
      SetKeeps(Set(s, g, free), to, s.guards[g]);
      assert s.guards[g := free][to := s.guards[g]] == s.guards[to := s.guards[g]][g := free];
    }
  }

  /** The only thing that can go wrong is a check added to a guard without a queue. */
  lemma {:induction false} StepKeeps(s: System, step: Step)
    requires Inv(s) && Enabled(s, step)
    ensures var o := Do(s, step);
      && !o.Aborted? && Inv(o.state)
      && (o.Threw? <==> step.Add? && s.guards[step.g].phase.Free?)
      && (o.Threw? ==> o.state == s)
  {
    match step
    case Request(value) => RequestKeeps(s, value);
    case GetChecker(g, value, now) => GetCheckerKeeps(s, g, value, now);
    case MakeFree(g) => SetKeeps(s, g, Guard(Free, Some(true)));
    case Add(g, checks, woken) => if !s.guards[g].phase.Free? { AddKeeps(s, g, checks, woken); }
    case Wait(g) => if !s.guards[g].phase.Free? { WaitKeeps(s, g); }
    case Returned(g) => ReturnedKeeps(s, g);
    case Destroy(g) => DestroyKeeps(s, g);
    case Move(g, to) => MoveKeeps(s, g, to);
    case Thread(q, st) => ThreadStepKeeps(s, q, st);
    case CancelToken(q) => CancelledKeeps(s, q);
  }

  // ---------------------------------------------------------------- every run

  ghost predicate Initial(s: System) {
    PoolInv(s.pool) && s.pool.running == [] && s.guards == map[]
  }

  /** States joined by steps, each of which ended normally or with an exception. */
  ghost predicate IsRun(states: seq<System>, steps: seq<Step>) {
    && |states| == |steps| + 1 && Initial(states[0])
    && forall i :: 0 <= i < |steps| ==> Joined(states[i], steps[i], states[i + 1])
  }

  ghost predicate Joined(s: System, step: Step, s': System) {
    Enabled(s, step) && !Do(s, step).Aborted? && s' == Do(s, step).state
  }

  lemma {:induction false} RunKeeps(states: seq<System>, steps: seq<Step>, i: nat)
    requires IsRun(states, steps) && i <= |steps|
    ensures Inv(states[i])
  {
    if i > 0 {
      RunKeeps(states, steps, i - 1);
      assert Joined(states[i - 1], steps[i - 1], states[i - 1 + 1]);
      StepKeeps(states[i - 1], steps[i - 1]);
    }
  }

  /**
   * Whatever has happened, whatever happens next: no assertion of the pool
   * fails, no queue is used by two callers, no session is refused, and only a
   * guard without a queue refuses checks.
   */
  lemma {:induction false} RunIsSafe(states: seq<System>, steps: seq<Step>, next: Step)
    requires IsRun(states, steps) && Enabled(states[|steps|], next)
    ensures var s, o := states[|steps|], Do(states[|steps|], next);
      !o.Aborted? && (o.Threw? <==> next.Add? && s.guards[next.g].phase.Free?)
  {
    RunKeeps(states, steps, |steps|);
    StepKeeps(states[|steps|], next);
  }

  /** What Wait on a guard leaves as its result is true of the session of its queue. */
  lemma {:induction false} ResultIsTrue(states: seq<System>, steps: seq<Step>, g: nat)
    requires IsRun(states, steps) && Enabled(states[|steps|], Returned(g)) && !states[|steps|].guards[g].phase.leaving
    ensures var s := states[|steps|];
      var o := Do(s, Returned(g));
      && o.Done? && o.state.guards[g].phase.Free?
      && P.Truthful(s.pool.queues[s.guards[g].phase.queue], o.state.guards[g].result)
      && s.pool.queues[s.guards[g].phase.queue].returned == Some(o.state.guards[g].result)
  {
    RunKeeps(states, steps, |steps|);
    ReturnedKeeps(states[|steps|], g);
  }

  /** A guard that goes while it holds a queue has the session cancelled, touches no other, and waits for it. */
  lemma {:induction false} DestroyStops(s: System, g: nat)
    requires Inv(s) && Enabled(s, Destroy(g)) && !s.guards[g].phase.Free?
    ensures var o, q := Do(s, Destroy(g)), s.guards[g].phase.queue;
      && o.Done? && q < |s.pool.queues| && |o.state.pool.queues| == |s.pool.queues|
      && o.state.pool.queues[q] == s.pool.queues[q].(token := Some(true))
      && (forall x :: 0 <= x < |s.pool.queues| && x != q ==> o.state.pool.queues[x] == s.pool.queues[x])
      && o.state.pool.running == s.pool.running && g in o.state.guards && o.state.guards[g].phase == Leaving(q)
      && Enabled(o.state, Wait(g))
  {}

  // ---------------------------------------------------------------- no queue is lost

  /** A running queue that no guard will give back. */
  ghost predicate Lost(s: System, q: nat) { q in QueuesOf(s.pool.running) && !Held(s, q) }

  /** The step is a move assignment to a guard that holds this queue. */
  predicate Drops(s: System, step: Step, q: nat) {
    step.Move? && step.g != step.to && step.to in s.guards && Holds(s.guards[step.to], q)
  }

  ghost predicate HeldBesides(s: System, g: nat, q: nat) {
    exists h :: h in s.guards && h != g && Holds(s.guards[h], q)
  }

  lemma {:induction false} HeldAfterSet(s: System, g: nat, guard: Guard, q: nat)
    ensures Held(Set(s, g, guard), q) <==> HeldBesides(s, g, q) || Holds(guard, q)
  {
    var s' := Set(s, g, guard);
    if Held(s', q) {
      var h :| h in s'.guards && Holds(s'.guards[h], q);
      if h != g { assert h in s.guards && Holds(s.guards[h], q); }
    }
    if HeldBesides(s, g, q) {
      var h :| h in s.guards && h != g && Holds(s.guards[h], q);
      assert h in s'.guards && Holds(s'.guards[h], q);
    }
    if Holds(guard, q) { assert g in s'.guards && Holds(s'.guards[g], q); }
  }

  lemma {:induction false} HeldSplits(s: System, g: nat, q: nat)
    ensures Held(s, q) <==> HeldBesides(s, g, q) || (g in s.guards && Holds(s.guards[g], q))
  {}

  lemma {:induction false} HeldAfterRemove(s: System, g: nat, q: nat)
    ensures Held(Remove(s, g), q) <==> HeldBesides(s, g, q)
  {
    var s' := Remove(s, g);
    if HeldBesides(s, g, q) {
      var h :| h in s.guards && h != g && Holds(s.guards[h], q);
      assert h in s'.guards && Holds(s'.guards[h], q);
    }
    if Held(s', q) {
      var h :| h in s'.guards && Holds(s'.guards[h], q);
      assert h in s.guards && h != g && Holds(s.guards[h], q);
    }
  }

  /** Only the guards and the running list count. */
  lemma {:induction false} LostSame(s: System, s': System, q: nat)
    requires s.guards == s'.guards && QueuesOf(s.pool.running) == QueuesOf(s'.pool.running)
    ensures Lost(s, q) <==> Lost(s', q)
  {
    if Held(s, q) { var g :| g in s.guards && Holds(s.guards[g], q); assert g in s'.guards && Holds(s'.guards[g], q); }
    if Held(s', q) { var g :| g in s'.guards && Holds(s'.guards[g], q); assert g in s.guards && Holds(s.guards[g], q); }
  }

  lemma {:induction false} LostAfterSet(s: System, g: nat, guard: Guard, q: nat)
    requires Holds(guard, q) <==> g in s.guards && Holds(s.guards[g], q)
    ensures Lost(s, q) <==> Lost(Set(s, g, guard), q)
  {
    HeldAfterSet(s, g, guard, q);
    HeldSplits(s, g, q);
  }

  lemma {:induction false} LostAfterTake(s: System, g: nat, value: int, now: int, q: nat)
    requires Inv(s) && Enabled(s, GetChecker(g, value, now))
    ensures Lost(s, q) <==> Lost(Do(s, GetChecker(g, value, now)).state, q)
  {
    TakeKeeps(s.pool, value, now);
    var q0, s' := s.pool.idle[0], Do(s, GetChecker(g, value, now)).state;
    assert QueuesOf(s.pool.running + [Running(value, now, q0)]) == QueuesOf(s.pool.running) + [q0];
    var guard := Guard(Holding(q0), None);
    IdleIsNotRunning(s.pool.idle, s.pool.running, |s.pool.queues|, q0);
    HeldAfterSet(s, g, guard, q);
    HeldSplits(s, g, q);
    LostSame(s', Set(s, g, guard).(pool := s'.pool), q);
    HeldIgnoresPool(Set(s, g, guard), s'.pool, q);
  }

  lemma {:induction false} HeldIgnoresPool(s: System, p: PoolState, q: nat)
    ensures Held(s, q) <==> Held(s.(pool := p), q)
  {
    var s' := s.(pool := p);
    if Held(s, q) { var g :| g in s.guards && Holds(s.guards[g], q); assert g in s'.guards && Holds(s'.guards[g], q); }
    if Held(s', q) { var g :| g in s'.guards && Holds(s'.guards[g], q); assert g in s.guards && Holds(s.guards[g], q); }
  }

  lemma {:induction false} LostAfterReturn(s: System, g: nat, q: nat)
    requires Inv(s) && Enabled(s, Returned(g))
    ensures Do(s, Returned(g)).Done? && (Lost(s, q) <==> Lost(Do(s, Returned(g)).state, q))
  {
    ReturnedKeeps(s, g);
    var q0 := s.guards[g].phase.queue;
    ReturnKeeps(s.pool, q0);
    var p, free := Return(s.pool, q0).state, Guard(Free, s.pool.queues[q0].returned.value);
    HeldSplits(s, g, q);
    HeldAfterRemove(s, g, q);
    HeldAfterSet(s, g, free, q);
    HeldIgnoresPool(Remove(s, g), p, q);
    HeldIgnoresPool(Set(s, g, free), p, q);
  }

  lemma {:induction false} LostAfterMove(s: System, g: nat, to: nat, q: nat)
    requires Inv(s) && Enabled(s, Move(g, to))
    ensures Lost(Moved(s, g, to), q) <==> Lost(s, q) || Drops(s, Move(g, to), q)
  {
    if g != to {
      var free, moving := s.guards[g].(phase := Free), s.guards[g];
      var s1 := Set(s, g, free);
      assert Moved(s, g, to) == Set(s1, to, moving) by {
        assert s.guards[g := free][to := moving] == s.guards[to := moving][g := free];
      }
      HeldSplits(s, g, q);
      HeldAfterSet(s, g, free, q);
      HeldSplits(s1, to, q);
      HeldAfterSet(s1, to, moving, q);
    }
  }

  /** A queue is lost when a guard that holds it is assigned to, and in no other way; it is never found again. */
  lemma {:induction false} LostAfter(s: System, step: Step, q: nat)
    requires Inv(s) && Enabled(s, step)
    ensures !Do(s, step).Aborted? && (Lost(Do(s, step).state, q) <==> Lost(s, q) || Drops(s, step, q))
  {
    StepKeeps(s, step);
    var s' := Do(s, step).state;
    match step
    case GetChecker(g, value, now) => LostAfterTake(s, g, value, now, q);
    case MakeFree(g) => LostAfterSet(s, g, Guard(Free, Some(true)), q);
    case Wait(g) =>
      if !s.guards[g].phase.Free? { LostAfterSet(s, g, s'.guards[g], q); LostSame(Set(s, g, s'.guards[g]), s', q); }
    case Returned(g) => LostAfterReturn(s, g, q);
    case Destroy(g) =>
      if s.guards[g].phase.Free? {
        HeldAfterRemove(s, g, q);
        HeldSplits(s, g, q);
      } else {
        LostAfterSet(s, g, s'.guards[g], q);
        LostSame(Set(s, g, s'.guards[g]), s', q);
      }
    case Move(g, to) => LostAfterMove(s, g, to, q);
    case _ => LostSame(s, s', q);
  }

  /** Over every run, exactly the queues that were dropped are lost. */
  lemma {:induction false} LostMeansDropped(states: seq<System>, steps: seq<Step>, n: nat, q: nat)
    requires IsRun(states, steps) && n <= |steps|
    ensures Lost(states[n], q) <==> exists i :: 0 <= i < n && Drops(states[i], steps[i], q)
  {
    if n > 0 {
      LostMeansDropped(states, steps, n - 1, q);
      RunKeeps(states, steps, n - 1);
      assert Joined(states[n - 1], steps[n - 1], states[n - 1 + 1]);
      LostAfter(states[n - 1], steps[n - 1], q);
    }
  }

  /** Without such assignments, live guards and running checkers match one to one. */
  lemma {:induction false} GuardsMatchRunning(states: seq<System>, steps: seq<Step>)
    requires IsRun(states, steps)
    requires forall i, q :: 0 <= i < |steps| ==> !Drops(states[i], steps[i], q)
    ensures var s := states[|steps|];
      && (forall q :: q in QueuesOf(s.pool.running) <==> Held(s, q))
      && (forall g, h, q :: g in s.guards && h in s.guards && Holds(s.guards[g], q) && Holds(s.guards[h], q) ==> g == h)
      && ((forall g :: g in s.guards ==> s.guards[g].phase.Free?) ==> s.pool.running == [])
  {
    var s := states[|steps|];
    RunKeeps(states, steps, |steps|);
    forall q ensures q in QueuesOf(s.pool.running) <==> Held(s, q) {
      LostMeansDropped(states, steps, |steps|, q);
    }
    if s.pool.running != [] { assert QueuesOf(s.pool.running)[0] in QueuesOf(s.pool.running); }
  }

  /** When every queue has been dropped, no request will be served again. */
  lemma {:induction false} AllLostStays(s: System, step: Step)
    requires Inv(s) && Enabled(s, step) && forall q :: 0 <= q < |s.pool.queues| ==> Lost(s, q)
    ensures !Do(s, step).Aborted? && !step.GetChecker?
    ensures var p := Do(s, step).state.pool;
      p.idle == [] && forall q :: 0 <= q < |p.queues| ==> Lost(Do(s, step).state, q)
  {
    StepKeeps(s, step);
    NoneIdle(s);
    var s' := Do(s, step).state;
    forall q | 0 <= q < |s'.pool.queues| ensures Lost(s', q) { LostAfter(s, step, q); }
    NoneIdle(s');
  }

  lemma {:induction false} NoneIdle(s: System)
    requires Inv(s) && forall q :: 0 <= q < |s.pool.queues| ==> Lost(s, q)
    ensures s.pool.idle == []
  {
    if s.pool.idle != [] {
      var q := s.pool.idle[0];
      assert q in s.pool.idle + QueuesOf(s.pool.running);
      assert Lost(s, q);
      RunningIsNotIdle(s, q);
    }
  }

  /** A free guard assigned to a guard that holds the only queue of a pool. */
  lemma {:induction false} AssignmentLosesQueue(s: System) returns (states: seq<System>, steps: seq<Step>)
    requires Initial(s) && |s.pool.queues| == 1
    ensures IsRun(states, steps) && states[0] == s && steps == [GetChecker(0, 0, 0), MakeFree(1), Move(1, 0)]
    ensures forall q :: 0 <= q < |states[3].pool.queues| ==> Lost(states[3], q)
  {
    assert 0 in s.pool.idle + QueuesOf(s.pool.running);
    assert s.pool.idle[0] in s.pool.idle + QueuesOf(s.pool.running);
    var step0, step1, step2 := GetChecker(0, 0, 0), MakeFree(1), Move(1, 0);
    StepKeeps(s, step0);
    var s1 := Do(s, step0).state;
    StepKeeps(s1, step1);
    var s2 := Do(s1, step1).state;
    LostAfter(s2, step2, 0);
    states, steps := [s, s1, s2, Do(s2, step2).state], [step0, step1, step2];
    forall i | 0 <= i < |steps| ensures Joined(states[i], steps[i], states[i + 1]) {}
  }
}
