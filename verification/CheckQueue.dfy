/**
 * The script-check queue as a state machine.
 *
 * Thread 0 is the master; threads 1, 2, ... are the workers.  Every step is one
 * critical section of the queue's mutex, or one action a thread takes without
 * the mutex (running a check, abandoning its batch), or a cancellation.
 * Destructors do not run during a session and checks do not throw.
 */
module CheckQueue {
  import opened Wrappers

  /** `Some(true)` passed, `Some(false)` failed, `None` was cancelled. */
  type Verdict = Option<bool>

  /** A check is known by a number; equal checks may be queued more than once. */
  type Check = nat

  datatype Thread =
    | Outside
    | Blocked      // asleep on its condition variable
    | Signalled    // notified, has yet to reacquire the mutex
    | Working(batch: seq<Check>, next: nat, ok: Verdict)
  {
    predicate Inside() { !Outside? }
    predicate Waiting() { Blocked? || Signalled? }
  }

  /** What happened to the checks handed over in this session. */
  datatype History = History(
    added: multiset<Check>,
    passed: multiset<Check>,
    failed: multiset<Check>,
    emptied: multiset<Check>,
    skipped: multiset<Check>)

  datatype State = State(
    queue: seq<Check>,
    nIdle: int,
    nTotal: int,
    allOk: Verdict,
    nTodo: int,
    token: Option<bool>,    // the session token, and whether it is cancelled
    batchSize: nat,
    waitCalled: bool,
    threads: seq<Thread>,
    returned: Option<Verdict>,  // what Wait last returned
    history: History)
  {
    predicate Cancelled() { token == Some(true) }
    predicate MasterOutside() { |threads| > 0 && threads[0].Outside? }
    /** IsIdle. */
    predicate IsIdle() { nTotal == nIdle && nTodo == 0 }
  }

  function NoHistory(): History {
    History(multiset{}, multiset{}, multiset{}, multiset{}, multiset{})
  }

  ghost predicate Init(s: State) {
    && s.queue == [] && s.nIdle == 0 && s.nTotal == 0 && s.allOk == Some(true)
    && s.nTodo == 0 && s.token == None && s.waitCalled
    && |s.threads| > 0 && (forall t :: 0 <= t < |s.threads| ==> s.threads[t].Outside?)
    && s.returned == None && s.history == NoHistory()
  }

  // ---------------------------------------------------------------- steps

  function Max(a: int, b: int): int { if a < b then b else a }
  function Min(a: int, b: int): int { if a < b then a else b }

  /**
   * How many queued checks a thread takes at once.  The divisor is positive in
   * every reachable state (the counters count threads).
   */
  function BatchLength(s: State): (n: nat)
    requires s.queue != []
    ensures 1 <= n <= |s.queue| && n <= Max(1, s.batchSize)
  {
    var sharers := Max(1, s.nTotal + s.nIdle + 1);
    var share := |s.queue| / sharers;
    DivAtMost(|s.queue|, sharers);
    Max(1, Min(s.batchSize, share))
  }

  lemma DivAtMost(a: nat, b: nat)
    requires b > 0
    ensures a / b <= a
  {
    var q := a / b;
    assert q * b <= a;
    if q > 0 { assert q * b >= q * 1 by { MulMono(q, 1, b); } }
  }

  lemma MulMono(q: nat, a: nat, b: nat)
    requires a <= b
    ensures q * a <= q * b
  {}

  /**
   * What thread `t` does next while it holds the mutex, counted in nTotal and
   * not in nIdle: the master returns, or the thread sleeps, or it takes a batch.
   */
  function Dispatch(s: State, t: nat): State
    requires t < |s.threads|
  {
    if s.queue == [] then
      if t == 0 && s.nTodo == 0 then
        var result := if s.Cancelled() then None else s.allOk;
        s.(allOk := result, nTotal := s.nTotal - 1, threads := s.threads[0 := Outside], returned := Some(result))
      else
        s.(nIdle := s.nIdle + 1, threads := s.threads[t := Blocked])
    else
      var n := BatchLength(s);
      s.(queue := s.queue[n..], threads := s.threads[t := Working(s.queue[..n], 0, s.allOk)])
  }

  /** A thread hands in its batch: its verdict is joined to the others, and a cancelled queue is emptied. */
  function CleanUp(s: State, t: nat): State
    requires t < |s.threads| && s.threads[t].Working?
  {
    var w := s.threads[t];
    var allOk := if s.allOk.Some? && w.ok.Some? then Some(s.allOk.value && w.ok.value) else None;
    var todo := s.nTodo - |w.batch|;
    var s1 :=
      if s.Cancelled() then
        s.(allOk := allOk, nTodo := todo - |s.queue|, queue := [],
           history := s.history.(skipped := s.history.skipped + multiset(s.queue)))
      else
        s.(allOk := allOk, nTodo := todo);
    if s1.nTodo == 0 && t != 0 && s1.threads[0].Blocked? then
      s1.(threads := s1.threads[0 := Signalled])   // condMaster.notify_one
    else
      s1
  }

  /** The verdict of one executed check, recorded. */
  function Record(h: History, c: Check, v: Verdict): History {
    match v
    case Some(true) => h.(passed := h.passed + multiset{c})
    case Some(false) => h.(failed := h.failed + multiset{c})
    case None => h.(emptied := h.emptied + multiset{c})
  }

  datatype Step =
    | StartSession
    | Add(checks: seq<Check>, woken: nat)
    | CallWait
    | Enter(t: nat)
    | Run(t: nat, verdict: Verdict)
    | Abandon(t: nat)
    | Finish(t: nat)
    | Wake(t: nat)
    | SpuriousWake(t: nat)
    | Cancel

  /** Whether a batch runner stops before its next check. */
  predicate Stops(s: State, w: Thread)
    requires w.Working?
  {
    w.ok != Some(true) || s.Cancelled()
  }

  /** Waking every blocked worker (`condWorker.notify_all`). */
  function WakeWorkers(threads: seq<Thread>): (woken: seq<Thread>)
    ensures |woken| == |threads|
    ensures forall t :: 0 <= t < |threads| ==>
      woken[t] == if t > 0 && threads[t].Blocked? then Signalled else threads[t]
  {
    seq(|threads|, t requires 0 <= t < |threads| =>
      if t > 0 && threads[t].Blocked? then Signalled else threads[t])
  }

  /** Waking the chosen blocked worker, if it is one (`condWorker.notify_one`). */
  function WakeWorker(threads: seq<Thread>, t: nat): seq<Thread> {
    if 0 < t < |threads| && threads[t].Blocked? then threads[t := Signalled] else threads
  }

  /** Some worker is asleep. */
  predicate SomeWorkerBlocked(threads: seq<Thread>) {
    exists t :: 0 < t < |threads| && threads[t].Blocked?
  }

  predicate Enabled(s: State, step: Step) {
    match step
    case StartSession => s.MasterOutside() && s.waitCalled && s.IsIdle()
    case Add(checks, woken) =>
      && s.MasterOutside() && s.token.Some? && !s.waitCalled
      && (|checks| == 1 && SomeWorkerBlocked(s.threads) ==> 0 < woken < |s.threads| && s.threads[woken].Blocked?)
    case CallWait => s.MasterOutside() && s.token.Some?
    case Enter(t) => 0 < t < |s.threads| && s.threads[t].Outside?
    case Run(t, _) =>
      t < |s.threads| && s.threads[t].Working? && s.threads[t].next < |s.threads[t].batch| && !Stops(s, s.threads[t])
    case Abandon(t) =>
      t < |s.threads| && s.threads[t].Working? && s.threads[t].next < |s.threads[t].batch| && Stops(s, s.threads[t])
    case Finish(t) =>
      t < |s.threads| && s.threads[t].Working? && s.threads[t].next == |s.threads[t].batch|
    case Wake(t) => t < |s.threads| && s.threads[t].Signalled?
    case SpuriousWake(t) => t < |s.threads| && s.threads[t].Blocked?
    case Cancel => s.token == Some(false)
  }

  /** A new session, with a token that is not cancelled. */
  function Started(s: State): State {
    s.(token := Some(false), allOk := Some(true), waitCalled := false, returned := None, history := NoHistory())
  }

  function Apply(s: State, step: Step): State
    requires Enabled(s, step)
  {
    match step
    case StartSession => Started(s)
    case Add(checks, woken) =>
      s.(queue := s.queue + checks, nTodo := s.nTodo + |checks|,
         threads := if |checks| == 1 then WakeWorker(s.threads, woken)
                    else if |checks| > 1 then WakeWorkers(s.threads) else s.threads,
         history := s.history.(added := s.history.added + multiset(checks)))
    case CallWait => Dispatch(s.(waitCalled := true, nTotal := s.nTotal + 1, returned := None), 0)
    case Enter(t) => Dispatch(s.(nTotal := s.nTotal + 1), t)
    case Run(t, v) =>
      var w := s.threads[t];
      s.(threads := s.threads[t := w.(next := w.next + 1, ok := v)],
         history := Record(s.history, w.batch[w.next], v))
    case Abandon(t) =>
      var w := s.threads[t];
      s.(threads := s.threads[t := w.(next := |w.batch|)],
         history := s.history.(skipped := s.history.skipped + multiset(w.batch[w.next..])))
    case Finish(t) => Dispatch(CleanUp(s, t), t)
    case Wake(t) => Dispatch(s.(nIdle := s.nIdle - 1), t)
    case SpuriousWake(t) => Dispatch(s.(nIdle := s.nIdle - 1), t)
    case Cancel => s.(token := Some(true))
  }

  ghost predicate Next(s: State, s': State) {
    exists step :: Enabled(s, step) && s' == Apply(s, step)
  }

  ghost predicate IsRun(run: seq<State>) {
    && |run| > 0 && Init(run[0])
    && forall i :: 0 <= i < |run| - 1 ==> Next(run[i], run[i + 1])
  }
}
