/**
 * The pool of check queues.  Each method is one critical section of the pool's
 * mutex.  What its users do with the queues they hold is in CheckQueueGuards.
 */
module CheckQueuePool {
  import opened Wrappers
  import Q = CheckQueue
  import P = CheckQueueProof

  datatype Running = Running(value: int, start: int, queue: nat)

  /** Lower value first, then longer running: the checker that is worth least. */
  predicate Worse(a: Running, b: Running) {
    a.value < b.value || (a.value == b.value && a.start < b.start)
  }

  /** Index `w` is the first of the checkers that none is worse than. */
  predicate IsWorst(running: seq<Running>, w: nat) {
    && w < |running|
    && (forall i :: 0 <= i < |running| ==> !Worse(running[i], running[w]))
    && (forall i :: 0 <= i < w ==> Worse(running[w], running[i]))
  }

  function Worst(running: seq<Running>): (w: nat)
    requires running != []
    ensures IsWorst(running, w)
  {
    var last := |running| - 1;
    if last == 0 then 0
    else
      var w := Worst(running[..last]);
      if Worse(running[last], running[w]) then last else w
  }

  /** The scan of GetChecker. */
  method FindWorst(running: seq<Running>) returns (worst: nat)
    requires running != []
    ensures worst == Worst(running) && IsWorst(running, worst)
  {
    worst := 0;
    var it := 1;
    while it < |running|
      invariant 1 <= it <= |running|
      invariant worst == Worst(running[..it])
    {
      assert running[..it + 1][..it] == running[..it];
      if running[worst].value > running[it].value {
        worst := it;
      } else if running[worst].value == running[it].value && running[worst].start > running[it].start {
        worst := it;
      }
      it := it + 1;
    }
    assert running[..it] == running;
  }

  predicate Distinct(s: seq<nat>) {
    forall i, j :: 0 <= i < j < |s| ==> s[i] != s[j]
  }

  function QueuesOf(running: seq<Running>): (qs: seq<nat>)
    ensures |qs| == |running|
    ensures forall i :: 0 <= i < |qs| ==> qs[i] == running[i].queue
  {
    seq(|running|, i requires 0 <= i < |running| => running[i].queue)
  }

  /** Each queue is in exactly one of the two lists, once. */
  ghost predicate Partition(idle: seq<nat>, running: seq<Running>, n: nat) {
    && Distinct(idle + QueuesOf(running))
    && (forall q: nat :: q < n <==> q in idle + QueuesOf(running))
  }

  /** A queue between sessions: its last Wait, if any, has returned. */
  predicate AtRest(s: Q.State) {
    s.waitCalled && s.MasterOutside()
  }

  datatype PoolState = PoolState(idle: seq<nat>, running: seq<Running>, queues: seq<Q.State>)

  ghost predicate PoolInv(p: PoolState) {
    && |p.queues| > 0
    && Partition(p.idle, p.running, |p.queues|)
    && (forall q :: 0 <= q < |p.queues| ==> P.Inv(p.queues[q]))
    && (forall q :: q in p.idle && 0 <= q < |p.queues| ==> AtRest(p.queues[q]))
    && (forall q :: q in QueuesOf(p.running) && 0 <= q < |p.queues| ==> p.queues[q].token.Some?)
  }

  // ---------------------------------------------------------------- the critical sections, with their checks

  /** How a call ends: normally, with an exception, or in a failed assertion or two users inside one queue. */
  datatype Outcome<S> = Done(state: S) | Threw(state: S) | Aborted

  function Cancelled(queues: seq<Q.State>, q: nat): seq<Q.State> {
    if q < |queues| then queues[q := queues[q].(token := Some(true))] else queues
  }

  /** GetChecker before it waits: with no queue idle, a checker worth less than the request is told to stop. */
  function Preempt(p: PoolState, value: int): Outcome<PoolState> {
    if p.idle != [] then Done(p)
    else if p.running == [] then Aborted
    else
      var w := p.running[Worst(p.running)];
      Done(if w.value < value then p.(queues := Cancelled(p.queues, w.queue)) else p)
  }

  /** GetChecker once a queue is idle: the front queue is listed as running, and its session started. */
  function Take(p: PoolState, value: int, now: int): Outcome<PoolState>
    requires p.idle != []
  {
    var q := p.idle[0];
    var listed := p.(idle := p.idle[1..], running := p.running + [Running(value, now, q)]);
    if q >= |p.queues| || !p.queues[q].waitCalled || !p.queues[q].IsIdle() then Threw(listed)
    else Done(listed.(queues := p.queues[q := Q.Started(p.queues[q])]))
  }

  /** The running list without the first entry of a queue. */
  function Erased(running: seq<Running>, q: nat): seq<Running> {
    if running == [] then []
    else if running[0].queue == q then running[1..]
    else [running[0]] + Erased(running[1..], q)
  }

  /** ReturnQueueToPool. */
  function Return(p: PoolState, q: nat): Outcome<PoolState> {
    if q >= |p.queues| || !p.queues[q].IsIdle() || q !in QueuesOf(p.running) then Aborted
    else Done(p.(idle := p.idle + [q], running := Erased(p.running, q)))
  }

  lemma {:induction false} ErasedAt(running: seq<Running>, q: nat, k: nat) returns (i: nat)
    requires k < |running| && running[k].queue == q
    ensures i <= k && running[i].queue == q && Erased(running, q) == running[..i] + running[i + 1..]
  {
    if running[0].queue == q {
      i := 0;
    } else {
      var rest := running[1..];
      var j := ErasedAt(rest, q, k - 1);
      i := j + 1;
      assert running[..i] == [running[0]] + rest[..j] && running[i + 1..] == rest[j + 1..];
    }
  }

  /** An empty idle list means that checkers are running, so asking for a queue never fails. */
  lemma PreemptKeeps(p: PoolState, value: int)
    requires PoolInv(p)
    ensures Preempt(p, value).Done? && PoolInv(Preempt(p, value).state)
  {
    assert 0 in p.idle + QueuesOf(p.running);
    if p.idle == [] {
      var w := Worst(p.running);
      var q := p.running[w].queue;
      assert QueuesOf(p.running)[w] == q;
      assert q in p.idle + QueuesOf(p.running);
      CancelKeepsInv(p.queues[q]);
    }
  }

  /** No checker is worth less than the i-th; of equal worth, none started before it, or with it and is listed first. */
  predicate WorthLeast(running: seq<Running>, i: nat)
    requires i < |running|
  {
    forall j :: 0 <= j < |running| && j != i ==>
      || running[i].value < running[j].value
      || (running[i].value == running[j].value && running[i].start < running[j].start)
      || (running[i].value == running[j].value && running[i].start == running[j].start && i < j)
  }

  lemma {:induction false} WorthLeastIs(running: seq<Running>, i: nat)
    requires i < |running|
    ensures WorthLeast(running, i) <==> i == Worst(running)
  {
    var w := Worst(running);
    assert WorthLeast(running, w);
  }

  /** A queue of a running checker is one of the pool's, and no other checker has it. */
  lemma {:induction false} RunningQueue(p: PoolState, i: nat)
    requires PoolInv(p) && i < |p.running|
    ensures p.running[i].queue < |p.queues|
    ensures forall j :: 0 <= j < |p.running| && j != i ==> p.running[j].queue != p.running[i].queue
  {
    var qs := QueuesOf(p.running);
    var all := p.idle + qs;
    assert all[|p.idle| + i] == qs[i] && qs[i] in all;
    forall j | 0 <= j < |qs| && j != i ensures qs[j] != qs[i] { assert all[|p.idle| + j] == qs[j]; }
  }

  /** Whether the token of the i-th running checker is cancelled. */
  predicate ToldToStop(p: PoolState, i: nat)
    requires i < |p.running|
  {
    p.running[i].queue < |p.queues| && p.queues[p.running[i].queue].Cancelled()
  }

  /**
   * Whom a request tells to stop: with a queue idle nobody; otherwise the checker worth least, if it is worth less than
   * the request, and no other. Nothing else changes.
   */
  lemma {:induction false} PreemptTells(p: PoolState, value: int)
    requires PoolInv(p) && Preempt(p, value).Done?
    ensures var p' := Preempt(p, value).state;
      && p'.idle == p.idle && p'.running == p.running && |p'.queues| == |p.queues|
      && (p.idle != [] ==> p' == p)
      && (forall q :: 0 <= q < |p.queues| ==> p'.queues[q] == p.queues[q].(token := p'.queues[q].token))
      && forall i :: 0 <= i < |p.running| ==>
        (ToldToStop(p', i) <==>
         ToldToStop(p, i) || (p.idle == [] && p.running[i].value < value && WorthLeast(p.running, i)))
  {
    var p' := Preempt(p, value).state;
    forall i | 0 <= i < |p.running|
      ensures ToldToStop(p', i) <==>
        ToldToStop(p, i) || (p.idle == [] && p.running[i].value < value && WorthLeast(p.running, i))
    {
      RunningQueue(p, i);
      WorthLeastIs(p.running, i);
    }
  }

  /** So nobody worth as much as the request is told to stop, and somebody is if anybody is worth less. */
  lemma {:induction false} PreemptIsFair(p: PoolState, value: int)
    requires PoolInv(p)
    ensures Preempt(p, value).Done?
    ensures var p' := Preempt(p, value).state;
      && p'.running == p.running
      && (forall i :: 0 <= i < |p.running| && p.running[i].value >= value ==> (ToldToStop(p', i) <==> ToldToStop(p, i)))
      && (p.idle == [] && (exists i :: 0 <= i < |p.running| && p.running[i].value < value) ==>
           exists w ::
             0 <= w < |p.running| && WorthLeast(p.running, w) && p.running[w].value < value && ToldToStop(p', w))
  {
    PreemptKeeps(p, value);
    PreemptTells(p, value);
    if p.idle == [] && exists i :: 0 <= i < |p.running| && p.running[i].value < value {
      var i :| 0 <= i < |p.running| && p.running[i].value < value;
      WorthLeastIs(p.running, Worst(p.running));
    }
  }

  /** The front of the idle list can start a session: "Session already in progress" is not thrown. */
  lemma TakeKeeps(p: PoolState, value: int, now: int)
    requires PoolInv(p) && p.idle != []
    ensures Take(p, value, now).Done? && PoolInv(Take(p, value, now).state)
    ensures p.idle[0] < |p.queues| && Q.Enabled(p.queues[p.idle[0]], Q.StartSession)
  {
    var q, before := p.idle[0], p.idle + QueuesOf(p.running);
    assert before[0] == q && q in before;
    P.InvIdle(p.queues[q]);
    P.StepInv(p.queues[q], Q.StartSession);
    var r := Running(value, now, q);
    TakeKeepsPartition(p.idle, p.running, r, |p.queues|);
    assert forall i :: 0 <= i < |p.idle| ==> before[i] == p.idle[i];
    assert QueuesOf(p.running + [r]) == QueuesOf(p.running) + [q];
  }

  datatype Demand = Demand(value: int, now: int)

  /** One demand for a queue after another, while queues are idle. */
  ghost function Served(p: PoolState, demands: seq<Demand>): (p': PoolState)
    requires PoolInv(p) && |demands| <= |p.idle|
    ensures PoolInv(p') && |p'.idle| == |p.idle| - |demands| && |p'.queues| == |p.queues|
    decreases |demands|
  {
    if demands == [] then p
    else
      var r := demands[0];
      TakeKeeps(p, r.value, r.now);
      Served(Take(p, r.value, r.now).state, demands[1..])
  }

  /**
   * Queues are handed out in the order in which they became idle, each listed with the value and time of its demand.
   * Its session is new and not cancelled, and nothing happens to the others.
   */
  lemma {:induction false} ServedInOrder(p: PoolState, demands: seq<Demand>)
    requires PoolInv(p) && |demands| <= |p.idle|
    ensures var p', n := Served(p, demands), |demands|;
      && p'.idle == p.idle[n..] && |p'.running| == |p.running| + n && p'.running[..|p.running|] == p.running
      && (forall k :: 0 <= k < n ==>
           p'.running[|p.running| + k] == Running(demands[k].value, demands[k].now, p.idle[k]))
      && forall q :: 0 <= q < |p.queues| ==>
        p'.queues[q] == if q in p.idle[..n] then Q.Started(p.queues[q]) else p.queues[q]
    decreases |demands|
  {
    if demands != [] {
      var r, p1 := demands[0], Take(p, demands[0].value, demands[0].now).state;
      TakeKeeps(p, r.value, r.now);
      ServedInOrder(p1, demands[1..]);
      ServedOneMore(p, demands, p1, Served(p1, demands[1..]));
    }
  }

  lemma {:induction false} ServedOneMore(p: PoolState, demands: seq<Demand>, p1: PoolState, p': PoolState)
    requires PoolInv(p) && 0 < |demands| <= |p.idle| && |p'.queues| == |p1.queues|
    requires Take(p, demands[0].value, demands[0].now) == Done(p1)
    requires var n, rest := |demands| - 1, demands[1..];
      && p'.idle == p1.idle[n..] && |p'.running| == |p1.running| + n && p'.running[..|p1.running|] == p1.running
      && (forall k :: 0 <= k < n ==>
           p'.running[|p1.running| + k] == Running(rest[k].value, rest[k].now, p1.idle[k]))
      && forall q :: 0 <= q < |p1.queues| ==>
        p'.queues[q] == if q in p1.idle[..n] then Q.Started(p1.queues[q]) else p1.queues[q]
    ensures var n := |demands|;
      && p'.idle == p.idle[n..] && |p'.running| == |p.running| + n && p'.running[..|p.running|] == p.running
      && (forall k :: 0 <= k < n ==>
           p'.running[|p.running| + k] == Running(demands[k].value, demands[k].now, p.idle[k]))
      && forall q :: 0 <= q < |p.queues| ==>
        p'.queues[q] == if q in p.idle[..n] then Q.Started(p.queues[q]) else p.queues[q]
  {
    var n, m := |demands|, |p.running|;
    assert p'.running[..m] == p'.running[..m + 1][..m];
    forall k | 0 <= k < n ensures p'.running[m + k] == Running(demands[k].value, demands[k].now, p.idle[k]) {
      if k == 0 {
        assert p'.running[m] == p'.running[..m + 1][m];
      } else {
        assert demands[1..][k - 1] == demands[k] && p1.idle[k - 1] == p.idle[k] && m + k == |p1.running| + (k - 1);
      }
    }
    assert p.idle[..n] == [p.idle[0]] + p1.idle[..n - 1];
    IdleOnce(p, n);
  }

  lemma {:induction false} IdleOnce(p: PoolState, n: nat)
    requires PoolInv(p) && 0 < n <= |p.idle|
    ensures p.idle[0] !in p.idle[1..][..n - 1]
  {
    var all, rest := p.idle + QueuesOf(p.running), p.idle[1..][..n - 1];
    forall k | 0 <= k < |rest| ensures rest[k] != p.idle[0] { assert all[0] != all[k + 1]; }
  }

  /** A running queue at rest goes back: it is idle, and it is found. */
  lemma ReturnKeeps(p: PoolState, q: nat)
    requires PoolInv(p) && q in QueuesOf(p.running) && q < |p.queues| && AtRest(p.queues[q])
    ensures Return(p, q).Done? && PoolInv(Return(p, q).state)
    ensures forall x :: x in QueuesOf(Return(p, q).state.running) <==> x in QueuesOf(p.running) && x != q
    ensures Return(p, q).state.idle == p.idle + [q] && Return(p, q).state.queues == p.queues
    ensures forall r :: r in p.running && r.queue != q ==> r in Return(p, q).state.running
  {
    P.InvIdle(p.queues[q]);
    var k :| 0 <= k < |p.running| && QueuesOf(p.running)[k] == q;
    var i := ErasedAt(p.running, q, k);
    ReturnKeepsPartition(p.idle, p.running, i, |p.queues|);
    ErasedQueues(p.idle, p.running, i, |p.queues|);
  }

  lemma ErasedQueues(idle: seq<nat>, running: seq<Running>, i: nat, n: nat)
    requires Partition(idle, running, n) && i < |running|
    ensures var after := QueuesOf(running[..i] + running[i + 1..]);
      forall x :: x in after <==> x in QueuesOf(running) && x != running[i].queue
  {
    var qs, after := QueuesOf(running), QueuesOf(running[..i] + running[i + 1..]);
    assert after == qs[..i] + qs[i + 1..] && qs == qs[..i] + [qs[i]] + qs[i + 1..];
    forall j | 0 <= j < |qs| && j != i ensures qs[j] != qs[i] {
      assert (idle + qs)[|idle| + j] == qs[j] && (idle + qs)[|idle| + i] == qs[i];
    }
  }

  /** Moving the head of the idle list to the end of the running list keeps the partition. */
  lemma TakeKeepsPartition(idle: seq<nat>, running: seq<Running>, r: Running, n: nat)
    requires Partition(idle, running, n) && idle != [] && r.queue == idle[0]
    ensures Partition(idle[1..], running + [r], n)
  {
    var before, after := idle + QueuesOf(running), idle[1..] + QueuesOf(running + [r]);
    assert QueuesOf(running + [r]) == QueuesOf(running) + [idle[0]];
    assert after == before[1..] + [before[0]];
    RotateKeepsMembers(before);
  }

  lemma RotateKeepsMembers(s: seq<nat>)
    requires s != [] && Distinct(s)
    ensures Distinct(s[1..] + [s[0]])
    ensures forall q :: q in s <==> q in s[1..] + [s[0]]
  {
    assert s == [s[0]] + s[1..];
  }

  /** Moving one running checker back to the end of the idle list keeps the partition. */
  lemma ReturnKeepsPartition(idle: seq<nat>, running: seq<Running>, i: nat, n: nat)
    requires Partition(idle, running, n) && i < |running|
    ensures Partition(idle + [running[i].queue], running[..i] + running[i + 1..], n)
  {
    var qs := QueuesOf(running);
    assert QueuesOf(running[..i] + running[i + 1..]) == qs[..i] + qs[i + 1..];
    MovedDistinct(idle, qs, i);
    MovedMembers(idle, qs, i);
    var idle', running' := idle + [running[i].queue], running[..i] + running[i + 1..];
    assert idle' + QueuesOf(running') == idle + [qs[i]] + (qs[..i] + qs[i + 1..]);
    forall q: nat ensures q < n <==> q in idle' + QueuesOf(running') { assert q < n <==> q in idle + qs; }
  }

  /** Moving one element to the front list repeats none. */
  lemma MovedDistinct(idle: seq<nat>, qs: seq<nat>, i: nat)
    requires i < |qs| && Distinct(idle + qs)
    ensures Distinct(idle + [qs[i]] + (qs[..i] + qs[i + 1..]))
  {
    var before, after, m := idle + qs, idle + [qs[i]] + (qs[..i] + qs[i + 1..]), |idle|;
    forall a, b | 0 <= a < b < |after| ensures after[a] != after[b] {
      var a0 := if a < m then a else if a == m then m + i else if a - m - 1 < i then a - 1 else a;
      var b0 := if b < m then b else if b == m then m + i else if b - m - 1 < i then b - 1 else b;
      assert after[a] == before[a0] && after[b] == before[b0] && a0 != b0;
    }
  }

  lemma MovedMembers(idle: seq<nat>, qs: seq<nat>, i: nat)
    requires i < |qs|
    ensures forall q: nat :: q in idle + qs <==> q in idle + [qs[i]] + (qs[..i] + qs[i + 1..])
  {
    assert qs == qs[..i] + [qs[i]] + qs[i + 1..];
    forall q: nat ensures q in idle + qs <==> q in idle + [qs[i]] + (qs[..i] + qs[i + 1..]) {
      assert q in idle + qs <==> q in idle || q in qs[..i] || q == qs[i] || q in qs[i + 1..];
    }
  }

  class Pool {
    var idle: seq<nat>
    var running: seq<Running>
    var queues: seq<Q.State>

    ghost function State(): PoolState
      reads this
    {
      PoolState(idle, running, queues)
    }

    constructor (poolSize: nat, threadCount: nat, batchSize: nat)
      requires poolSize > 0 && batchSize > 0
      ensures PoolInv(State()) && running == [] && |idle| == |queues| == poolSize
      ensures forall q :: 0 <= q < poolSize ==> Q.Init(queues[q]) && queues[q].batchSize == batchSize
    {
      var unused := Q.State([], 0, 0, Some(true), 0, None, batchSize, true, seq(threadCount + 1, _ => Q.Outside), None,
                            Q.NoHistory());
      P.InitInv(unused);
      var ids, qs := [], [];
      while |qs| < poolSize
        invariant |ids| == |qs| <= poolSize
        invariant forall i :: 0 <= i < |qs| ==> qs[i] == unused && ids[i] == i
      {
        qs, ids := qs + [unused], ids + [|ids|];
      }
      idle, running, queues := ids, [], qs;
      forall q: nat ensures q < poolSize <==> q in ids + QueuesOf([]) {
        if q < poolSize { assert ids[q] == q; }
      }
    }

    /** GetChecker before it waits; `ok` is false when its assertion fails. */
    method PreemptForRequest(value: int) returns (ok: bool)
      modifies this`queues
      ensures var o := Preempt(old(State()), value); ok == o.Done? && (ok ==> State() == o.state)
    {
      if idle == [] {
        if running == [] { return false; }
        var w := FindWorst(running);
        var q := running[w].queue;
        if running[w].value < value && q < |queues| {
          queues := queues[q := queues[q].(token := Some(true))];
        }
      }
      return true;
    }

    /** GetChecker once a queue is idle; `ok` is false when starting the session throws. */
    method TakeIdle(value: int, now: int) returns (ok: bool)
      requires idle != []
      modifies this
      ensures var o := Take(old(State()), value, now); ok == o.Done? && !o.Aborted? && State() == o.state
    {
      var q := idle[0];
      running := running + [Running(value, now, q)];
      idle := idle[1..];
      if q >= |queues| || !queues[q].waitCalled || !queues[q].IsIdle() { return false; }
      queues := queues[q := Q.Started(queues[q])];
      return true;
    }

    /** ReturnQueueToPool; `ok` is false when one of its assertions fails. */
    method ReturnQueueToPool(q: nat) returns (ok: bool)
      modifies this`idle, this`running
      ensures var o := Return(old(State()), q); ok == o.Done? && (ok ==> State() == o.state)
    {
      if q >= |queues| || !queues[q].IsIdle() { return false; }
      idle := idle + [q];
      var found, it := false, 0;
      while it < |running| && !found
        invariant 0 <= it <= |running| && idle == old(idle) + [q]
        invariant !found ==> running == old(running) && q !in QueuesOf(running)[..it]
        invariant !found ==> Erased(running, q) == running[..it] + Erased(running[it..], q)
        invariant found ==> q in QueuesOf(old(running)) && running == Erased(old(running), q)
        decreases |running| - it, !found
      {
        if running[it].queue == q {
          assert QueuesOf(running)[it] == q;
          running := running[..it] + running[it + 1..];
          found := true;
        } else {
          it := it + 1;
        }
      }
      return found;
    }
  }

  lemma IdleIsNotRunning(idle: seq<nat>, running: seq<Running>, n: nat, q: nat)
    requires Partition(idle, running, n) && q in idle
    ensures q !in QueuesOf(running)
  {
    var qs := QueuesOf(running);
    var i :| 0 <= i < |idle| && idle[i] == q;
    forall j | 0 <= j < |qs| ensures qs[j] != q {
      assert (idle + qs)[i] != (idle + qs)[|idle| + j];
    }
  }

  /** Cancelling a session, even one that is cancelled already. */
  lemma CancelKeepsInv(s: Q.State)
    requires P.Inv(s) && s.token.Some?
    ensures P.Inv(s.(token := Some(true))) && AtRest(s.(token := Some(true))) == AtRest(s)
  {
    var s' := s.(token := Some(true));
    if !s.token.value {
      P.StepInv(s, Q.Cancel);
      assert Q.Apply(s, Q.Cancel) == s';
    } else {
      assert s.token == Some(true);
      assert s' == s;
    }
  }

  /** The threads of a queue at rest may come and go, but it stays at rest. */
  lemma RestIsKept(s: Q.State, step: Q.Step)
    requires P.Inv(s) && AtRest(s) && Q.Enabled(s, step) && !step.StartSession? && !step.Add? && !step.CallWait?
    ensures AtRest(Q.Apply(s, step))
  {
    P.HeldIffWorking(s.threads);
  }
}
