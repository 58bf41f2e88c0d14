/**
 * What holds in every state the check queue can reach, over every interleaving
 * of the master and the workers: the counters count, no check is lost, the
 * verdict Wait returns is the truth about the session, and Wait cannot get
 * stuck and cannot run for ever.
 */
module CheckQueueProof {
  import opened Wrappers
  import opened CheckQueue

  // ---------------------------------------------------------------- counting threads

  datatype Tally = Tally(inside: nat, waiting: nat, held: nat, weight: nat)

  function Plus(a: Tally, b: Tally): Tally {
    Tally(a.inside + b.inside, a.waiting + b.waiting, a.held + b.held, a.weight + b.weight)
  }

  /** What one thread adds: being inside Loop, waiting, the checks it holds, and its part of the measure. */
  function Of(t: Thread): Tally {
    match t
    case Outside => Tally(0, 0, 0, 1)
    case Blocked => Tally(1, 1, 0, 0)
    case Signalled => Tally(1, 1, 0, 2)
    case Working(batch, next, _) =>
      Tally(1, 0, |batch|, 3 * |batch| + if next <= |batch| then |batch| - next else 0)
  }

  /** The tally of the first `n` threads. */
  function SumTo(ts: seq<Thread>, n: nat): Tally
    requires n <= |ts|
  {
    if n == 0 then Tally(0, 0, 0, 0) else Plus(SumTo(ts, n - 1), Of(ts[n - 1]))
  }

  function Sum(ts: seq<Thread>): Tally { SumTo(ts, |ts|) }

  /** How often a thread holds check `c` and has yet to run it. */
  function Pending(t: Thread, c: Check): nat {
    if t.Working? && t.next <= |t.batch| then multiset(t.batch[t.next..])[c] else 0
  }

  function RestTo(ts: seq<Thread>, n: nat, c: Check): nat
    requires n <= |ts|
  {
    if n == 0 then 0 else RestTo(ts, n - 1, c) + Pending(ts[n - 1], c)
  }

  function Rest(ts: seq<Thread>, c: Check): nat { RestTo(ts, |ts|, c) }

  lemma PlusExchange(a: Tally, b: Tally, o: Tally, x: Tally, q: Tally)
    requires Plus(a, o) == Plus(b, x)
    ensures Plus(Plus(a, q), o) == Plus(Plus(b, q), x)
  {}

  lemma {:induction false} SumToUpdate(ts: seq<Thread>, i: nat, x: Thread, n: nat)
    requires i < |ts| && n <= |ts|
    ensures n <= i ==> SumTo(ts[i := x], n) == SumTo(ts, n)
    ensures n > i ==> Plus(SumTo(ts[i := x], n), Of(ts[i])) == Plus(SumTo(ts, n), Of(x))
  {
    if n > 0 {
      SumToUpdate(ts, i, x, n - 1);
      if i < n - 1 { PlusExchange(SumTo(ts[i := x], n - 1), SumTo(ts, n - 1), Of(ts[i]), Of(x), Of(ts[n - 1])); }
    }
  }

  /** Replacing one thread exchanges its share of the tally. */
  lemma SumUpdate(ts: seq<Thread>, i: nat, x: Thread)
    requires i < |ts|
    ensures Plus(Sum(ts[i := x]), Of(ts[i])) == Plus(Sum(ts), Of(x))
  {
    SumToUpdate(ts, i, x, |ts|);
  }

  lemma {:induction false} RestToUpdate(ts: seq<Thread>, i: nat, x: Thread, c: Check, n: nat)
    requires i < |ts| && n <= |ts|
    ensures n <= i ==> RestTo(ts[i := x], n, c) == RestTo(ts, n, c)
    ensures n > i ==> RestTo(ts[i := x], n, c) + Pending(ts[i], c) == RestTo(ts, n, c) + Pending(x, c)
  {
    if n > 0 { RestToUpdate(ts, i, x, c, n - 1); }
  }

  lemma RestUpdate(ts: seq<Thread>, i: nat, x: Thread, c: Check)
    requires i < |ts|
    ensures Rest(ts[i := x], c) + Pending(ts[i], c) == Rest(ts, c) + Pending(x, c)
  {
    RestToUpdate(ts, i, x, c, |ts|);
  }

  /** Signalling a thread changes nothing but the measure. */
  predicate SameButWoken(a: Thread, b: Thread) {
    b == a || (a.Blocked? && b.Signalled?)
  }

  predicate AllSameButWoken(ts: seq<Thread>, us: seq<Thread>) {
    |ts| == |us| && forall i :: 0 <= i < |ts| ==> SameButWoken(ts[i], us[i])
  }

  lemma {:induction false} SumWoken(ts: seq<Thread>, us: seq<Thread>, n: nat)
    requires AllSameButWoken(ts, us) && n <= |ts|
    ensures SumTo(us, n) == SumTo(ts, n).(weight := SumTo(us, n).weight)
  {
    if n > 0 {
      SumWoken(ts, us, n - 1);
      assert SameButWoken(ts[n - 1], us[n - 1]);
    }
  }

  lemma {:induction false} RestWoken(ts: seq<Thread>, us: seq<Thread>, c: Check, n: nat)
    requires AllSameButWoken(ts, us) && n <= |ts|
    ensures RestTo(us, n, c) == RestTo(ts, n, c)
  {
    if n > 0 {
      RestWoken(ts, us, c, n - 1);
      assert SameButWoken(ts[n - 1], us[n - 1]);
    }
  }

  predicate GoodThread(t: Thread) {
    t.Working? ==> 1 <= |t.batch| && t.next <= |t.batch|
  }

  predicate GoodThreads(ts: seq<Thread>) {
    forall i :: 0 <= i < |ts| ==> GoodThread(ts[i])
  }

  predicate SomeoneWorks(ts: seq<Thread>) {
    exists i :: 0 <= i < |ts| && ts[i].Working?
  }

  lemma {:induction false} HeldCovers(ts: seq<Thread>, i: nat, n: nat)
    requires i < n <= |ts|
    ensures SumTo(ts, n).held >= Of(ts[i]).held
  {
    if n - 1 > i { HeldCovers(ts, i, n - 1); }
  }

  lemma {:induction false} HeldBySomeone(ts: seq<Thread>, n: nat)
    requires n <= |ts|
    ensures SumTo(ts, n).inside == SumTo(ts, n).waiting || SomeoneWorks(ts)
    ensures SumTo(ts, n).held == 0 || SomeoneWorks(ts)
  {
    if n > 0 { HeldBySomeone(ts, n - 1); }
  }

  /** Checks are held exactly when some thread works; otherwise everyone inside waits. */
  lemma HeldIffWorking(ts: seq<Thread>)
    requires GoodThreads(ts)
    ensures Sum(ts).held > 0 <==> SomeoneWorks(ts)
    ensures !SomeoneWorks(ts) ==> Sum(ts).inside == Sum(ts).waiting
  {
    HeldBySomeone(ts, |ts|);
    if SomeoneWorks(ts) {
      var i :| 0 <= i < |ts| && ts[i].Working?;
      assert GoodThread(ts[i]);
      HeldCovers(ts, i, |ts|);
    }
  }

  lemma {:induction false} NothingPending(ts: seq<Thread>, c: Check, n: nat)
    requires !SomeoneWorks(ts) && n <= |ts|
    ensures RestTo(ts, n, c) == 0
  {
    if n > 0 { NothingPending(ts, c, n - 1); }
  }

  lemma {:induction false} AllOutside(ts: seq<Thread>, n: nat)
    requires n <= |ts| && forall i :: 0 <= i < |ts| ==> ts[i].Outside?
    ensures SumTo(ts, n) == Tally(0, 0, 0, n)
  {
    if n > 0 { AllOutside(ts, n - 1); }
  }

  // ---------------------------------------------------------------- the invariant

  /** nTotal - nIdle threads hold a batch, and nTodo is the queue plus what they hold. */
  predicate Counted(s: State) {
    && s.nTotal == Sum(s.threads).inside
    && s.nIdle == Sum(s.threads).waiting
    && s.nTodo == |s.queue| + Sum(s.threads).held
  }

  /** Every check added in this session is queued, in some batch, run or skipped: none is lost or doubled. */
  ghost predicate Conserved(s: State) {
    forall c :: ConservedAt(s, c)
  }

  predicate ConservedAt(s: State, c: Check) {
    s.history.added[c] == multiset(s.queue)[c] + Rest(s.threads, c)
                          + s.history.passed[c] + s.history.failed[c] + s.history.emptied[c] + s.history.skipped[c]
  }

  /** A verdict other than true has a reason. */
  predicate Justified(s: State, v: Verdict) {
    && (v == Some(false) ==> s.history.failed != multiset{})
    && (v == None ==> s.Cancelled() || s.history.emptied != multiset{})
  }

  predicate AllJustified(s: State) {
    && Justified(s, s.allOk)
    && forall t :: 0 <= t < |s.threads| && s.threads[t].Working? ==> Justified(s, s.threads[t].ok)
  }

  predicate Doubted(ts: seq<Thread>) {
    exists t :: 0 <= t < |ts| && ts[t].Working? && ts[t].ok != Some(true)
  }

  /** A check that did not pass leaves a trace. */
  predicate Traced(s: State) {
    s.history.failed + s.history.emptied + s.history.skipped != multiset{} ==>
      s.Cancelled() || s.allOk != Some(true) || Doubted(s.threads)
  }

  /** What the three results of Wait mean. */
  predicate Truthful(s: State, v: Verdict) {
    && (v == Some(true) ==> s.history.passed == s.history.added
                            && s.history.failed == s.history.emptied == s.history.skipped == multiset{})
    && Justified(s, v)
  }

  /** How the master's position and the session fit together. */
  predicate Sessions(s: State) {
    && |s.threads| > 0
    && (s.token.None? ==> s.waitCalled && s.MasterOutside())
    && (!s.waitCalled ==> s.MasterOutside())
    && (s.waitCalled && s.MasterOutside() ==> s.nTodo == 0)
    && (s.threads[0].Blocked? ==> s.queue == [] && s.nTodo > 0)
    && (s.returned.Some? ==> s.waitCalled && s.MasterOutside() && Truthful(s, s.returned.value))
  }

  ghost predicate Inv(s: State) {
    && GoodThreads(s.threads)
    && Counted(s)
    && Conserved(s)
    && AllJustified(s)
    && Traced(s)
    && Sessions(s)
  }

  // ---------------------------------------------------------------- one step keeps it

  lemma InitInv(s: State)
    requires Init(s)
    ensures Inv(s)
  {
    AllOutside(s.threads, |s.threads|);
    forall c ensures ConservedAt(s, c) { NothingPending(s.threads, c, |s.threads|); }
  }

  /** The invariant while thread `t` holds the mutex inside Loop: it is counted, but holds nothing. */
  ghost predicate InHand(s: State, t: nat) {
    && t < |s.threads| && s.threads[t].Outside?
    && GoodThreads(s.threads)
    && s.nTotal == Sum(s.threads).inside + 1
    && s.nIdle == Sum(s.threads).waiting
    && s.nTodo == |s.queue| + Sum(s.threads).held
    && Conserved(s) && AllJustified(s) && Traced(s)
    && (s.token.None? ==> s.waitCalled && s.MasterOutside())
    && (!s.waitCalled ==> s.MasterOutside())
    && (t == 0 ==> s.waitCalled && s.token.Some? && s.returned == None)
    && (t != 0 ==> (s.waitCalled && s.MasterOutside() ==> s.nTodo == 0)
                   && (s.threads[0].Blocked? ==> s.queue == [] && s.nTodo > 0)
                   && (s.returned.Some? ==> s.waitCalled && s.MasterOutside() && Truthful(s, s.returned.value)))
  }

  /** Dispatch does not look at the entry of the thread it places. */
  lemma DispatchIgnoresEntry(s: State, t: nat)
    requires t < |s.threads|
    ensures Dispatch(s, t) == Dispatch(s.(threads := s.threads[t := Outside]), t)
  {
    var s' := s.(threads := s.threads[t := Outside]);
    assert s.threads[t := Outside] == s'.threads[t := Outside];
    assert s.threads[t := Blocked] == s'.threads[t := Blocked];
    if s.queue != [] {
      var n := BatchLength(s);
      assert n == BatchLength(s');
      var w := Working(s.queue[..n], 0, s.allOk);
      assert s.threads[t := w] == s'.threads[t := w];
    }
  }

  lemma DispatchReturns(s: State)
    requires InHand(s, 0) && s.queue == [] && s.nTodo == 0
    ensures Inv(Dispatch(s, 0))
  {
    var s' := Dispatch(s, 0);
    assert s'.threads == s.threads;
    HeldIffWorking(s.threads);
    assert !Doubted(s.threads);
    forall c ensures ConservedAt(s', c) && Rest(s.threads, c) == 0 {
      assert ConservedAt(s, c);
      NothingPending(s.threads, c, |s.threads|);
    }
    var h := s.history;
    if s'.allOk == Some(true) {
      assert h.failed + h.emptied + h.skipped == multiset{};
      forall c ensures h.passed[c] == h.added[c] && h.failed[c] == h.emptied[c] == h.skipped[c] == 0 {
        assert ConservedAt(s, c);
        assert (h.failed + h.emptied + h.skipped)[c] == 0;
      }
    }
  }

  lemma DispatchBlocks(s: State, t: nat)
    requires InHand(s, t) && s.queue == [] && !(t == 0 && s.nTodo == 0)
    ensures Inv(Dispatch(s, t))
  {
    var s' := Dispatch(s, t);
    SumUpdate(s.threads, t, Blocked);
    forall c ensures ConservedAt(s', c) {
      assert ConservedAt(s, c);
      RestUpdate(s.threads, t, Blocked, c);
    }
    if Doubted(s.threads) {
      var i :| 0 <= i < |s.threads| && s.threads[i].Working? && s.threads[i].ok != Some(true);
      assert s'.threads[i] == s.threads[i];
    }
  }

  lemma DispatchTakes(s: State, t: nat)
    requires InHand(s, t) && s.queue != []
    ensures Inv(Dispatch(s, t))
  {
    var s' := Dispatch(s, t);
    var n := BatchLength(s);
    var w := Working(s.queue[..n], 0, s.allOk);
    SumUpdate(s.threads, t, w);
    assert s.queue == s.queue[..n] + s.queue[n..];
    assert w.batch[0..] == w.batch;
    forall c ensures ConservedAt(s', c) {
      assert ConservedAt(s, c);
      RestUpdate(s.threads, t, w, c);
    }
    if Doubted(s.threads) {
      var i :| 0 <= i < |s.threads| && s.threads[i].Working? && s.threads[i].ok != Some(true);
      assert s'.threads[i] == s.threads[i];
    }
  }

  lemma DispatchInv(s: State, t: nat)
    requires InHand(s, t)
    ensures Inv(Dispatch(s, t))
  {
    if s.queue != [] {
      DispatchTakes(s, t);
    } else if t == 0 && s.nTodo == 0 {
      DispatchReturns(s);
    } else {
      DispatchBlocks(s, t);
    }
  }

  lemma StartInv(s: State)
    requires Inv(s) && Enabled(s, StartSession)
    ensures Inv(Apply(s, StartSession))
  {
    var s' := Apply(s, StartSession);
    HeldIffWorking(s.threads);
    forall c ensures ConservedAt(s', c) { NothingPending(s.threads, c, |s.threads|); }
  }

  lemma AddInv(s: State, step: Step)
    requires Inv(s) && step.Add? && Enabled(s, step)
    ensures Inv(Apply(s, step))
  {
    var s' := Apply(s, step);
    assert AllSameButWoken(s.threads, s'.threads);
    SumWoken(s.threads, s'.threads, |s.threads|);
    AddConserves(s, step);
    forall t | 0 <= t < |s.threads| ensures SameButWoken(s.threads[t], s'.threads[t]) {}
    if Doubted(s.threads) {
      var i :| 0 <= i < |s.threads| && s.threads[i].Working? && s.threads[i].ok != Some(true);
      assert s'.threads[i] == s.threads[i];
    }
  }

  lemma {:induction false} AddConserves(s: State, step: Step)
    requires Conserved(s) && step.Add? && Enabled(s, step)
    ensures Conserved(Apply(s, step))
  {
    var s' := Apply(s, step);
    assert AllSameButWoken(s.threads, s'.threads);
    forall c ensures ConservedAt(s', c) {
      assert ConservedAt(s, c);
      RestWoken(s.threads, s'.threads, c, |s.threads|);
    }
  }

  lemma EnterInv(s: State, t: nat)
    requires Inv(s) && Enabled(s, Enter(t))
    ensures Inv(Apply(s, Enter(t)))
  {
    var s1 := s.(nTotal := s.nTotal + 1);
    SameConserved(s, s1);
    DispatchInv(s1, t);
  }

  lemma {:induction false} SameConserved(s: State, s1: State)
    requires Conserved(s) && s1.queue == s.queue && s1.threads == s.threads && s1.history == s.history
    ensures Conserved(s1)
  {
    forall c ensures ConservedAt(s1, c) { assert ConservedAt(s, c); }
  }

  lemma CallWaitInv(s: State)
    requires Inv(s) && Enabled(s, CallWait)
    ensures Inv(Apply(s, CallWait))
  {
    var s1 := s.(waitCalled := true, nTotal := s.nTotal + 1, returned := None);
    SameConserved(s, s1);
    DispatchInv(s1, 0);
  }

  /** A woken thread: it leaves the idle count and holds the mutex. */
  lemma WakeInv(s: State, t: nat)
    requires Inv(s) && t < |s.threads| && s.threads[t].Waiting()
    ensures Inv(Dispatch(s.(nIdle := s.nIdle - 1), t))
  {
    var s0 := s.(nIdle := s.nIdle - 1);
    var s1 := s0.(threads := s.threads[t := Outside]);
    DispatchIgnoresEntry(s0, t);
    SumUpdate(s.threads, t, Outside);
    forall c ensures ConservedAt(s1, c) {
      assert ConservedAt(s, c);
      RestUpdate(s.threads, t, Outside, c);
    }
    if Doubted(s.threads) {
      var i :| 0 <= i < |s.threads| && s.threads[i].Working? && s.threads[i].ok != Some(true);
      assert s1.threads[i] == s.threads[i];
    }
    DispatchInv(s1, t);
  }

  /** Outside a session nobody works. */
  lemma WorkMeansSession(s: State, t: nat)
    requires Inv(s) && t < |s.threads| && s.threads[t].Working?
    ensures s.token.Some? && s.nTodo > 0 && !(s.waitCalled && s.MasterOutside()) && s.returned == None
  {
    HeldIffWorking(s.threads);
  }

  lemma RunInv(s: State, t: nat, v: Verdict)
    requires Inv(s) && Enabled(s, Run(t, v))
    ensures Inv(Apply(s, Run(t, v)))
  {
    var s' := Apply(s, Run(t, v));
    var w := s.threads[t];
    var w' := w.(next := w.next + 1, ok := v);
    WorkMeansSession(s, t);
    SumUpdate(s.threads, t, w');
    RunConserves(s, t, v);
    RunJustifies(s, t, v);
    RunTraces(s, t, v);
  }

  lemma RunConserves(s: State, t: nat, v: Verdict)
    requires Conserved(s) && Enabled(s, Run(t, v))
    ensures Conserved(Apply(s, Run(t, v)))
  {
    var s' := Apply(s, Run(t, v));
    var w := s.threads[t];
    var w' := w.(next := w.next + 1, ok := v);
    assert w.batch[w.next..] == [w.batch[w.next]] + w.batch[w.next + 1..];
    forall c ensures ConservedAt(s', c) {
      assert ConservedAt(s, c);
      RestUpdate(s.threads, t, w', c);
      RunMovesOne(s.history, w, v, c);
    }
  }

  lemma {:induction false} RunMovesOne(h: History, w: Thread, v: Verdict, c: Check)
    requires w.Working? && w.next < |w.batch|
    ensures var h', w' := Record(h, w.batch[w.next], v), w.(next := w.next + 1, ok := v);
      && h'.added == h.added && h'.skipped == h.skipped
      && Pending(w', c) + h'.passed[c] + h'.failed[c] + h'.emptied[c]
         == Pending(w, c) + h.passed[c] + h.failed[c] + h.emptied[c]
  {
    assert w.batch[w.next..] == [w.batch[w.next]] + w.batch[w.next + 1..];
  }

  lemma RunJustifies(s: State, t: nat, v: Verdict)
    requires AllJustified(s) && Enabled(s, Run(t, v))
    ensures AllJustified(Apply(s, Run(t, v)))
  {
    RecordGrows(s.history, s.threads[t].batch[s.threads[t].next], v);
  }

  lemma {:induction false} RecordGrows(h: History, c: Check, v: Verdict)
    ensures var h' := Record(h, c, v);
      && (h.failed != multiset{} || v == Some(false) ==> h'.failed != multiset{})
      && (h.emptied != multiset{} || v == None ==> h'.emptied != multiset{})
  {
    var h' := Record(h, c, v);
    assert v == Some(false) ==> c in h'.failed;
    assert v == None ==> c in h'.emptied;
  }

  lemma RunTraces(s: State, t: nat, v: Verdict)
    requires Traced(s) && Enabled(s, Run(t, v))
    ensures Traced(Apply(s, Run(t, v)))
  {
    var s' := Apply(s, Run(t, v));
    if v != Some(true) {
      assert s'.threads[t].Working? && s'.threads[t].ok != Some(true);
    } else if Doubted(s.threads) {
      var i :| 0 <= i < |s.threads| && s.threads[i].Working? && s.threads[i].ok != Some(true);
      assert i != t && s'.threads[i] == s.threads[i];
    }
  }

  lemma AbandonInv(s: State, t: nat)
    requires Inv(s) && Enabled(s, Abandon(t))
    ensures Inv(Apply(s, Abandon(t)))
  {
    var s' := Apply(s, Abandon(t));
    var w := s.threads[t];
    var w' := w.(next := |w.batch|);
    WorkMeansSession(s, t);
    SumUpdate(s.threads, t, w');
    assert w.batch[|w.batch|..] == [];
    forall c ensures ConservedAt(s', c) {
      assert ConservedAt(s, c);
      RestUpdate(s.threads, t, w', c);
    }
    if !s.Cancelled() { assert s'.threads[t].Working? && s'.threads[t].ok != Some(true); }
  }

  /** The clean-up leaves the thread with the mutex and nothing in hand. */
  lemma CleanUpInHand(s: State, t: nat, s1: State)
    requires Inv(s) && Enabled(s, Finish(t)) && CleanedUp(s, t, s1)
    ensures InHand(s1, t)
  {
    WorkMeansSession(s, t);
    CleanUpCounts(s, t, s1);
    CleanUpConserves(s, t, s1);
    CleanUpJustifies(s, t, s1);
    CleanUpTraces(s, t, s1);
  }

  predicate CleanedUp(s: State, t: nat, s1: State)
    requires Enabled(s, Finish(t))
  {
    var c1 := CleanUp(s, t);
    s1 == c1.(threads := c1.threads[t := Outside])
  }

  lemma CleanUpCounts(s: State, t: nat, s1: State)
    requires GoodThreads(s.threads) && Counted(s) && Enabled(s, Finish(t)) && CleanedUp(s, t, s1)
    ensures GoodThreads(s1.threads)
    ensures s1.nTotal == Sum(s1.threads).inside + 1 && s1.nIdle == Sum(s1.threads).waiting
    ensures s1.nTodo == |s1.queue| + Sum(s1.threads).held
  {
    var c1 := CleanUp(s, t);
    assert AllSameButWoken(s.threads, c1.threads);
    SumWoken(s.threads, c1.threads, |s.threads|);
    assert c1.threads[t] == s.threads[t];
    SumUpdate(c1.threads, t, Outside);
  }

  lemma CleanUpConserves(s: State, t: nat, s1: State)
    requires Conserved(s) && Enabled(s, Finish(t))
    requires CleanedUp(s, t, s1)
    ensures Conserved(s1)
  {
    var c1 := CleanUp(s, t);
    assert AllSameButWoken(s.threads, c1.threads);
    assert s.threads[t].batch[|s.threads[t].batch|..] == [];
    forall c ensures ConservedAt(s1, c) {
      assert ConservedAt(s, c);
      RestWoken(s.threads, c1.threads, c, |s.threads|);
      RestUpdate(c1.threads, t, Outside, c);
    }
  }

  lemma CleanUpJustifies(s: State, t: nat, s1: State)
    requires AllJustified(s) && Enabled(s, Finish(t)) && CleanedUp(s, t, s1)
    ensures AllJustified(s1)
  {
    assert Justified(s, s.threads[t].ok);
    forall i | 0 <= i < |s1.threads| && s1.threads[i].Working?
      ensures Justified(s1, s1.threads[i].ok)
    {
      assert s1.threads[i] == s.threads[i];
    }
  }

  lemma CleanUpTraces(s: State, t: nat, s1: State)
    requires Traced(s) && Enabled(s, Finish(t)) && CleanedUp(s, t, s1)
    ensures Traced(s1)
  {
    if Doubted(s.threads) && !s.Cancelled() {
      var i :| 0 <= i < |s.threads| && s.threads[i].Working? && s.threads[i].ok != Some(true);
      if i != t { assert s1.threads[i] == s.threads[i]; }
    }
  }

  lemma FinishInv(s: State, t: nat)
    requires Inv(s) && Enabled(s, Finish(t))
    ensures Inv(Apply(s, Finish(t)))
  {
    var c1 := CleanUp(s, t);
    var s1 := c1.(threads := c1.threads[t := Outside]);
    CleanUpInHand(s, t, s1);
    DispatchIgnoresEntry(c1, t);
    DispatchInv(s1, t);
  }

  lemma CancelInv(s: State)
    requires Inv(s) && Enabled(s, Cancel)
    ensures Inv(Apply(s, Cancel))
  {
    SameConserved(s, Apply(s, Cancel));
  }

  lemma ThreadStepInv(s: State, step: Step)
    requires Inv(s) && Enabled(s, step)
    requires step.Enter? || step.Run? || step.Abandon? || step.Finish? || step.Wake? || step.SpuriousWake?
    ensures Inv(Apply(s, step))
  {
    match step
    case Enter(t) => EnterInv(s, t);
    case Run(t, v) => RunInv(s, t, v);
    case Abandon(t) => AbandonInv(s, t);
    case Finish(t) => FinishInv(s, t);
    case Wake(t) => WakeInv(s, t);
    case SpuriousWake(t) => WakeInv(s, t);
  }

  lemma StepInv(s: State, step: Step)
    requires Inv(s) && Enabled(s, step)
    ensures Inv(Apply(s, step))
  {
    if step.StartSession? {
      StartInv(s);
    } else if step.Add? {
      AddInv(s, step);
    } else if step.CallWait? {
      CallWaitInv(s);
    } else if step.Cancel? {
      CancelInv(s);
    } else {
      ThreadStepInv(s, step);
    }
  }

  /** Every state of every run satisfies the invariant. */
  lemma {:induction false} RunKeepsInv(run: seq<State>, i: nat)
    requires IsRun(run) && i < |run|
    ensures Inv(run[i])
  {
    if i == 0 {
      InitInv(run[0]);
    } else {
      RunKeepsInv(run, i - 1);
      assert Next(run[i - 1], run[i - 1 + 1]);
      var step :| Enabled(run[i - 1], step) && run[i] == Apply(run[i - 1], step);
      StepInv(run[i - 1], step);
    }
  }

  // ---------------------------------------------------------------- safety of whole runs

  /** The threads that hold a batch. */
  function Holders(ts: seq<Thread>): set<nat> {
    set t: nat | t < |ts| && ts[t].Working?
  }

  function HoldersBelow(ts: seq<Thread>, n: nat): set<nat>
    requires n <= |ts|
  {
    set t: nat | t < n && ts[t].Working?
  }

  lemma HoldersNext(ts: seq<Thread>, n: nat)
    requires n < |ts|
    ensures |HoldersBelow(ts, n + 1)| == |HoldersBelow(ts, n)| + if ts[n].Working? then 1 else 0
  {
    if ts[n].Working? {
      assert HoldersBelow(ts, n + 1) == HoldersBelow(ts, n) + {n};
    } else {
      assert HoldersBelow(ts, n + 1) == HoldersBelow(ts, n);
    }
  }

  lemma {:induction false} HoldersTo(ts: seq<Thread>, n: nat)
    requires n <= |ts|
    ensures SumTo(ts, n).inside == SumTo(ts, n).waiting + |HoldersBelow(ts, n)|
  {
    if n > 0 {
      HoldersTo(ts, n - 1);
      HoldersNext(ts, n - 1);
    } else {
      assert HoldersBelow(ts, n) == {};
    }
  }

  /** In every reachable state nTotal - nIdle threads hold a batch, and nTodo accounts for every unfinished check. */
  lemma CountersCount(run: seq<State>, i: nat)
    requires IsRun(run) && i < |run|
    ensures run[i].nTotal - run[i].nIdle == |Holders(run[i].threads)|
    ensures run[i].nTodo == |run[i].queue| + Sum(run[i].threads).held
    ensures 0 <= run[i].nIdle <= run[i].nTotal <= |run[i].threads| && 0 <= run[i].nTodo
  {
    RunKeepsInv(run, i);
    var ts := run[i].threads;
    HoldersTo(ts, |ts|);
    InsideAtMost(ts, |ts|);
  }

  lemma {:induction false} InsideAtMost(ts: seq<Thread>, n: nat)
    requires n <= |ts|
    ensures SumTo(ts, n).inside <= n
  {
    if n > 0 { InsideAtMost(ts, n - 1); }
  }

  /**
   * What Wait returns is true of the session: true only if every check added in
   * it ran exactly once and passed, false only if some check failed, and empty
   * only if the token is cancelled or some check came back empty.
   */
  lemma WaitTellsTheTruth(run: seq<State>, i: nat)
    requires IsRun(run) && i < |run| && run[i].returned.Some?
    ensures var h, v := run[i].history, run[i].returned.value;
      && (v == Some(true) ==> h.passed == h.added && h.failed == h.emptied == h.skipped == multiset{})
      && (v == Some(false) ==> h.failed != multiset{})
      && (v == None ==> run[i].Cancelled() || h.emptied != multiset{})
  {
    RunKeepsInv(run, i);
  }

  /** A thread other than `t` works on a batch whose verdict is empty. */
  predicate BlankBut(ts: seq<Thread>, t: int) {
    exists i :: 0 <= i < |ts| && i != t && ts[i].Working? && ts[i].ok == None
  }

  /** A check that came back empty empties the verdict of its batch, and then of the session. */
  predicate EmptiedTraced(s: State, t: int) {
    s.history.emptied != multiset{} ==> s.allOk == None || BlankBut(s.threads, t)
  }

  lemma {:induction false} BlankStays(ts: seq<Thread>, us: seq<Thread>, t: int, u: int)
    requires |ts| == |us| && BlankBut(ts, t)
    requires forall i :: 0 <= i < |ts| && i != t && ts[i].Working? ==> i != u && us[i] == ts[i]
    ensures BlankBut(us, u)
  {
    var i :| 0 <= i < |ts| && i != t && ts[i].Working? && ts[i].ok == None;
    assert us[i] == ts[i];
  }

  lemma {:induction false} DispatchEmptied(s: State, t: nat)
    requires t < |s.threads| && EmptiedTraced(s, t)
    ensures EmptiedTraced(Dispatch(s, t), -1)
  {
    var s' := Dispatch(s, t);
    if BlankBut(s.threads, t) { BlankStays(s.threads, s'.threads, t, -1); }
  }

  lemma {:induction false} FinishEmptied(s: State, t: nat)
    requires Enabled(s, Finish(t)) && EmptiedTraced(s, -1)
    ensures EmptiedTraced(Apply(s, Finish(t)), -1)
  {
    var s1 := CleanUp(s, t);
    if BlankBut(s.threads, -1) && s1.allOk.Some? {
      assert BlankBut(s.threads, t);
      BlankStays(s.threads, s1.threads, t, t);
    }
    DispatchEmptied(s1, t);
  }

  lemma {:induction false} RunEmptied(s: State, t: nat, v: Verdict)
    requires Enabled(s, Run(t, v)) && EmptiedTraced(s, -1)
    ensures EmptiedTraced(Apply(s, Run(t, v)), -1)
  {
    var s' := Apply(s, Run(t, v));
    if v == None {
      assert s'.threads[t].Working? && s'.threads[t].ok == None;
    } else if BlankBut(s.threads, -1) {
      assert BlankBut(s.threads, t);
      BlankStays(s.threads, s'.threads, t, -1);
    }
  }

  lemma {:induction false} AwakeEmptied(s: State, t: nat, n: int)
    requires t < |s.threads| && !s.threads[t].Working? && EmptiedTraced(s, -1)
    ensures EmptiedTraced(Dispatch(s.(nIdle := n), t), -1)
  {
    if BlankBut(s.threads, -1) { BlankStays(s.threads, s.threads, -1, t); }
    DispatchEmptied(s.(nIdle := n), t);
  }

  lemma {:induction false} StepEmptied(s: State, step: Step)
    requires Enabled(s, step) && EmptiedTraced(s, -1)
    ensures EmptiedTraced(Apply(s, step), -1)
  {
    var s' := Apply(s, step);
    match step
    case Run(t, v) => RunEmptied(s, t, v);
    case Finish(t) => FinishEmptied(s, t);
    case Wake(t) => AwakeEmptied(s, t, s.nIdle - 1);
    case SpuriousWake(t) => AwakeEmptied(s, t, s.nIdle - 1);
    case Enter(t) => AwakeEmptied(s.(nTotal := s.nTotal + 1), t, s.nIdle);
    case CallWait =>
      AwakeEmptied(s.(waitCalled := true, nTotal := s.nTotal + 1, returned := None), 0, s.nIdle);
    case Abandon(t) =>
      if BlankBut(s.threads, -1) {
        var i :| 0 <= i < |s.threads| && i != -1 && s.threads[i].Working? && s.threads[i].ok == None;
        assert s'.threads[i].Working? && s'.threads[i].ok == None;
      }
    case Add(_, _) => if BlankBut(s.threads, -1) { BlankStays(s.threads, s'.threads, -1, -1); }
    case StartSession =>
    case Cancel =>
  }

  lemma {:induction false} RunKeepsEmptied(run: seq<State>, i: nat)
    requires IsRun(run) && i < |run|
    ensures EmptiedTraced(run[i], -1)
  {
    if i > 0 {
      RunKeepsEmptied(run, i - 1);
      assert Next(run[i - 1], run[i - 1 + 1]);
      NextEmptied(run[i - 1], run[i]);
    }
  }

  lemma {:induction false} NextEmptied(s: State, s': State)
    requires Next(s, s') && EmptiedTraced(s, -1)
    ensures EmptiedTraced(s', -1)
  {
    var step :| Enabled(s, step) && s' == Apply(s, step);
    StepEmptied(s, step);
  }

  /** Which of the three results it is, from the token and from what happened to the checks. */
  ghost predicate ExactResult(s: State, v: Verdict) {
    && (v == None <==> s.Cancelled() || s.history.emptied != multiset{})
    && (v == Some(false) <==> !s.Cancelled() && s.history.emptied == multiset{} && s.history.failed != multiset{})
    && (v == Some(true) <==> !s.Cancelled() && s.history.emptied == multiset{} && s.history.failed == multiset{})
  }

  /** The step makes Wait return. */
  predicate MakesWaitReturn(s: State, step: Step)
    requires Enabled(s, step)
  {
    Apply(s, step).returned.Some? && (s.returned.None? || step.CallWait?)
  }

  /** In that step a cancelled token empties the result. */
  lemma {:induction false} ReturnsVerdict(s: State, step: Step)
    requires Enabled(s, step) && MakesWaitReturn(s, step)
    ensures var s' := Apply(s, step); s'.returned == Some(s'.allOk) && (s'.Cancelled() ==> s'.allOk == None)
  {}

  /**
   * Whatever step of whatever run makes Wait return: the result is empty if and only if the token is cancelled then or
   * some check came back empty, otherwise false if and only if some check failed, and otherwise true.
   */
  lemma {:induction false} WaitResultIsExact(run: seq<State>, i: nat, step: Step)
    requires IsRun(run) && i < |run| && Enabled(run[i], step) && MakesWaitReturn(run[i], step)
    ensures var s' := Apply(run[i], step); ExactResult(s', s'.returned.value)
  {
    RunKeepsInv(run, i);
    RunKeepsEmptied(run, i);
    ReturnIsExact(run[i], step);
  }

  lemma {:induction false} ReturnIsExact(s: State, step: Step)
    requires Inv(s) && EmptiedTraced(s, -1) && Enabled(s, step) && MakesWaitReturn(s, step)
    ensures var s' := Apply(s, step); ExactResult(s', s'.returned.value)
  {
    StepInv(s, step);
    StepEmptied(s, step);
    ReturnsVerdict(s, step);
    ExactFromInv(Apply(s, step));
  }

  lemma {:induction false} ExactFromInv(s: State)
    requires Inv(s) && EmptiedTraced(s, -1) && s.returned == Some(s.allOk) && (s.Cancelled() ==> s.allOk == None)
    ensures ExactResult(s, s.allOk)
  {
    HeldIffWorking(s.threads);
    assert !Doubted(s.threads) && !BlankBut(s.threads, -1);
    var h := s.history;
    assert h.failed != multiset{} ==> h.failed + h.emptied + h.skipped != multiset{} by {
      assert h.failed <= h.failed + h.emptied + h.skipped;
    }
    match s.allOk
    case None =>
    case Some(true) =>
    case Some(false) =>
  }

  /** A result stays what it was when Wait returned, and so does the history it speaks of. */
  lemma {:induction false} ResultStays(s: State, step: Step)
    requires Inv(s) && Enabled(s, step) && s.returned.Some? && Apply(s, step).returned.Some? && !step.CallWait?
    ensures Apply(s, step).returned == s.returned && Apply(s, step).history == s.history
  {
    HeldIffWorking(s.threads);
  }

  /** Either Wait returns now, or its result was there already. */
  lemma {:induction false} ReturnedOrStayed(s: State, s': State)
    requires Inv(s) && EmptiedTraced(s, -1) && Next(s, s') && s'.returned.Some?
    ensures ExactResult(s', s'.returned.value) || (s'.returned == s.returned && s'.history == s.history)
  {
    var step :| Enabled(s, step) && s' == Apply(s, step);
    if MakesWaitReturn(s, step) { ReturnIsExact(s, step); } else { ResultStays(s, step); }
  }

  /** So in every state the last result of Wait is exact of the state in which it was given. */
  lemma {:induction false} ResultWasExact(run: seq<State>, i: nat) returns (j: nat)
    requires IsRun(run) && i < |run| && run[i].returned.Some?
    ensures j <= i && run[j].returned == run[i].returned && run[j].history == run[i].history
    ensures ExactResult(run[j], run[j].returned.value)
  {
    j := i;
    if !ExactResult(run[i], run[i].returned.value) {
      assert i > 0 && Next(run[i - 1], run[i - 1 + 1]);
      RunKeepsInv(run, i - 1);
      RunKeepsEmptied(run, i - 1);
      ReturnedOrStayed(run[i - 1], run[i]);
      j := ResultWasExact(run, i - 1);
    }
  }

  /**
   * Once Wait has returned the queue is idle, so a new session can start: "Session already in progress" is not
   * thrown.
   */
  lemma IdleAfterWait(run: seq<State>, i: nat)
    requires IsRun(run) && i < |run| && run[i].waitCalled && run[i].MasterOutside()
    ensures run[i].IsIdle() && run[i].queue == [] && Enabled(run[i], StartSession)
  {
    RunKeepsInv(run, i);
    InvIdle(run[i]);
  }

  lemma InvIdle(s: State)
    requires Inv(s) && s.waitCalled && s.MasterOutside()
    ensures s.IsIdle() && s.queue == [] && Enabled(s, StartSession)
  {
    HeldIffWorking(s.threads);
  }

  // ---------------------------------------------------------------- what is taken, woken and left alone

  /** A batch is the largest share of the queue that leaves as much to every other thread, within the batch size. */
  lemma {:induction false} BatchIsFairShare(s: State)
    requires s.queue != [] && s.nTotal + s.nIdle >= 0
    ensures var n, sharers := BatchLength(s), s.nTotal + s.nIdle + 1;
      && (n == 1 || (n * sharers <= |s.queue| && n <= s.batchSize))
      && (n + 1 > s.batchSize || (n + 1) * sharers > |s.queue|)
  {
    var n, d := BatchLength(s), s.nTotal + s.nIdle + 1;
    var share := |s.queue| / d;
    ShareIs(|s.queue|, d, share, n);
  }

  lemma {:induction false} ShareIs(q: nat, d: nat, share: nat, n: nat)
    requires d > 0 && share == q / d
    ensures n <= share ==> n * d <= q
    ensures n >= share ==> (n + 1) * d > q
  {
    assert q == share * d + q % d;
    if n <= share {
      MulMono(d, n, share);
    }
    if n >= share {
      MulMono(d, share + 1, n + 1);
      assert d * (share + 1) == share * d + d;
    }
  }

  /** Several checks wake all workers that sleep, a single one wakes one, and none wakes none. */
  lemma {:induction false} AddWakes(s: State, checks: seq<Check>, woken: nat)
    requires Enabled(s, Add(checks, woken))
    ensures var ts, ts' := s.threads, Apply(s, Add(checks, woken)).threads;
      && |ts'| == |ts| && ts'[0] == ts[0]
      && forall t :: 0 < t < |ts| ==>
        ts'[t] == if ts[t].Blocked? && (|checks| > 1 || (|checks| == 1 && t == woken)) then Signalled else ts[t]
  {}

  /** No check has run between two states. */
  predicate SameRuns(h: History, h': History) {
    h'.passed == h.passed && h'.failed == h.failed && h'.emptied == h.emptied
  }

  /** While the token is cancelled no check runs, and a thread that finishes its batch leaves the queue empty. */
  lemma {:induction false} CancelledStep(s: State, step: Step)
    requires Enabled(s, step) && s.Cancelled() && Apply(s, step).Cancelled()
    ensures SameRuns(s.history, Apply(s, step).history)
    ensures step.Finish? ==> Apply(s, step).queue == []
  {}

  lemma {:induction false} CancelledNext(s: State, s': State)
    requires Next(s, s') && s.Cancelled() && s'.Cancelled()
    ensures SameRuns(s.history, s'.history)
  {
    var step :| Enabled(s, step) && s' == Apply(s, step);
    CancelledStep(s, step);
  }

  lemma {:induction false} NothingRunsOnceCancelled(run: seq<State>, i: nat, j: nat)
    requires IsRun(run) && i <= j < |run| && forall k :: i <= k <= j ==> run[k].Cancelled()
    ensures SameRuns(run[i].history, run[j].history)
  {
    if i < j {
      NothingRunsOnceCancelled(run, i, j - 1);
      assert Next(run[j - 1], run[j - 1 + 1]);
      CancelledNext(run[j - 1], run[j]);
    }
  }

  // ---------------------------------------------------------------- Wait finishes

  /** A step the threads take by themselves: the environment neither cancels nor wakes anyone without cause. */
  predicate Calm(step: Step) { !step.SpuriousWake? }

  /** While the master is inside Wait some thread can always move: there is no deadlock and no lost wake-up. */
  lemma NeverStuck(s: State) returns (step: Step)
    requires Inv(s) && s.threads[0].Inside()
    ensures Enabled(s, step) && Calm(step) && !step.Cancel?
  {
    var t: nat := 0;
    if s.threads[0].Blocked? {
      HeldIffWorking(s.threads);
      t :| t < |s.threads| && s.threads[t].Working?;
    }
    var w := s.threads[t];
    assert GoodThread(w);
    if w.Signalled? {
      step := Wake(t);
    } else if w.next == |w.batch| {
      step := Finish(t);
    } else if Stops(s, w) {
      step := Abandon(t);
    } else {
      step := Run(t, Some(true));
    }
  }

  function Measure(s: State): nat {
    5 * |s.queue| + Sum(s.threads).weight + if s.token == Some(false) then 1 else 0
  }

  /** Placing the thread that holds the mutex costs at most what an outside thread weighs. */
  lemma DispatchMeasure(s: State, t: nat)
    requires t < |s.threads| && s.threads[t].Outside?
    ensures Measure(Dispatch(s, t)) <= Measure(s)
    ensures !(t == 0 && s.queue == [] && s.nTodo == 0) ==> Measure(Dispatch(s, t)) < Measure(s)
  {
    if s.queue == [] {
      SumUpdate(s.threads, t, if t == 0 && s.nTodo == 0 then Outside else Blocked);
    } else {
      var n := BatchLength(s);
      SumUpdate(s.threads, t, Working(s.queue[..n], 0, s.allOk));
    }
  }

  lemma FinishMeasure(s: State, t: nat)
    requires Inv(s) && Enabled(s, Finish(t))
    ensures Measure(Apply(s, Finish(t))) < Measure(s)
  {
    var c1 := CleanUp(s, t);
    var s1 := c1.(threads := c1.threads[t := Outside]);
    assert GoodThread(s.threads[t]);
    DispatchIgnoresEntry(c1, t);
    DispatchMeasure(s1, t);
    SumUpdate(s.threads, 0, Signalled);
    assert c1.threads == s.threads || (s.threads[0].Blocked? && c1.threads == s.threads[0 := Signalled]);
    assert Sum(c1.threads).weight <= Sum(s.threads).weight + 2;
    SumUpdate(c1.threads, t, Outside);
  }

  lemma WakeMeasure(s: State, t: nat)
    requires Inv(s) && Enabled(s, Wake(t))
    ensures Measure(Apply(s, Wake(t))) < Measure(s)
  {
    var s0 := s.(nIdle := s.nIdle - 1);
    var s1 := s0.(threads := s.threads[t := Outside]);
    DispatchIgnoresEntry(s0, t);
    DispatchMeasure(s1, t);
    SumUpdate(s.threads, t, Outside);
  }

  /** Every calm step during Wait makes the measure smaller. */
  lemma StepMeasure(s: State, step: Step)
    requires Inv(s) && s.threads[0].Inside() && Enabled(s, step) && Calm(step)
    ensures Measure(Apply(s, step)) < Measure(s)
  {
    match step
    case Enter(t) => DispatchMeasure(s.(nTotal := s.nTotal + 1), t);
    case Run(t, v) =>
      var w := s.threads[t];
      SumUpdate(s.threads, t, w.(next := w.next + 1, ok := v));
    case Abandon(t) =>
      var w := s.threads[t];
      SumUpdate(s.threads, t, w.(next := |w.batch|));
    case Finish(t) => FinishMeasure(s, t);
    case Wake(t) => WakeMeasure(s, t);
    case Cancel =>
  }

  /** Consecutive states joined by calm steps, with the master inside Wait in all but the last. */
  ghost predicate CalmWait(run: seq<State>) {
    forall i :: 0 <= i < |run| - 1 ==> CalmWaitAt(run, i)
  }

  ghost predicate CalmWaitAt(run: seq<State>, i: nat)
    requires i < |run| - 1
  {
    run[i].threads != [] && run[i].threads[0].Inside() && CalmNext(run[i], run[i + 1])
  }

  ghost predicate CalmNext(s: State, s': State) {
    exists step :: Enabled(s, step) && Calm(step) && s' == Apply(s, step)
  }

  /** However the threads are scheduled, Wait is over after at most Measure(s) calm steps. */
  lemma {:induction false} WaitIsShort(run: seq<State>)
    requires |run| > 0 && Inv(run[0]) && CalmWait(run)
    ensures |run| <= Measure(run[0]) + 1
  {
    if |run| > 1 {
      var s := run[0];
      assert CalmWaitAt(run, 0);
      var step :| Enabled(s, step) && Calm(step) && run[1] == Apply(s, step);
      StepInv(s, step);
      StepMeasure(s, step);
      forall i | 0 <= i < |run[1..]| - 1 ensures CalmWaitAt(run[1..], i) {
        assert CalmWaitAt(run, i + 1);
      }
      WaitIsShort(run[1..]);
    }
  }

  /** A calm run that cannot be prolonged has left Wait, and has a verdict. */
  lemma WaitReturns(run: seq<State>)
    requires |run| > 0 && Inv(run[0]) && run[0].threads[0].Inside() && CalmWait(run)
    requires forall s' :: !CalmWait(run + [s'])
    ensures var last := run[|run| - 1];
      Inv(last) && last.returned.Some? && Truthful(last, last.returned.value) && last.IsIdle()
  {
    CalmKeepsInv(run, |run| - 1);
    var last := run[|run| - 1];
    if last.threads[0].Inside() {
      var step := NeverStuck(last);
      var longer := run + [Apply(last, step)];
      forall i | 0 <= i < |longer| - 1 ensures CalmWaitAt(longer, i) {
        if i < |run| - 1 { assert CalmWaitAt(run, i); }
      }
      assert CalmWait(longer);
    } else {
      CalmLeaves(run);
      InvIdle(last);
    }
  }

  /** From every state inside Wait there is a run that leaves it with a verdict. */
  lemma {:induction false} WaitCanReturn(s: State) returns (run: seq<State>)
    requires Inv(s) && s.threads[0].Inside()
    ensures |run| > 1 && run[0] == s && CalmWait(run)
    ensures var last := run[|run| - 1]; Inv(last) && last.returned.Some? && last.waitCalled && last.MasterOutside()
    decreases Measure(s)
  {
    var step := NeverStuck(s);
    var s' := Apply(s, step);
    StepInv(s, step);
    StepMeasure(s, step);
    var rest := [s'];
    if s'.threads[0].Inside() { rest := WaitCanReturn(s'); } else { LeavesByReturning(s, step); }
    CalmCons(s, step, rest);
    run := [s] + rest;
  }

  lemma {:induction false} CalmCons(s: State, step: Step, rest: seq<State>)
    requires s.threads != [] && s.threads[0].Inside() && Enabled(s, step) && Calm(step)
    requires rest != [] && rest[0] == Apply(s, step) && CalmWait(rest)
    ensures CalmWait([s] + rest)
  {
    var run := [s] + rest;
    forall i | 0 <= i < |run| - 1 ensures CalmWaitAt(run, i) {
      if i > 0 { assert CalmWaitAt(rest, i - 1); }
    }
  }

  lemma {:induction false} CalmKeepsInv(run: seq<State>, i: nat)
    requires i < |run| && Inv(run[0]) && CalmWait(run)
    ensures Inv(run[i])
  {
    if i > 0 {
      CalmKeepsInv(run, i - 1);
      assert CalmWaitAt(run, i - 1);
      CalmNextInv(run[i - 1], run[i]);
    }
  }

  lemma CalmNextInv(s: State, s': State)
    requires Inv(s) && CalmNext(s, s')
    ensures Inv(s')
  {
    var step :| Enabled(s, step) && Calm(step) && s' == Apply(s, step);
    StepInv(s, step);
  }

  /** The master leaves Wait only by returning a verdict. */
  lemma CalmLeaves(run: seq<State>)
    requires |run| > 0 && Inv(run[0]) && run[0].threads[0].Inside() && CalmWait(run)
    requires run[|run| - 1].threads != [] && run[|run| - 1].threads[0].Outside?
    ensures run[|run| - 1].returned.Some? && run[|run| - 1].waitCalled
  {
    var k := |run| - 2;
    assert |run| > 1;
    CalmKeepsInv(run, k);
    var s := run[k];
    assert CalmWaitAt(run, k);
    var step :| Enabled(s, step) && Calm(step) && run[k + 1] == Apply(s, step);
    LeavesByReturning(s, step);
  }

  lemma LeavesByReturning(s: State, step: Step)
    requires Inv(s) && s.threads[0].Inside() && Enabled(s, step)
    requires Apply(s, step).threads[0].Outside?
    ensures Apply(s, step).returned.Some? && Apply(s, step).waitCalled
  {
    if step.Finish? {
      CleanUpStays(s, step.t);
      DispatchLeaves(CleanUp(s, step.t), step.t);
    } else if step.Wake? || step.SpuriousWake? {
      DispatchLeaves(s.(nIdle := s.nIdle - 1), step.t);
    }
  }

  lemma CleanUpStays(s: State, t: nat)
    requires t < |s.threads| && s.threads[t].Working? && !s.threads[0].Outside?
    ensures |CleanUp(s, t).threads| == |s.threads| && !CleanUp(s, t).threads[0].Outside?
    ensures CleanUp(s, t).waitCalled == s.waitCalled
  {
  }

  /** The master is outside after a turn only when that turn gave a verdict. */
  lemma DispatchLeaves(s: State, t: nat)
    requires t < |s.threads| && !s.threads[0].Outside?
    ensures Dispatch(s, t).threads[0].Outside? ==> Dispatch(s, t).returned.Some?
    ensures Dispatch(s, t).waitCalled == s.waitCalled
  {
  }
}
