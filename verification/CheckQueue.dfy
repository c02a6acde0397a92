/**
 The script-check queue of checkqueue.h: one master and any number of workers share a
 LIFO stack of checks, a pending counter, an AND-ed verdict and two condition variables.

 `Shared` is the state the mutex protects.  Every critical section of the source is one
 atomic step on it; executing a batch happens outside the lock, one check at a time.
 The class `CCheckQueue` at the end holds the sections as the source writes them, and its
 methods are proved equal to the functions on `Shared` that the protocol is built from.
 */
module CheckQueue {
  import opened Basics

  /** A queued verification; `ok` is what its operator() returns. */
  datatype Check = Check(id: nat, ok: bool)

  datatype Shared = Shared(queue: seq<Check>, nIdle: int, nTotal: int, fAllOk: bool, nTodo: int, nBatchSize: nat)

  /** What a pass through the lock-protected part of Loop ends in. */
  datatype Outcome = Returned(ret: bool) | Blocked | Took(batch: seq<Check>, fOk: bool)

  /** Where a thread is: `Waiting` is blocked on its condition variable without a pending
      notification, `Woken` has been notified and still has to take the lock, `Locked` holds
      it (never seen between two steps).  Of a running batch, `pos` checks were passed over
      and the first `ran` of them were really run. */
  datatype Thread = Outside | Locked | Waiting | Woken | Running(batch: seq<Check>, pos: nat, ran: nat, fOk: bool)

  /** Thread 0 is the master.  The three logs cover the current round, that is, everything
      since the last return of Wait: the checks added, those whose batch was accounted for
      in nTodo, and those of them that really ran. */
  datatype State = State(sh: Shared, threads: seq<Thread>,
                         added: seq<Check>, accounted: seq<Check>, accountedRan: seq<Check>)

  // ----- The critical sections, as functions of the protected state

  function BatchSize(sh: Shared): (n: int)
    requires sh.nTotal + sh.nIdle + 1 > 0
    ensures 1 <= n <= Max(1, sh.nBatchSize)
    ensures sh.queue != [] ==> n <= |sh.queue|
  {
    Max(1, Min(sh.nBatchSize, |sh.queue| / (sh.nTotal + sh.nIdle + 1)))
  }

  /** A batch is the largest share of the queue, up to nBatchSize, of which there is one for every
      thread in the loop, another one for every idle thread, and one to spare. */
  lemma BatchIsShare(sh: Shared)
    requires sh.nTotal + sh.nIdle + 1 > 0
    ensures var n, d := BatchSize(sh), sh.nTotal + sh.nIdle + 1;
            && (n > 1 ==> d * n <= |sh.queue|)
            && (n < sh.nBatchSize ==> |sh.queue| < d * n + d)
  {
    ShareOf(|sh.queue|, sh.nTotal + sh.nIdle + 1, BatchSize(sh));
  }

  lemma ShareOf(q: nat, d: int, n: int)
    requires d > 0
    ensures n <= q / d ==> d * n <= q
    ensures q / d <= n ==> q < d * n + d
  {
    var x := q / d;
    assert d * x <= q < d * x + d;
    if n <= x { assert d * n <= d * x; }
    if x <= n { assert d * x <= d * n; }
  }

  /** The last n elements, last one first. */
  function PopBack(q: seq<Check>, n: nat): (b: seq<Check>)
    requires n <= |q|
  {
    seq(n, i requires 0 <= i < n => q[|q| - 1 - i])
  }

  function CleanUp(sh: Shared, nNow: nat, fOk: bool): Shared {
    if nNow > 0 then sh.(fAllOk := sh.fAllOk && fOk, nTodo := sh.nTodo - nNow)
    else sh.(nTotal := sh.nTotal + 1)
  }

  function Dispatch(sh: Shared, fMaster: bool): (Shared, Outcome)
    requires sh.nTotal + sh.nIdle + 1 > 0
  {
    if sh.queue == [] then
      if fMaster && sh.nTodo == 0 then
        (sh.(nTotal := sh.nTotal - 1, fAllOk := true), Returned(sh.fAllOk))
      else
        (sh.(nIdle := sh.nIdle + 1), Blocked)
    else
      var n := BatchSize(sh);
      (sh.(queue := sh.queue[..|sh.queue| - n]), Took(PopBack(sh.queue, n), sh.fAllOk))
  }

  function Push(sh: Shared, vChecks: seq<Check>): Shared {
    sh.(queue := sh.queue + vChecks, nTodo := sh.nTodo + |vChecks|)
  }

  // ----- The protocol

  /** `Add` carries the worker its notify_one picks; `Spurious` is a wake-up without a
      notification, which condition variables permit. */
  datatype Step =
    | Add(vChecks: seq<Check>, pick: nat)
    | Enter(t: nat)
    | Exec(t: nat)
    | Finish(t: nat)
    | Wake(t: nat)
    | Spurious(t: nat)

  function Init(nWorkers: nat, nBatchSize: nat): State {
    State(Shared([], 0, 0, true, 0, nBatchSize), seq(nWorkers + 1, _ => Outside), [], [], [])
  }

  ghost predicate SomeWorkerWaits(ts: seq<Thread>) {
    exists w :: 1 <= w < |ts| && ts[w].Waiting?
  }

  ghost predicate Enabled(s: State, step: Step) {
    s.threads != [] &&
    match step
    case Add(vs, pick) =>
      && s.threads[0].Outside?
      && (|vs| == 1 && SomeWorkerWaits(s.threads) ==> 1 <= pick < |s.threads| && s.threads[pick].Waiting?)
    case Enter(t) => t < |s.threads| && s.threads[t].Outside?
    case Exec(t) => t < |s.threads| && s.threads[t].Running? && s.threads[t].pos < |s.threads[t].batch|
    case Finish(t) => t < |s.threads| && s.threads[t].Running?
        && s.threads[t].ran <= s.threads[t].pos == |s.threads[t].batch|
    case Wake(t) => t < |s.threads| && s.threads[t].Woken?
    case Spurious(t) => t < |s.threads| && s.threads[t].Waiting?
  }

  function Notified(th: Thread): Thread { if th.Waiting? then Woken else th }

  function NotifyAllWorkers(ts: seq<Thread>): (r: seq<Thread>)
    ensures |r| == |ts|
  {
    seq(|ts|, i requires 0 <= i < |ts| => if i == 0 then ts[0] else Notified(ts[i]))
  }

  function NotifyMaster(ts: seq<Thread>, really: bool): (r: seq<Thread>)
    requires ts != []
    ensures |r| == |ts|
  {
    if really then ts[0 := Notified(ts[0])] else ts
  }

  ghost function NotifyForAdd(ts: seq<Thread>, n: nat, pick: nat): (r: seq<Thread>)
    ensures |r| == |ts|
  {
    if n == 1 then (if 1 <= pick < |ts| && SomeWorkerWaits(ts) then ts[pick := Notified(ts[pick])] else ts)
    else if n > 1 then NotifyAllWorkers(ts)
    else ts
  }

  function Placed(o: Outcome): Thread {
    match o
    case Returned(_) => Outside
    case Blocked => Waiting
    case Took(b, f) => Running(b, 0, 0, f)
  }

  /** Taking the lock in one of the three ways the source does, up to the inner while loop. */
  function Acquire(s: State, step: Step): (m: State)
    requires step.Enter? || step.Finish? || step.Wake?
    requires step.t < |s.threads|
    requires step.Finish? ==> s.threads[step.t].Running? && s.threads[step.t].ran <= |s.threads[step.t].batch|
  {
    match step
    case Enter(t) => s.(sh := CleanUp(s.sh, 0, true), threads := s.threads[t := Locked])
    case Wake(t) => s.(sh := s.sh.(nIdle := s.sh.nIdle - 1), threads := s.threads[t := Locked])
    case Finish(t) =>
      var th := s.threads[t];
      var sh := CleanUp(s.sh, |th.batch|, th.fOk);
      s.(sh := sh,
         threads := NotifyMaster(s.threads, sh.nTodo == 0 && t != 0)[t := Locked],
         accounted := s.accounted + th.batch,
         accountedRan := s.accountedRan + th.batch[..th.ran])
  }

  /** The rest of the critical section: return, block, or leave with a batch. */
  function Release(m: State, t: nat): State
    requires t < |m.threads| && m.sh.nTotal + m.sh.nIdle + 1 > 0
  {
    var (sh, o) := Dispatch(m.sh, t == 0);
    var s := m.(sh := sh, threads := m.threads[t := Placed(o)]);
    if o.Returned? then s.(added := [], accounted := [], accountedRan := []) else s
  }

  ghost predicate TakesLock(step: Step) { step.Enter? || step.Finish? || step.Wake? }

  /** The step can be taken and its batch-size division, if it has one, is by a positive number. */
  ghost predicate Ready(s: State, step: Step) {
    && Enabled(s, step)
    && (TakesLock(step) ==> var sh := Acquire(s, step).sh; sh.nTotal + sh.nIdle + 1 > 0)
  }

  ghost function Next(s: State, step: Step): State
    requires Ready(s, step)
  {
    match step
    case Add(vs, pick) => Added(s, vs, pick)
    case Exec(t) => Executed(s, t)
    case Spurious(t) => s.(threads := s.threads[t := Woken])
    case _ => Release(Acquire(s, step), step.t)
  }

  /** One round of the loop that executes the batch. */
  function Advance(th: Thread): Thread
    requires th.Running? && th.pos < |th.batch|
  {
    if th.fOk then th.(pos := th.pos + 1, ran := th.ran + 1, fOk := th.batch[th.pos].ok) else th.(pos := th.pos + 1)
  }

  /** How the critical section of this step ends; `Returned` is Wait giving its verdict. */
  ghost function Ends(s: State, step: Step): (o: Outcome)
    requires Ready(s, step) && TakesLock(step)
  {
    Dispatch(Acquire(s, step).sh, step.t == 0).1
  }

  // ----- Totals over the threads

  function Sum(f: Thread -> int, ts: seq<Thread>): int {
    if ts == [] then 0 else Sum(f, ts[..|ts| - 1]) + f(ts[|ts| - 1])
  }

  /** How often c occurs in q. */
  function Times(c: Check, q: seq<Check>): nat {
    if q == [] then 0 else Times(c, q[..|q| - 1]) + if q[|q| - 1] == c then 1 else 0
  }

  function Holds(th: Thread): int { if th.Running? then |th.batch| else 0 }

  function IsIdle(th: Thread): int { if th.Waiting? || th.Woken? then 1 else 0 }

  function IsInLoop(th: Thread): int { if th.Outside? then 0 else 1 }

  function HoldsOf(c: Check): Thread -> int { (th: Thread) => if th.Running? then Times(c, th.batch) else 0 }

  function RanOf(c: Check): Thread -> int {
    (th: Thread) => if th.Running? && th.ran <= |th.batch| then Times(c, th.batch[..th.ran]) else 0
  }

  /** How often c was run in the current round. */
  function RanTimes(s: State, c: Check): int { Times(c, s.accountedRan) + Sum(RanOf(c), s.threads) }

  ghost predicate SomeFailed(s: State) { exists c :: RanTimes(s, c) > 0 && !c.ok }

  // ----- The invariant

  ghost predicate Counts(s: State) {
    && s.threads != []
    && s.sh.nTodo == |s.sh.queue| + Sum(Holds, s.threads)
    && s.sh.nIdle == Sum(IsIdle, s.threads)
    && s.sh.nTotal == Sum(IsInLoop, s.threads)
  }

  ghost predicate BatchOk(th: Thread) {
    th.Running? ==>
      && th.batch != []
      && th.ran <= th.pos <= |th.batch|
      && (th.fOk ==> th.ran == th.pos && forall i :: 0 <= i < th.pos ==> th.batch[i].ok)
  }

  ghost predicate Batches(s: State) { forall t :: 0 <= t < |s.threads| ==> BatchOk(s.threads[t]) }

  /** A verdict that has gone bad, shared or in a batch, goes back to a check that ran and failed. */
  ghost predicate FailureIsReal(s: State) {
    (!s.sh.fAllOk || exists t :: 0 <= t < |s.threads| && s.threads[t].Running? && !s.threads[t].fOk)
    ==> SomeFailed(s)
  }

  /** While the shared verdict is good, every accounted check was run and passed. */
  ghost predicate SuccessIsReal(s: State) {
    && (forall c :: Times(c, s.accountedRan) <= Times(c, s.accounted))
    && (s.sh.fAllOk ==> s.accountedRan == s.accounted && forall i :: 0 <= i < |s.accounted| ==> s.accounted[i].ok)
  }

  /** Every check added this round is queued, in somebody's batch, or accounted for. */
  ghost predicate Conserved(s: State) {
    forall c :: Times(c, s.added) == Times(c, s.sh.queue) + Times(c, s.accounted) + Sum(HoldsOf(c), s.threads)
  }

  /** A blocked master has nothing to miss. */
  ghost predicate MasterBlocked(s: State) {
    s.threads != [] && s.threads[0].Waiting? ==> s.sh.queue == [] && s.sh.nTodo > 0
  }

  ghost predicate Core(s: State) {
    Counts(s) && Batches(s) && FailureIsReal(s) && SuccessIsReal(s) && Conserved(s) && MasterBlocked(s)
  }

  ghost predicate Inv(s: State) {
    && Core(s)
    && forall t :: 0 <= t < |s.threads| ==> !s.threads[t].Locked?
  }

  // ----- Facts about totals

  lemma {:induction false} SumUpdate(f: Thread -> int, ts: seq<Thread>, i: nat, x: Thread)
    requires i < |ts|
    ensures Sum(f, ts[i := x]) == Sum(f, ts) - f(ts[i]) + f(x)
  {
    var n := |ts| - 1;
    if i == n {
      assert ts[i := x][..n] == ts[..n];
    } else {
      assert ts[i := x][..n] == ts[..n][i := x];
      SumUpdate(f, ts[..n], i, x);
    }
  }

  lemma {:induction false} SumSame(f: Thread -> int, ts: seq<Thread>, us: seq<Thread>)
    requires |ts| == |us| && forall i :: 0 <= i < |ts| ==> f(ts[i]) == f(us[i])
    ensures Sum(f, ts) == Sum(f, us)
  {
    if ts != [] { SumSame(f, ts[..|ts| - 1], us[..|us| - 1]); }
  }

  lemma {:induction false} SumAtLeast(f: Thread -> int, ts: seq<Thread>, i: nat)
    requires forall th :: f(th) >= 0
    requires i < |ts|
    ensures Sum(f, ts) >= f(ts[i])
  {
    var n := |ts| - 1;
    assert Sum(f, ts) == Sum(f, ts[..n]) + f(ts[n]);
    if i < n {
      SumAtLeast(f, ts[..n], i);
    } else if n > 0 {
      SumAtLeast(f, ts[..n], 0);
    }
  }

  /** A positive total comes from some thread. */
  lemma {:induction false} SumPositive(f: Thread -> int, ts: seq<Thread>) returns (i: nat)
    requires Sum(f, ts) > 0
    ensures i < |ts| && f(ts[i]) > 0
  {
    i := |ts| - 1;
    if f(ts[i]) <= 0 { i := SumPositive(f, ts[..i]); }
  }

  lemma {:induction false} TimesAppend(c: Check, p: seq<Check>, q: seq<Check>)
    ensures Times(c, p + q) == Times(c, p) + Times(c, q)
  {
    if q == [] {
      assert p + q == p;
    } else {
      assert (p + q)[..|p + q| - 1] == p + q[..|q| - 1];
      TimesAppend(c, p, q[..|q| - 1]);
    }
  }

  lemma {:induction false} PopBackConserves(c: Check, q: seq<Check>, n: nat)
    requires n <= |q|
    ensures Times(c, q) == Times(c, q[..|q| - n]) + Times(c, PopBack(q, n))
  {
    if n == 0 {
      assert q[..|q|] == q;
    } else {
      PopBackConserves(c, q, n - 1);
      var k := |q| - n;
      assert q[..k + 1][..k] == q[..k];
      assert PopBack(q, n)[..n - 1] == PopBack(q, n - 1);
    }
  }

  // ----- Every step keeps the invariant

  lemma AcquireKeepsCounts(s: State, step: Step)
    requires Counts(s) && Enabled(s, step) && TakesLock(step)
    requires step.Finish? ==> s.threads[step.t].batch != []
    ensures Counts(Acquire(s, step))
  {
    var m, t := Acquire(s, step), step.t;
    var ts := if step.Finish? then NotifyMaster(s.threads, m.sh.nTodo == 0 && t != 0) else s.threads;
    SumSame(Holds, s.threads, ts);
    SumSame(IsIdle, s.threads, ts);
    SumSame(IsInLoop, s.threads, ts);
    SumUpdate(Holds, ts, t, Locked);
    SumUpdate(IsIdle, ts, t, Locked);
    SumUpdate(IsInLoop, ts, t, Locked);
  }

  /** The thread that takes the lock hands over what it held, and nobody else's share changes. */
  lemma AcquireShare(f: Thread -> int, s: State, step: Step)
    requires Enabled(s, step) && TakesLock(step)
    requires f(Waiting) == f(Woken) == f(Locked) == 0
    ensures Sum(f, Acquire(s, step).threads) == Sum(f, s.threads) - f(s.threads[step.t])
  {
    var m, t := Acquire(s, step), step.t;
    var ts := if step.Finish? then NotifyMaster(s.threads, m.sh.nTodo == 0 && t != 0) else s.threads;
    SumSame(f, s.threads, ts);
    SumUpdate(f, ts, t, Locked);
  }

  /** Taking the lock moves checks between accounts but neither runs nor forgets one. */
  lemma AcquireConserves(s: State, step: Step, c: Check)
    requires Enabled(s, step) && TakesLock(step)
    ensures RanTimes(Acquire(s, step), c) == RanTimes(s, c)
    ensures var m := Acquire(s, step);
            Times(c, m.accounted) + Sum(HoldsOf(c), m.threads) == Times(c, s.accounted) + Sum(HoldsOf(c), s.threads)
  {
    AcquireShare(HoldsOf(c), s, step);
    AcquireShare(RanOf(c), s, step);
    var th := s.threads[step.t];
    if step.Finish? {
      TimesAppend(c, s.accounted, th.batch);
      TimesAppend(c, s.accountedRan, th.batch[..th.ran]);
    }
  }

  /** Nothing that was run is lost, and no verdict goes bad by itself. */
  lemma FailureCarriesOver(s: State, s': State)
    requires FailureIsReal(s)
    requires forall c :: RanTimes(s', c) >= RanTimes(s, c)
    requires !s'.sh.fAllOk ==> !s.sh.fAllOk || exists t :: 0 <= t < |s.threads| && s.threads[t].Running? && !s.threads[t].fOk
    requires forall t :: 0 <= t < |s'.threads| && s'.threads[t].Running? && !s'.threads[t].fOk ==>
                           !s.sh.fAllOk || (t < |s.threads| && s.threads[t].Running? && !s.threads[t].fOk)
    ensures FailureIsReal(s')
  {
    if SomeFailed(s) {
      var c :| RanTimes(s, c) > 0 && !c.ok;
      assert RanTimes(s', c) > 0;
    }
  }

  lemma AcquireKeepsFailure(s: State, step: Step)
    requires FailureIsReal(s) && Enabled(s, step) && TakesLock(step)
    ensures FailureIsReal(Acquire(s, step))
  {
    forall c ensures RanTimes(Acquire(s, step), c) == RanTimes(s, c) { AcquireConserves(s, step, c); }
    FailureCarriesOver(s, Acquire(s, step));
  }

  lemma AcquireKeepsConserved(s: State, step: Step)
    requires Conserved(s) && Enabled(s, step) && TakesLock(step)
    ensures Conserved(Acquire(s, step))
  {
    var m := Acquire(s, step);
    forall c ensures Times(c, m.added) == Times(c, m.sh.queue) + Times(c, m.accounted) + Sum(HoldsOf(c), m.threads) {
      AcquireConserves(s, step, c);
    }
  }

  lemma AcquireKeepsSuccess(s: State, step: Step)
    requires SuccessIsReal(s) && Enabled(s, step) && TakesLock(step) && BatchOk(s.threads[step.t])
    ensures SuccessIsReal(Acquire(s, step))
  {
    var m, th := Acquire(s, step), s.threads[step.t];
    if step.Finish? {
      if th.fOk { assert th.batch[..th.ran] == th.batch; }
      forall c ensures Times(c, m.accountedRan) <= Times(c, m.accounted) {
        assert th.batch == th.batch[..th.ran] + th.batch[th.ran..];
        TimesAppend(c, th.batch[..th.ran], th.batch[th.ran..]);
        TimesAppend(c, s.accounted, th.batch);
        TimesAppend(c, s.accountedRan, th.batch[..th.ran]);
      }
    }
  }

  lemma AcquireKeepsBatches(s: State, step: Step)
    requires Batches(s) && Enabled(s, step) && TakesLock(step)
    ensures Batches(Acquire(s, step))
  {
    var m := Acquire(s, step);
    forall t | 0 <= t < |m.threads| ensures BatchOk(m.threads[t]) {
      assert BatchOk(s.threads[t]);
    }
  }

  lemma AcquireKeepsMaster(s: State, step: Step)
    requires MasterBlocked(s) && Enabled(s, step) && TakesLock(step) && Counts(Acquire(s, step))
    ensures MasterBlocked(Acquire(s, step))
  {
    var m := Acquire(s, step);
    SumAtLeast(Holds, m.threads, 0);
  }

  lemma AcquireKeeps(s: State, step: Step)
    requires Inv(s) && Enabled(s, step) && TakesLock(step)
    ensures Core(Acquire(s, step)) && Ready(s, step)
  {
    assert BatchOk(s.threads[step.t]);
    AcquireKeepsBatches(s, step);
    AcquireKeepsCounts(s, step);
    AcquireKeepsFailure(s, step);
    AcquireKeepsSuccess(s, step);
    AcquireKeepsConserved(s, step);
    AcquireKeepsMaster(s, step);
    var m := Acquire(s, step);
    SumAtLeast(IsIdle, m.threads, step.t);
    SumAtLeast(IsInLoop, m.threads, step.t);
  }

  ghost predicate AtLock(m: State, t: nat) {
    t < |m.threads| && m.threads[t].Locked? && m.sh.nTotal + m.sh.nIdle + 1 > 0
  }

  lemma ReleaseKeepsCounts(m: State, t: nat)
    requires Counts(m) && AtLock(m, t)
    ensures Counts(Release(m, t))
  {
    var x := Placed(Dispatch(m.sh, t == 0).1);
    SumUpdate(Holds, m.threads, t, x);
    SumUpdate(IsIdle, m.threads, t, x);
    SumUpdate(IsInLoop, m.threads, t, x);
  }

  lemma {:induction false} NothingHeld(f: Thread -> int, ts: seq<Thread>)
    requires forall i :: 0 <= i < |ts| ==> f(ts[i]) == 0
    ensures Sum(f, ts) == 0
  {
    if ts != [] { NothingHeld(f, ts[..|ts| - 1]); }
  }

  /** When Wait returns there is no check left anywhere. */
  lemma ReturnFindsNothing(m: State, t: nat)
    requires Counts(m) && Batches(m) && AtLock(m, t) && Dispatch(m.sh, t == 0).1.Returned?
    ensures t == 0 && m.sh.queue == [] && m.sh.nTodo == 0
    ensures forall i :: 0 <= i < |m.threads| ==> !m.threads[i].Running?
    ensures forall c :: Sum(HoldsOf(c), m.threads) == 0 && Sum(RanOf(c), m.threads) == 0
  {
    forall i | 0 <= i < |m.threads| ensures !m.threads[i].Running? {
      SumAtLeast(Holds, m.threads, i);
      assert BatchOk(m.threads[i]);
    }
    forall c ensures Sum(HoldsOf(c), m.threads) == 0 && Sum(RanOf(c), m.threads) == 0 {
      NothingHeld(HoldsOf(c), m.threads);
      NothingHeld(RanOf(c), m.threads);
    }
  }

  /** Leaving the critical section moves checks from the queue to the batch and runs none. */
  lemma ReleaseConserves(m: State, t: nat, c: Check)
    requires AtLock(m, t) && !Dispatch(m.sh, t == 0).1.Returned?
    ensures RanTimes(Release(m, t), c) == RanTimes(m, c)
    ensures Times(c, Release(m, t).sh.queue) + Sum(HoldsOf(c), Release(m, t).threads)
         == Times(c, m.sh.queue) + Sum(HoldsOf(c), m.threads)
  {
    var x := Placed(Dispatch(m.sh, t == 0).1);
    SumUpdate(RanOf(c), m.threads, t, x);
    SumUpdate(HoldsOf(c), m.threads, t, x);
    if x.Running? { PopBackConserves(c, m.sh.queue, |x.batch|); }
  }

  lemma ReleaseKeepsFailure(m: State, t: nat)
    requires FailureIsReal(m) && AtLock(m, t) && !Dispatch(m.sh, t == 0).1.Returned?
    ensures FailureIsReal(Release(m, t))
  {
    forall c ensures RanTimes(Release(m, t), c) == RanTimes(m, c) { ReleaseConserves(m, t, c); }
    FailureCarriesOver(m, Release(m, t));
  }

  lemma ReleaseKeepsConserved(m: State, t: nat)
    requires Conserved(m) && AtLock(m, t) && !Dispatch(m.sh, t == 0).1.Returned?
    ensures Conserved(Release(m, t))
  {
    var s := Release(m, t);
    forall c ensures Times(c, s.added) == Times(c, s.sh.queue) + Times(c, s.accounted) + Sum(HoldsOf(c), s.threads) {
      ReleaseConserves(m, t, c);
    }
  }

  /** After a return the next round starts from empty logs. */
  lemma ReturnKeeps(m: State, t: nat)
    requires Counts(m) && Batches(m) && AtLock(m, t) && Dispatch(m.sh, t == 0).1.Returned?
    ensures var s := Release(m, t); FailureIsReal(s) && SuccessIsReal(s) && Conserved(s) && MasterBlocked(s)
  {
    ReturnFindsNothing(m, t);
    var s := Release(m, t);
    forall c ensures Sum(HoldsOf(c), s.threads) == 0 { NothingHeld(HoldsOf(c), s.threads); }
  }

  lemma ReleaseKeeps(m: State, t: nat)
    requires Core(m) && AtLock(m, t)
    ensures Core(Release(m, t))
  {
    ReleaseKeepsCounts(m, t);
    if Dispatch(m.sh, t == 0).1.Returned? {
      ReturnKeeps(m, t);
    } else {
      ReleaseKeepsConserved(m, t);
      ReleaseKeepsFailure(m, t);
      SumAtLeast(Holds, m.threads, t);
    }
  }

  /** Threads that differ only in being notified. */
  ghost predicate SameButNotified(ts: seq<Thread>, us: seq<Thread>) {
    |ts| == |us| && forall i :: 0 <= i < |ts| ==> us[i] == ts[i] || us[i] == Notified(ts[i])
  }

  lemma NotifyKeepsTotals(ts: seq<Thread>, us: seq<Thread>)
    requires SameButNotified(ts, us)
    ensures Sum(Holds, us) == Sum(Holds, ts) && Sum(IsIdle, us) == Sum(IsIdle, ts) && Sum(IsInLoop, us) == Sum(IsInLoop, ts)
    ensures forall c :: Sum(HoldsOf(c), us) == Sum(HoldsOf(c), ts) && Sum(RanOf(c), us) == Sum(RanOf(c), ts)
  {
    SumSame(Holds, ts, us);
    SumSame(IsIdle, ts, us);
    SumSame(IsInLoop, ts, us);
    forall c ensures Sum(HoldsOf(c), us) == Sum(HoldsOf(c), ts) && Sum(RanOf(c), us) == Sum(RanOf(c), ts) {
      SumSame(HoldsOf(c), ts, us);
      SumSame(RanOf(c), ts, us);
    }
  }

  ghost function Added(s: State, vs: seq<Check>, pick: nat): State {
    s.(sh := Push(s.sh, vs), threads := NotifyForAdd(s.threads, |vs|, pick), added := s.added + vs)
  }

  lemma AddKeeps(s: State, vs: seq<Check>, pick: nat)
    requires Inv(s) && s.threads[0].Outside?
    ensures Inv(Added(s, vs, pick))
  {
    var s' := Added(s, vs, pick);
    NotifyKeepsTotals(s.threads, s'.threads);
    FailureCarriesOver(s, s');
    forall c ensures Times(c, s'.added) == Times(c, s'.sh.queue) + Times(c, s'.accounted) + Sum(HoldsOf(c), s'.threads) {
      TimesAppend(c, s.added, vs);
      TimesAppend(c, s.sh.queue, vs);
    }
  }

  lemma SpuriousKeeps(s: State, t: nat)
    requires Inv(s) && t < |s.threads| && s.threads[t].Waiting?
    ensures Inv(s.(threads := s.threads[t := Woken]))
  {
    var s' := s.(threads := s.threads[t := Woken]);
    NotifyKeepsTotals(s.threads, s'.threads);
    FailureCarriesOver(s, s');
  }

  ghost predicate CanExec(ts: seq<Thread>, t: nat) {
    t < |ts| && ts[t].Running? && ts[t].pos < |ts[t].batch|
  }

  ghost function Executed(s: State, t: nat): State
    requires CanExec(s.threads, t)
  {
    s.(threads := s.threads[t := Advance(s.threads[t])])
  }

  /** Executing one check moves no check and adds to what was run at most that check. */
  lemma ExecRuns(s: State, t: nat, c: Check)
    requires CanExec(s.threads, t) && BatchOk(s.threads[t])
    ensures Sum(HoldsOf(c), Executed(s, t).threads) == Sum(HoldsOf(c), s.threads)
    ensures var th := s.threads[t];
            RanTimes(Executed(s, t), c) == RanTimes(s, c) + if th.fOk && th.batch[th.pos] == c then 1 else 0
  {
    var th, x := s.threads[t], Advance(s.threads[t]);
    SumUpdate(HoldsOf(c), s.threads, t, x);
    SumUpdate(RanOf(c), s.threads, t, x);
    if th.fOk { assert x.batch[..x.ran][..th.ran] == th.batch[..th.ran]; }
  }

  lemma ExecKeepsFailure(s: State, t: nat)
    requires FailureIsReal(s) && CanExec(s.threads, t) && BatchOk(s.threads[t])
    ensures FailureIsReal(Executed(s, t))
  {
    var s', th := Executed(s, t), s.threads[t];
    forall c ensures RanTimes(s', c) >= RanTimes(s, c) { ExecRuns(s, t, c); }
    if th.fOk && !th.batch[th.pos].ok {
      var c := th.batch[th.pos];
      ExecRuns(s, t, c);
      RanIsNat(s, c);
      assert RanTimes(s', c) > 0;
    } else {
      FailureCarriesOver(s, s');
    }
  }

  lemma RanIsNat(s: State, c: Check)
    ensures RanTimes(s, c) >= 0
  {
    if s.threads != [] { SumAtLeast(RanOf(c), s.threads, 0); }
  }

  lemma ExecKeepsCounts(s: State, t: nat)
    requires Counts(s) && CanExec(s.threads, t)
    ensures Counts(Executed(s, t))
  {
    SumSame(Holds, s.threads, Executed(s, t).threads);
    SumSame(IsIdle, s.threads, Executed(s, t).threads);
    SumSame(IsInLoop, s.threads, Executed(s, t).threads);
  }

  lemma ExecKeeps(s: State, t: nat)
    requires Inv(s) && CanExec(s.threads, t)
    ensures Inv(Executed(s, t))
  {
    assert BatchOk(s.threads[t]);
    ExecKeepsCounts(s, t);
    ExecKeepsFailure(s, t);
    forall c ensures Sum(HoldsOf(c), Executed(s, t).threads) == Sum(HoldsOf(c), s.threads) { ExecRuns(s, t, c); }
  }

  lemma LockIsReleased(s: State, step: Step)
    requires Ready(s, step) && TakesLock(step)
    requires forall t :: 0 <= t < |s.threads| ==> !s.threads[t].Locked?
    ensures var s' := Release(Acquire(s, step), step.t);
            forall t :: 0 <= t < |s'.threads| ==> !s'.threads[t].Locked?
  {}

  lemma LockStepKeeps(s: State, step: Step)
    requires Inv(s) && Enabled(s, step) && TakesLock(step)
    ensures Ready(s, step) && Inv(Release(Acquire(s, step), step.t))
  {
    AcquireKeeps(s, step);
    ReleaseKeeps(Acquire(s, step), step.t);
    LockIsReleased(s, step);
  }

  /** In every state of every interleaving, nTodo is the number of queued checks plus the
      checks in unaccounted batches, and all the other clauses of `Inv` hold. */
  lemma NextKeeps(s: State, step: Step)
    requires Inv(s) && Enabled(s, step)
    ensures Ready(s, step) && Inv(Next(s, step))
  {
    match step
    case Add(vs, pick) => AddKeeps(s, vs, pick);
    case Exec(t) => ExecKeeps(s, t);
    case Spurious(t) => SpuriousKeeps(s, t);
    case _ => LockStepKeeps(s, step);
  }

  // ----- Queued checks and sleeping workers

  /** While checks are queued, the workers are not all asleep without a notification. */
  ghost predicate Attended(s: State) {
    s.sh.queue != [] && |s.threads| > 1 ==> exists w :: 1 <= w < |s.threads| && !s.threads[w].Waiting?
  }

  /** Add of several checks wakes every worker, Add of one check a single one that was asleep, and
      nobody else is touched. */
  lemma AddWakes(s: State, vs: seq<Check>, pick: nat, w: nat)
    requires Enabled(s, Add(vs, pick)) && 1 <= w < |s.threads|
    ensures var was, now := s.threads[w], Added(s, vs, pick).threads[w];
            && (!was.Waiting? || vs == [] ==> now == was)
            && (was.Waiting? && |vs| > 1 ==> now == Woken)
            && (was.Waiting? && |vs| == 1 ==>
                  && s.threads[pick].Waiting? && Added(s, vs, pick).threads[pick] == Woken
                  && (w != pick ==> now == Waiting))
    ensures Added(s, vs, pick).threads[0] == s.threads[0]
  {
    if s.threads[w].Waiting? { assert SomeWorkerWaits(s.threads); }
  }

  lemma AddIsAttended(s: State, vs: seq<Check>, pick: nat)
    requires Attended(s) && Enabled(s, Add(vs, pick))
    ensures Attended(Added(s, vs, pick))
  {
    var s' := Added(s, vs, pick);
    if vs != [] && |s.threads| > 1 {
      AddWakes(s, vs, pick, 1);
      if s.threads[1].Waiting? && |vs| == 1 {
        assert SomeWorkerWaits(s.threads);
        assert !s'.threads[pick].Waiting?;
      } else {
        assert !s'.threads[1].Waiting?;
      }
    }
  }

  /** A worker goes to sleep only when it finds the queue empty. */
  lemma LockStepIsAttended(s: State, step: Step)
    requires Attended(s) && Ready(s, step) && TakesLock(step)
    ensures Attended(Next(s, step))
  {
    var s', t := Next(s, step), step.t;
    if s'.sh.queue != [] && |s'.threads| > 1 {
      if t == 0 {
        var w :| 1 <= w < |s.threads| && !s.threads[w].Waiting?;
        assert s'.threads[w] == s.threads[w];
      } else {
        assert !s'.threads[t].Waiting?;
      }
    }
  }

  lemma StaysAttended(s: State, step: Step)
    requires Attended(s) && Ready(s, step)
    ensures Attended(Next(s, step))
  {
    match step
    case Add(vs, pick) => AddIsAttended(s, vs, pick);
    case Exec(t) => assert !Next(s, step).threads[t].Waiting?; SameAwake(s, Next(s, step));
    case Spurious(t) => SameAwake(s, Next(s, step));
    case _ => LockStepIsAttended(s, step);
  }

  lemma SameAwake(s: State, s': State)
    requires Attended(s) && s'.sh == s.sh && |s'.threads| == |s.threads|
    requires forall i :: 0 <= i < |s.threads| && !s.threads[i].Waiting? ==> !s'.threads[i].Waiting?
    ensures Attended(s')
  {}

  /** As long as checks are queued some worker can take a step, whatever the master does. */
  lemma WorkersAreNeverStuck(s: State) returns (step: Step)
    requires Inv(s) && Attended(s) && s.sh.queue != [] && |s.threads| > 1
    ensures Progress(step) && 1 <= step.t && Ready(s, step)
  {
    var w :| 1 <= w < |s.threads| && !s.threads[w].Waiting?;
    var th := s.threads[w];
    assert BatchOk(th);
    step := if th.Outside? then Enter(w) else if th.Woken? then Wake(w)
            else if th.pos < |th.batch| then Exec(w) else Finish(w);
    NextKeeps(s, step);
  }

  lemma InitInv(nWorkers: nat, nBatchSize: nat)
    ensures Inv(Init(nWorkers, nBatchSize))
  {
    var ts := Init(nWorkers, nBatchSize).threads;
    NothingHeld(Holds, ts);
    NothingHeld(IsIdle, ts);
    NothingHeld(IsInLoop, ts);
    forall c ensures Sum(HoldsOf(c), ts) == 0 { NothingHeld(HoldsOf(c), ts); }
  }

  // ----- What Wait promises

  lemma {:induction false} TimesOfElement(q: seq<Check>, i: nat)
    requires i < |q|
    ensures Times(q[i], q) > 0
  {
    if i < |q| - 1 {
      TimesOfElement(q[..|q| - 1], i);
    }
  }

  lemma {:induction false} ElementOfTimes(c: Check, q: seq<Check>) returns (i: nat)
    requires Times(c, q) > 0
    ensures i < |q| && q[i] == c
  {
    i := |q| - 1;
    if q[i] != c { i := ElementOfTimes(c, q[..i]); }
  }

  /** No check runs more often than it was added. */
  lemma RunAtMostOnce(s: State, c: Check)
    requires Inv(s)
    ensures RanTimes(s, c) <= Times(c, s.added)
  {
    RanWithinHeld(s.threads, c);
  }

  lemma {:induction false} RanWithinHeld(ts: seq<Thread>, c: Check)
    ensures Sum(RanOf(c), ts) <= Sum(HoldsOf(c), ts)
  {
    if ts != [] {
      var th := ts[|ts| - 1];
      if th.Running? && th.ran <= |th.batch| {
        assert th.batch == th.batch[..th.ran] + th.batch[th.ran..];
        TimesAppend(c, th.batch[..th.ran], th.batch[th.ran..]);
      }
      RanWithinHeld(ts[..|ts| - 1], c);
    }
  }

  /** The state a return of Wait leaves behind: nothing pending, verdict reset. */
  ghost predicate Clean(s: State) {
    && s.sh.queue == [] && s.sh.nTodo == 0 && s.sh.fAllOk && s.added == []
    && s.threads != [] && s.threads[0].Outside?
    && forall t :: 0 <= t < |s.threads| ==> !s.threads[t].Running?
  }

  lemma ReturnVerdict(m: State, t: nat)
    requires Core(m) && AtLock(m, t) && Dispatch(m.sh, t == 0).1.Returned?
    ensures m.sh.fAllOk ==> forall c :: RanTimes(m, c) == Times(c, m.added)
    ensures m.sh.fAllOk ==> forall i :: 0 <= i < |m.added| ==> m.added[i].ok
    ensures !m.sh.fAllOk ==> SomeFailed(m)
  {
    ReturnFindsNothing(m, t);
    if m.sh.fAllOk {
      forall i | 0 <= i < |m.added| ensures m.added[i].ok {
        TimesOfElement(m.added, i);
        var j := ElementOfTimes(m.added[i], m.accounted);
      }
    }
  }

  lemma ReturnIsClean(m: State, t: nat)
    requires Core(m) && AtLock(m, t) && Dispatch(m.sh, t == 0).1.Returned?
    ensures t == 0 && Clean(Release(m, t))
  {
    ReturnFindsNothing(m, t);
  }

  /** Whatever the interleaving, Wait returns the conjunction of the verdicts of exactly the
      checks added since the previous Wait.  It returns true only after running every one of
      them, false only if one that really ran failed, and leaves the queue clean. */
  lemma WaitVerdict(s: State, step: Step)
    requires Inv(s) && Ready(s, step) && TakesLock(step) && Ends(s, step).Returned?
    ensures step.t == 0 && Clean(Next(s, step))
    ensures Ends(s, step).ret <==> forall i :: 0 <= i < |s.added| ==> s.added[i].ok
    ensures Ends(s, step).ret ==> forall c :: RanTimes(s, c) == Times(c, s.added)
    ensures !Ends(s, step).ret ==> exists c: Check :: !c.ok && 0 < RanTimes(s, c) <= Times(c, s.added)
  {
    AcquireKeeps(s, step);
    var m := Acquire(s, step);
    ReturnIsClean(m, step.t);
    ReturnVerdict(m, step.t);
    if m.sh.fAllOk {
      forall c ensures RanTimes(s, c) == Times(c, s.added) { AcquireConserves(s, step, c); }
    } else {
      var c :| RanTimes(m, c) > 0 && !c.ok;
      AcquireConserves(s, step, c);
      RunAtMostOnce(s, c);
      var i := ElementOfTimes(c, s.added);
    }
  }

  /** No lost wake-up: a master blocked without a pending notification sees an empty queue
      while some worker still runs a non-empty batch and will account for it. */
  lemma NoLostWakeup(s: State)
    requires Inv(s) && s.threads[0].Waiting?
    ensures s.sh.queue == [] && s.sh.nTodo > 0
    ensures exists w :: 1 <= w < |s.threads| && s.threads[w].Running? && s.threads[w].batch != []
  {
    var w := SumPositive(Holds, s.threads);
  }

  /** A step some thread takes by itself, other than waking up for no reason. */
  ghost predicate Progress(step: Step) { step.Exec? || TakesLock(step) }

  /** No state inside Wait is stuck. */
  lemma WaitIsNeverStuck(s: State) returns (step: Step)
    requires Inv(s) && !s.threads[0].Outside?
    ensures Progress(step) && Ready(s, step)
  {
    var t := 0;
    if s.threads[0].Waiting? {
      t := SumPositive(Holds, s.threads);
    }
    var th := s.threads[t];
    assert BatchOk(th);
    step := if th.Woken? then Wake(t) else if th.pos < |th.batch| then Exec(t) else Finish(t);
    NextKeeps(s, step);
  }

  function Weight(th: Thread): int {
    match th
    case Outside => 1
    case Locked => 1
    case Waiting => 0
    case Woken => 1
    case Running(b, pos, _, _) => 2 + Max(0, |b| - pos)
  }

  /** Bounds the number of steps left before Wait returns, spurious wake-ups aside. */
  function Rank(s: State): int { 3 * |s.sh.queue| + Sum(Weight, s.threads) }

  lemma AcquireRank(s: State, step: Step)
    requires Enabled(s, step) && TakesLock(step)
    ensures Rank(Acquire(s, step)) <= Rank(s)
  {
    var m, t := Acquire(s, step), step.t;
    var ts := if step.Finish? then NotifyMaster(s.threads, m.sh.nTodo == 0 && t != 0) else s.threads;
    if ts != s.threads { SumUpdate(Weight, s.threads, 0, ts[0]); }
    SumUpdate(Weight, ts, t, Locked);
  }

  lemma ReleaseRank(m: State, t: nat)
    requires AtLock(m, t) && !Dispatch(m.sh, t == 0).1.Returned?
    ensures Rank(Release(m, t)) < Rank(m)
  {
    SumUpdate(Weight, m.threads, t, Placed(Dispatch(m.sh, t == 0).1));
  }

  /** Every step of a thread that is not a return from Wait brings Wait closer to its return. */
  lemma RankDecreases(s: State, step: Step)
    requires Ready(s, step) && Progress(step)
    requires TakesLock(step) ==> !Ends(s, step).Returned?
    ensures Rank(Next(s, step)) < Rank(s)
  {
    if step.Exec? {
      SumUpdate(Weight, s.threads, step.t, Advance(s.threads[step.t]));
    } else {
      AcquireRank(s, step);
      ReleaseRank(Acquire(s, step), step.t);
    }
  }

  // ----- Whole runs

  ghost predicate Legal(s: State, steps: seq<Step>)
    decreases |steps|
  {
    steps == [] || (Ready(s, steps[0]) && Legal(Next(s, steps[0]), steps[1..]))
  }

  ghost function Run(s: State, steps: seq<Step>): State
    requires Legal(s, steps)
    decreases |steps|
  {
    if steps == [] then s else Run(Next(s, steps[0]), steps[1..])
  }

  lemma {:induction false} RunKeeps(s: State, steps: seq<Step>)
    requires Inv(s) && Attended(s) && Legal(s, steps)
    ensures Inv(Run(s, steps)) && Attended(Run(s, steps))
    decreases |steps|
  {
    if steps != [] {
      NextKeeps(s, steps[0]);
      StaysAttended(s, steps[0]);
      RunKeeps(Next(s, steps[0]), steps[1..]);
    }
  }

  /** Every state of every interleaving of any number of workers satisfies the invariant. */
  lemma EveryRun(nWorkers: nat, nBatchSize: nat, steps: seq<Step>)
    requires Legal(Init(nWorkers, nBatchSize), steps)
    ensures Inv(Run(Init(nWorkers, nBatchSize), steps))
    ensures Attended(Run(Init(nWorkers, nBatchSize), steps))
  {
    InitInv(nWorkers, nBatchSize);
    RunKeeps(Init(nWorkers, nBatchSize), steps);
  }

  /** Waking up for no reason costs one step. */
  lemma SpuriousRank(s: State, step: Step)
    requires Ready(s, step) && step.Spurious?
    ensures Rank(Next(s, step)) == Rank(s) + 1
  {
    SumUpdate(Weight, s.threads, step.t, Woken);
  }

  /** A run in which Wait has not returned yet. */
  ghost predicate Unreturned(s: State, steps: seq<Step>)
    requires Legal(s, steps)
    decreases |steps|
  {
    steps != [] ==>
    && (Progress(steps[0]) || steps[0].Spurious?)
    && (TakesLock(steps[0]) ==> !Ends(s, steps[0]).Returned?)
    && Unreturned(Next(s, steps[0]), steps[1..])
  }

  /** How often somebody wakes up for no reason. */
  ghost function Spurious(steps: seq<Step>): nat {
    if steps == [] then 0 else (if steps[0].Spurious? then 1 else 0) + Spurious(steps[1..])
  }

  /** Wait returns: such a run is no longer than the rank of its first state and two steps for
      every spurious wake-up, and by `WaitIsNeverStuck` it can always be continued. */
  lemma {:induction false} WaitTerminates(s: State, steps: seq<Step>)
    requires Inv(s) && Legal(s, steps) && Unreturned(s, steps)
    ensures |steps| <= Rank(s) + 2 * Spurious(steps)
    decreases |steps|
  {
    if steps == [] {
      SumAtLeast(Weight, s.threads, 0);
    } else {
      NextKeeps(s, steps[0]);
      if steps[0].Spurious? { SpuriousRank(s, steps[0]); } else { RankDecreases(s, steps[0]); }
      WaitTerminates(Next(s, steps[0]), steps[1..]);
    }
  }

  // ----- After a failure

  /** The checks of a batch that are still to be run if all goes well. */
  function LeftOf(c: Check): Thread -> int {
    (th: Thread) => if th.Running? && th.fOk && th.ran <= |th.batch| then Times(c, th.batch[th.ran..]) else 0
  }

  /** How often c was run in the current round or can still be run from a batch in good standing. */
  function RunnableTimes(s: State, c: Check): int { RanTimes(s, c) + Sum(LeftOf(c), s.threads) }

  lemma LeftAdvances(c: Check, th: Thread)
    requires th.Running? && BatchOk(th) && th.pos < |th.batch|
    ensures LeftOf(c)(Advance(th)) + (if th.fOk && th.batch[th.pos] == c then 1 else 0) <= LeftOf(c)(th)
  {
    if th.fOk {
      assert th.batch[th.ran..] == [th.batch[th.ran]] + th.batch[th.ran + 1..];
      TimesAppend(c, [th.batch[th.ran]], th.batch[th.ran + 1..]);
      assert Times(c, [th.batch[th.ran]]) == if th.batch[th.ran] == c then 1 else 0;
    }
  }

  lemma ExecSkips(s: State, t: nat, c: Check)
    requires CanExec(s.threads, t) && BatchOk(s.threads[t])
    ensures RunnableTimes(Executed(s, t), c) <= RunnableTimes(s, c)
  {
    ExecRuns(s, t, c);
    LeftAdvances(c, s.threads[t]);
    SumUpdate(LeftOf(c), s.threads, t, Advance(s.threads[t]));
  }

  lemma LockStepSkips(s: State, step: Step, c: Check)
    requires Inv(s) && !s.sh.fAllOk && Ready(s, step) && TakesLock(step) && !Ends(s, step).Returned?
    ensures !Next(s, step).sh.fAllOk && RunnableTimes(Next(s, step), c) <= RunnableTimes(s, c)
  {
    var m, t := Acquire(s, step), step.t;
    AcquireConserves(s, step, c);
    AcquireShare(LeftOf(c), s, step);
    ReleaseConserves(m, t, c);
    SumUpdate(LeftOf(c), m.threads, t, Placed(Dispatch(m.sh, t == 0).1));
  }

  lemma NotifySkips(s: State, s': State, c: Check)
    requires SameButNotified(s.threads, s'.threads) && s'.accountedRan == s.accountedRan
    ensures RunnableTimes(s', c) == RunnableTimes(s, c)
  {
    NotifyKeepsTotals(s.threads, s'.threads);
    SumSame(LeftOf(c), s.threads, s'.threads);
  }

  lemma StepSkips(s: State, step: Step, c: Check)
    requires Inv(s) && !s.sh.fAllOk && Ready(s, step) && (TakesLock(step) ==> !Ends(s, step).Returned?)
    ensures !Next(s, step).sh.fAllOk && RunnableTimes(Next(s, step), c) <= RunnableTimes(s, c)
  {
    match step
    case Add(vs, pick) => NotifySkips(s, Added(s, vs, pick), c);
    case Exec(t) => ExecSkips(s, t, c);
    case Spurious(t) => NotifySkips(s, Next(s, step), c);
    case _ => LockStepSkips(s, step, c);
  }

  /** A run during which Wait does not return; checks may be added. */
  ghost predicate WithinRound(s: State, steps: seq<Step>)
    requires Legal(s, steps)
    decreases |steps|
  {
    steps != [] ==>
    && (TakesLock(steps[0]) ==> !Ends(s, steps[0]).Returned?)
    && WithinRound(Next(s, steps[0]), steps[1..])
  }

  /** Once a failure is known, no check that is queued or added is run before Wait returns: only
      batches taken before may still be executed. */
  lemma {:induction false} FailureSkipsQueue(s: State, steps: seq<Step>, c: Check)
    requires Inv(s) && !s.sh.fAllOk && Legal(s, steps) && WithinRound(s, steps)
    ensures RunnableTimes(Run(s, steps), c) <= RunnableTimes(s, c)
    ensures RanTimes(Run(s, steps), c) <= RanTimes(s, c) + Sum(LeftOf(c), s.threads)
    decreases |steps|
  {
    if steps == [] {
      if s.threads != [] { SumAtLeast(LeftOf(c), s.threads, 0); }
    } else {
      NextKeeps(s, steps[0]);
      StepSkips(s, steps[0], c);
      FailureSkipsQueue(Next(s, steps[0]), steps[1..], c);
    }
  }

  // ----- The queue object

  class CCheckQueue {
    var queue: seq<Check>
    var nIdle: int
    var nTotal: int
    var fAllOk: bool
    var nTodo: int
    var nBatchSize: nat

    ghost function View(): Shared
      reads this
    {
      Shared(queue, nIdle, nTotal, fAllOk, nTodo, nBatchSize)
    }

    constructor (nBatchSizeIn: nat)
      ensures View() == Init(0, nBatchSizeIn).sh
    {
      queue, nIdle, nTotal, fAllOk, nTodo, nBatchSize := [], 0, 0, true, 0, nBatchSizeIn;
    }

    method Add(vChecks: seq<Check>)
      modifies this
      ensures View() == Push(old(View()), vChecks)
    {
      for i := 0 to |vChecks|
        invariant View() == old(View()).(queue := old(queue) + vChecks[..i])
      {
        queue := queue + [vChecks[i]];
      }
      nTodo := nTodo + |vChecks|;
    }

    /** The start of a critical section; `notifyMaster` is the call of condMaster.notify_one. */
    method CleanUpPrevious(fMaster: bool, nNow: nat, fOk: bool) returns (notifyMaster: bool)
      modifies this
      ensures View() == CleanUp(old(View()), nNow, fOk)
      ensures notifyMaster <==> nNow > 0 && nTodo == 0 && !fMaster
    {
      notifyMaster := false;
      if nNow > 0 {
        fAllOk := fAllOk && fOk;
        nTodo := nTodo - nNow;
        if nTodo == 0 && !fMaster { notifyMaster := true; }
      } else {
        nTotal := nTotal + 1;
      }
    }

    /** One evaluation of the inner while loop and, when there is work, taking a batch. */
    method TakeWork(fMaster: bool) returns (o: Outcome)
      requires nTotal + nIdle + 1 > 0
      modifies this
      ensures (View(), o) == Dispatch(old(View()), fMaster)
    {
      if queue == [] {
        if fMaster && nTodo == 0 {
          nTotal := nTotal - 1;
          var fRet := fAllOk;
          fAllOk := true;
          return Returned(fRet);
        }
        nIdle := nIdle + 1;
        return Blocked;
      }
      var nNow := BatchSize(Shared(queue, nIdle, nTotal, fAllOk, nTodo, nBatchSize));
      var vChecks := [];
      for i := 0 to nNow
        invariant 0 <= i <= nNow <= |old(queue)|
        invariant View() == old(View()).(queue := old(queue)[..|old(queue)| - i])
        invariant vChecks == PopBack(old(queue), i)
      {
        vChecks := vChecks + [queue[|queue| - 1]];
        queue := queue[..|queue| - 1];
      }
      return Took(vChecks, fAllOk);
    }

    /** Coming back from cond.wait. */
    method WakeUp(fMaster: bool) returns (o: Outcome)
      requires nTotal + nIdle > 0
      modifies this
      ensures (View(), o) == Dispatch(old(View()).(nIdle := old(nIdle) - 1), fMaster)
    {
      nIdle := nIdle - 1;
      o := TakeWork(fMaster);
    }
  }

  /** Running a whole batch outside the lock. */
  method Execute(vChecks: seq<Check>, fOkIn: bool) returns (fOk: bool, ghost th: Thread)
    ensures fOk <==> fOkIn && forall i :: 0 <= i < |vChecks| ==> vChecks[i].ok
    ensures th.Running? && th.batch == vChecks && th.pos == |vChecks| && th.fOk == fOk
    ensures th == AdvanceAll(Running(vChecks, 0, 0, fOkIn), |vChecks|)
    ensures RanUpTo(th, fOkIn)
  {
    fOk := fOkIn;
    th := Running(vChecks, 0, 0, fOkIn);
    for i := 0 to |vChecks|
      invariant th == AdvanceAll(Running(vChecks, 0, 0, fOkIn), i)
      invariant th.fOk == fOk && th.pos == i && th.batch == vChecks && RanUpTo(th, fOkIn)
      invariant fOk <==> fOkIn && forall j :: 0 <= j < i ==> vChecks[j].ok
    {
      if fOk { fOk := vChecks[i].ok; }
      th := Advance(th);
    }
  }

  /** Of the checks passed over, those up to the first failure were run, and none after a bad start. */
  ghost predicate RanUpTo(th: Thread, fOkIn: bool) {
    && th.Running? && th.ran <= th.pos <= |th.batch| && (forall i :: 0 <= i < th.ran - 1 ==> th.batch[i].ok)
    && (if !fOkIn then th.ran == 0 else if th.fOk then th.ran == th.pos && (forall i :: 0 <= i < th.ran ==> th.batch[i].ok)
        else th.ran > 0 && !th.batch[th.ran - 1].ok)
  }

  ghost function AdvanceAll(th: Thread, n: nat): (r: Thread)
    requires th.Running? && th.pos + n <= |th.batch|
    ensures r.Running? && r.batch == th.batch && r.pos == th.pos + n
  {
    if n == 0 then th else Advance(AdvanceAll(th, n - 1))
  }
}
