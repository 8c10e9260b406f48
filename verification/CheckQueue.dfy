/** The parallel check queue (src/checkqueue.h): one master (thread 0) and any number of workers.

    A run is an interleaving of atomic steps: adding a batch, one critical section of a thread, and the
    evaluation of one check outside the lock. A waiting thread may wake up at any time, with or without
    a notification. */
module CheckQueueModel {
  import opened Limbs
  import opened Options

  datatype Check = Check(id: nat, passes: bool)

  /** What the mutex protects. */
  datatype Shared = Shared(queue: seq<Check>, nIdle: int, nTotal: int, fAllOk: bool, nTodo: int)

  /** Where a thread is: not in the loop, blocked on its condition variable, holding the mutex, or working
      on a batch of `nNow` checks of which `rest` are still to be looked at. */
  datatype Thread = Outside | Waiting(notified: bool) | Locked | Working(rest: seq<Check>, fOk: bool, nNow: nat)

  /** `added` are the checks added since `Wait` last returned, `done` those looked at since then. */
  datatype System = System(q: Shared, threads: seq<Thread>, added: seq<Check>, done: multiset<Check>)

  predicate AllPass(cs: seq<Check>) { forall i :: 0 <= i < |cs| ==> cs[i].passes }

  // ---------------------------------------------------------------- the critical sections

  function Extended(q: Shared, checks: seq<Check>): Shared {
    q.(queue := q.queue + checks, nTodo := q.nTodo + |checks|)
  }

  /** Clean-up of the previous batch, or registration on the first iteration. */
  function CleanedUp(q: Shared, nNow: nat, fOk: bool): Shared {
    if nNow != 0 then q.(fAllOk := q.fAllOk && fOk, nTodo := q.nTodo - nNow) else q.(nTotal := q.nTotal + 1)
  }

  function BatchSize(q: Shared, nBatchSize: nat): nat
    requires q.nTotal + q.nIdle + 1 > 0
  {
    var share := |q.queue| / (q.nTotal + q.nIdle + 1);
    var n := if nBatchSize < share then nBatchSize else share;
    if n < 1 then 1 else n
  }

  lemma BatchFits(q: Shared, nBatchSize: nat)
    requires q.nTotal + q.nIdle + 1 > 0 && q.queue != []
    ensures 1 <= BatchSize(q, nBatchSize) <= |q.queue|
  {
    var d := q.nTotal + q.nIdle + 1;
    assert |q.queue| / d <= |q.queue|;
  }

  /** A batch is the largest within the limit that leaves as much for each thread and one share over, but never empty. */
  lemma BatchIsShare(q: Shared, nBatchSize: nat)
    requires q.nTotal + q.nIdle + 1 > 0 && nBatchSize > 0
    ensures var (b, shares) := (BatchSize(q, nBatchSize), q.nTotal + q.nIdle + 1);
            && 1 <= b <= nBatchSize && (b == 1 || b * shares <= |q.queue|)
            && (b == nBatchSize || |q.queue| < (b + 1) * shares)
  {
    hide Quot, Rem;
    var d: nat := q.nTotal + q.nIdle + 1;
    var share := Quot(|q.queue|, d);
    QuotRem(|q.queue|, d);
    QuotIs(|q.queue|, d);
    var b := BatchSize(q, nBatchSize);
    Distribute(d, share, 1);
    Distribute(d, b, 1);
    if b < share { MulLe(b, share, d); } else { MulLe(share, b, d); }
  }

  lemma QuotIs(x: nat, d: nat)
    requires d > 0
    ensures Quot(x, d) == x / d
  {
  }

  function Reversed(cs: seq<Check>): seq<Check> {
    seq(|cs|, i requires 0 <= i < |cs| => cs[|cs| - 1 - i])
  }

  predicate Returns(q: Shared, fMaster: bool) { q.queue == [] && fMaster && q.nTodo == 0 }

  /** From the test of the queue on: return, wait, or take a batch off the back. */
  function Decided(q: Shared, fMaster: bool, nBatchSize: nat): (Shared, Thread)
    requires q.nTotal + q.nIdle + 1 > 0
  {
    if Returns(q, fMaster) then (q.(nTotal := q.nTotal - 1, fAllOk := true), Outside)
    else if q.queue == [] then (q.(nIdle := q.nIdle + 1), Waiting(false))
    else
      BatchFits(q, nBatchSize);
      var keep := |q.queue| - BatchSize(q, nBatchSize);
      (q.(queue := q.queue[..keep]), Working(Reversed(q.queue[keep..]), q.fAllOk, |q.queue| - keep))
  }

  /** A thread with the lock returns only as master with nothing queued or unfinished, and then resets the verdict; it
      waits when nothing is queued; otherwise it takes a batch off the back of the queue, last check first. */
  lemma DecidedIs(q: Shared, fMaster: bool, nBatchSize: nat)
    requires q.nTotal + q.nIdle + 1 > 0
    ensures var (r, thread) := Decided(q, fMaster, nBatchSize);
            match thread
            case Outside => q.queue == [] && fMaster && q.nTodo == 0 && r == q.(nTotal := q.nTotal - 1, fAllOk := true)
            case Waiting(notified) => !notified && q.queue == [] && (!fMaster || q.nTodo != 0) && r == q.(nIdle := q.nIdle + 1)
            case Locked => false
            case Working(rest, fOk, nNow) =>
              && |rest| == nNow == BatchSize(q, nBatchSize) <= |q.queue| && fOk == q.fAllOk
              && r == q.(queue := q.queue[..|q.queue| - nNow])
              && forall i :: 0 <= i < nNow ==> rest[i] == q.queue[|q.queue| - 1 - i]
  {
    hide BatchSize;
    if q.queue != [] { BatchFits(q, nBatchSize); }
  }

  // ---------------------------------------------------------------- the steps of a run

  datatype Step = Add(checks: seq<Check>) | Enter(t: nat) | Wake(t: nat) | Execute(t: nat)

  predicate Enabled(s: System, step: Step) {
    match step
    case Add(_) => |s.threads| > 0 && s.threads[0].Outside?
    case Enter(t) => t < |s.threads| && (s.threads[t].Outside? || (s.threads[t].Working? && s.threads[t].rest == []))
    case Wake(t) => t < |s.threads| && s.threads[t].Waiting?
    case Execute(t) => t < |s.threads| && s.threads[t].Working? && s.threads[t].rest != []
  }

  function Notified(ts: seq<Thread>): seq<Thread> {
    if |ts| > 0 && ts[0].Waiting? then ts[0 := Waiting(true)] else ts
  }

  /** A thread takes the mutex and does its clean-up; the last worker to finish notifies the master. */
  function Acquire(s: System, t: nat): System
    requires Enabled(s, Enter(t))
  {
    var (nNow, fOk) := if s.threads[t].Working? then (s.threads[t].nNow, s.threads[t].fOk) else (0, true);
    var q := CleanedUp(s.q, nNow, fOk);
    var ts := if nNow != 0 && q.nTodo == 0 && t != 0 then Notified(s.threads) else s.threads;
    s.(q := q, threads := ts[t := Locked])
  }

  /** A waiting thread gets the mutex back. */
  function Reacquire(s: System, t: nat): System
    requires Enabled(s, Wake(t))
  {
    s.(q := s.q.(nIdle := s.q.nIdle - 1), threads := s.threads[t := Locked])
  }

  /** The rest of the critical section. When the master returns, its round of checks is over. */
  function Release(s: System, t: nat, nBatchSize: nat): System
    requires t < |s.threads| && s.q.nTotal + s.q.nIdle + 1 > 0
  {
    var (q, thread) := Decided(s.q, t == 0, nBatchSize);
    var s' := s.(q := q, threads := s.threads[t := thread]);
    if Returns(s.q, t == 0) then s'.(added := [], done := multiset{}) else s'
  }

  /** One evaluation outside the lock, skipped once the batch or the whole round has failed. */
  function Looked(s: System, t: nat): System
    requires Enabled(s, Execute(t))
  {
    var th := s.threads[t];
    var c := th.rest[0];
    s.(threads := s.threads[t := Working(th.rest[1..], th.fOk && c.passes, th.nNow)], done := s.done + multiset{c})
  }

  /** The state of the system inside the critical section of a step. */
  function Held(s: System, step: Step): System
    requires Enabled(s, step) && (step.Enter? || step.Wake?)
  {
    if step.Enter? then Acquire(s, step.t) else Reacquire(s, step.t)
  }

  function Apply(s: System, step: Step, nBatchSize: nat): System
    requires Enabled(s, step) && Inv(s)
  {
    match step
    case Add(checks) => s.(q := Extended(s.q, checks), added := s.added + checks)
    case Execute(t) => Looked(s, t)
    case _ =>
      HeldKeeps(s, step);
      Release(Held(s, step), step.t, nBatchSize)
  }

  /** What `Wait` returns in this step, if it returns. */
  function Result(s: System, step: Step): Option<bool>
    requires Enabled(s, step)
  {
    if (step.Enter? || step.Wake?) && Returns(Held(s, step).q, step.t == 0) then Some(Held(s, step).q.fAllOk) else None
  }

  // ---------------------------------------------------------------- the invariant

  function Sum(f: Thread -> nat, ts: seq<Thread>): nat {
    if ts == [] then 0 else f(ts[0]) + Sum(f, ts[1..])
  }

  function InBatch(t: Thread): nat { if t.Working? then t.nNow else 0 }
  function Idle(t: Thread): nat { if t.Waiting? then 1 else 0 }
  function Inside(t: Thread): nat { if t.Outside? then 0 else 1 }

  function InHand(ts: seq<Thread>): multiset<Check> {
    if ts == [] then multiset{} else HandOf(ts[0]) + InHand(ts[1..])
  }

  function HandOf(t: Thread): multiset<Check> { if t.Working? then multiset(t.rest) else multiset{} }

  predicate Healthy(t: Thread) { t.Working? ==> t.fOk && AllPass(t.rest) }

  /** nTodo counts the queue and the unfinished batches; nIdle and nTotal count threads. */
  predicate CountsOk(q: Shared, ts: seq<Thread>) {
    && q.nTodo == |q.queue| + Sum(InBatch, ts)
    && q.nIdle == Sum(Idle, ts)
    && q.nTotal == Sum(Inside, ts)
    && (forall i :: 0 <= i < |ts| && ts[i].Working? ==> 0 < ts[i].nNow && |ts[i].rest| <= ts[i].nNow)
  }

  /** The verdict on the round so far is that of all added checks. */
  predicate VerdictOk(s: System) {
    AllPass(s.added) <==>
      s.q.fAllOk && AllPass(s.q.queue) && forall i :: 0 <= i < |s.threads| ==> Healthy(s.threads[i])
  }

  /** Every added check is looked at, queued or in one thread's hands, once. */
  predicate Conserved(s: System) {
    multiset(s.added) == s.done + multiset(s.q.queue) + InHand(s.threads)
  }

  /** A waiting master sees an empty queue, and is notified exactly when nothing is left to do. */
  predicate MasterOk(q: Shared, ts: seq<Thread>) {
    |ts| > 0 && (ts[0].Waiting? ==> q.queue == [] && (ts[0].notified <==> q.nTodo == 0))
  }

  predicate Core(s: System) {
    && CountsOk(s.q, s.threads) && VerdictOk(s) && Conserved(s) && MasterOk(s.q, s.threads)
    && s.q.nTodo <= |s.added|
  }

  predicate Inv(s: System) {
    Core(s) && forall i :: 0 <= i < |s.threads| ==> !s.threads[i].Locked?
  }

  function Initial(nThreads: nat): System {
    System(Shared([], 0, 0, true, 0), seq(nThreads, i => Outside), [], multiset{})
  }

  // ---------------------------------------------------------------- sums under an update

  lemma {:induction false} SumUpdate(f: Thread -> nat, ts: seq<Thread>, i: nat, t: Thread)
    requires i < |ts|
    ensures Sum(f, ts[i := t]) == Sum(f, ts) - f(ts[i]) + f(t)
  {
    if i == 0 {
      assert ts[i := t][1..] == ts[1..];
    } else {
      SumUpdate(f, ts[1..], i - 1, t);
      assert ts[i := t][1..] == ts[1..][i - 1 := t];
    }
  }

  lemma {:induction false} InHandUpdate(ts: seq<Thread>, i: nat, t: Thread)
    requires i < |ts|
    ensures InHand(ts[i := t]) + HandOf(ts[i]) == InHand(ts) + HandOf(t)
  {
    hide HandOf;
    var ts' := ts[i := t];
    if i == 0 {
      assert ts'[1..] == ts[1..];
      Swapped(HandOf(t), InHand(ts[1..]), HandOf(ts[0]));
    } else {
      InHandUpdate(ts[1..], i - 1, t);
      assert ts'[1..] == ts[1..][i - 1 := t];
      Regrouped(HandOf(ts[0]), InHand(ts'[1..]), HandOf(ts[i]), InHand(ts[1..]), HandOf(t));
    }
  }

  lemma Swapped(a: multiset<Check>, b: multiset<Check>, c: multiset<Check>)
    ensures (a + b) + c == (c + b) + a
  {
  }

  lemma Regrouped(a: multiset<Check>, b: multiset<Check>, c: multiset<Check>, d: multiset<Check>, e: multiset<Check>)
    requires b + c == d + e
    ensures (a + b) + c == (a + d) + e
  {
    assert (a + b) + c == a + (b + c);
    assert (a + d) + e == a + (d + e);
  }

  lemma {:induction false} SumAtLeast(f: Thread -> nat, ts: seq<Thread>, i: nat)
    requires i < |ts|
    ensures f(ts[i]) <= Sum(f, ts)
  {
    if i > 0 {
      SumAtLeast(f, ts[1..], i - 1);
    }
  }

  lemma {:induction false} SumZero(f: Thread -> nat, ts: seq<Thread>)
    requires forall i :: 0 <= i < |ts| ==> f(ts[i]) == 0
    ensures Sum(f, ts) == 0
  {
    if ts != [] {
      assert f(ts[0]) == 0;
      forall i | 0 <= i < |ts[1..]| ensures f(ts[1..][i]) == 0 {
        assert ts[1..][i] == ts[i + 1];
      }
      SumZero(f, ts[1..]);
    }
  }

  lemma {:induction false} NothingInHand(ts: seq<Thread>)
    requires forall i :: 0 <= i < |ts| ==> !ts[i].Working?
    ensures InHand(ts) == multiset{}
  {
    if ts != [] {
      NothingInHand(ts[1..]);
    }
  }

  lemma AllSums(ts: seq<Thread>, i: nat, t: Thread)
    requires i < |ts|
    ensures Sum(InBatch, ts[i := t]) == Sum(InBatch, ts) - InBatch(ts[i]) + InBatch(t)
    ensures Sum(Idle, ts[i := t]) == Sum(Idle, ts) - Idle(ts[i]) + Idle(t)
    ensures Sum(Inside, ts[i := t]) == Sum(Inside, ts) - Inside(ts[i]) + Inside(t)
  {
    SumUpdate(InBatch, ts, i, t);
    SumUpdate(Idle, ts, i, t);
    SumUpdate(Inside, ts, i, t);
  }

  /** Checks that move between the queue, a thread's hands and the done pile stay accounted for. */
  lemma MoveConserves(s: System, s': System, t: nat, th: Thread)
    requires Conserved(s) && t < |s.threads| && s'.threads == s.threads[t := th] && s'.added == s.added
    requires s'.done + multiset(s'.q.queue) + HandOf(th) == s.done + multiset(s.q.queue) + HandOf(s.threads[t])
    ensures Conserved(s')
  {
    InHandUpdate(s.threads, t, th);
    Rebalanced(InHand(s.threads), HandOf(s.threads[t]), s.done, multiset(s.q.queue), InHand(s'.threads), HandOf(th),
               s'.done, multiset(s'.q.queue));
  }

  lemma Rebalanced(h: multiset<Check>, a: multiset<Check>, d: multiset<Check>, q: multiset<Check>,
                   h': multiset<Check>, a': multiset<Check>, d': multiset<Check>, q': multiset<Check>)
    requires h' + a == h + a' && d' + q' + a' == d + q + a
    ensures d' + q' + h' == d + q + h
  {
    forall c ensures (d' + q' + h')[c] == (d + q + h)[c] {
      assert (h' + a)[c] == (h + a')[c];
      assert (d' + q' + a')[c] == (d + q + a)[c];
    }
  }

  /** Nothing left to do means nobody works. */
  lemma IdleWhenDone(q: Shared, ts: seq<Thread>)
    requires CountsOk(q, ts) && q.nTodo == 0
    ensures q.queue == [] && forall i :: 0 <= i < |ts| ==> !ts[i].Working?
  {
    forall i | 0 <= i < |ts| ensures !ts[i].Working? {
      SumAtLeast(InBatch, ts, i);
    }
  }

  // ---------------------------------------------------------------- every step keeps the invariant

  lemma NotifyKeeps(ts: seq<Thread>)
    ensures var n := Notified(ts);
            && Sum(InBatch, n) == Sum(InBatch, ts) && Sum(Idle, n) == Sum(Idle, ts) && Sum(Inside, n) == Sum(Inside, ts)
            && InHand(n) == InHand(ts) && |n| == |ts|
            && (forall i :: 0 <= i < |ts| ==> n[i] == ts[i] || (i == 0 && n[i].Waiting? && n[i].notified && ts[i].Waiting?))
  {
    if |ts| > 0 && ts[0].Waiting? {
      AllSums(ts, 0, Waiting(true));
      InHandUpdate(ts, 0, Waiting(true));
    }
  }

  lemma AcquireKeeps(s: System, t: nat)
    requires Core(s) && Enabled(s, Enter(t))
    ensures Core(Acquire(s, t))
  {
    hide VerdictOk, Conserved;
    var s' := Acquire(s, t);
    NotifyKeeps(s.threads);
    var (nNow, fOk) := if s.threads[t].Working? then (s.threads[t].nNow, s.threads[t].fOk) else (0, true);
    var ts := if nNow != 0 && s'.q.nTodo == 0 && t != 0 then Notified(s.threads) else s.threads;
    assert s'.threads == ts[t := Locked];
    AllSums(ts, t, Locked);
    AcquireVerdict(s, t, ts);
    AcquireConserves(s, t, ts);
    SumAtLeast(InBatch, s.threads, t);
  }

  lemma AcquireConserves(s: System, t: nat, ts: seq<Thread>)
    requires Conserved(s) && Enabled(s, Enter(t)) && |ts| == |s.threads| && InHand(ts) == InHand(s.threads)
    requires Acquire(s, t).threads == ts[t := Locked] && HandOf(ts[t]) == HandOf(s.threads[t])
    ensures Conserved(Acquire(s, t))
  {
    MoveConserves(s.(threads := ts), Acquire(s, t), t, Locked);
  }

  lemma AcquireVerdict(s: System, t: nat, ts: seq<Thread>)
    requires VerdictOk(s) && Enabled(s, Enter(t)) && |ts| == |s.threads|
    requires forall i :: 0 <= i < |ts| ==> ts[i] == s.threads[i] || (ts[i].Waiting? && s.threads[i].Waiting?)
    requires Acquire(s, t).threads == ts[t := Locked]
    requires s.threads[t].Working? ==> s.threads[t].nNow > 0
    ensures VerdictOk(Acquire(s, t))
  {
    var s' := Acquire(s, t);
    assert forall i :: 0 <= i < |ts| && i != t ==> (Healthy(s'.threads[i]) <==> Healthy(s.threads[i]));
    assert Healthy(s'.threads[t]);
    assert s'.q.fAllOk <==> s.q.fAllOk && Healthy(s.threads[t]);
  }

  lemma ReacquireKeeps(s: System, t: nat)
    requires Core(s) && Enabled(s, Wake(t))
    ensures Core(Reacquire(s, t))
  {
    hide Conserved;
    var s' := Reacquire(s, t);
    MoveConserves(s, s', t, Locked);
    AllSums(s.threads, t, Locked);
    assert forall i :: 0 <= i < |s.threads| ==> (Healthy(s'.threads[i]) <==> Healthy(s.threads[i]));
  }

  lemma ReversedIs(cs: seq<Check>)
    ensures AllPass(Reversed(cs)) <==> AllPass(cs)
    ensures multiset(Reversed(cs)) == multiset(cs)
  {
    if AllPass(Reversed(cs)) {
      forall i | 0 <= i < |cs| ensures cs[i].passes {
        assert Reversed(cs)[|cs| - 1 - i].passes;
      }
    }
    ReversedElements(cs);
  }

  lemma {:induction false} ReversedElements(cs: seq<Check>)
    ensures multiset(Reversed(cs)) == multiset(cs)
  {
    if cs != [] {
      var n := |cs| - 1;
      ReversedElements(cs[..n]);
      assert cs == cs[..n] + [cs[n]];
      assert Reversed(cs) == [cs[n]] + Reversed(cs[..n]);
    } else {
      assert Reversed(cs) == [];
    }
  }

  /** What a thread that takes a batch does to the system. */
  lemma TakeKeeps(s: System, t: nat, keep: nat)
    requires Core(s) && t < |s.threads| && s.threads[t].Locked? && keep < |s.q.queue|
    ensures var th := Working(Reversed(s.q.queue[keep..]), s.q.fAllOk, |s.q.queue| - keep);
            Core(s.(q := s.q.(queue := s.q.queue[..keep]), threads := s.threads[t := th]))
  {
    hide Conserved, VerdictOk;
    var th := Working(Reversed(s.q.queue[keep..]), s.q.fAllOk, |s.q.queue| - keep);
    var s' := s.(q := s.q.(queue := s.q.queue[..keep]), threads := s.threads[t := th]);
    AllSums(s.threads, t, th);
    ReversedIs(s.q.queue[keep..]);
    assert s.q.queue == s.q.queue[..keep] + s.q.queue[keep..];
    MoveConserves(s, s', t, th);
    TakeVerdict(s, t, keep, s');
  }

  lemma TakeVerdict(s: System, t: nat, keep: nat, s': System)
    requires VerdictOk(s) && t < |s.threads| && s.threads[t].Locked? && keep < |s.q.queue|
    requires s'.added == s.added && s'.q.fAllOk == s.q.fAllOk && s'.q.queue == s.q.queue[..keep]
    requires s'.threads == s.threads[t := Working(Reversed(s.q.queue[keep..]), s.q.fAllOk, |s.q.queue| - keep)]
    ensures VerdictOk(s')
  {
    ReversedIs(s.q.queue[keep..]);
    assert s.q.queue == s.q.queue[..keep] + s.q.queue[keep..];
    assert AllPass(s.q.queue) <==> AllPass(s.q.queue[..keep]) && AllPass(s.q.queue[keep..]) by {
      if AllPass(s.q.queue[..keep]) && AllPass(s.q.queue[keep..]) {
        forall i | 0 <= i < |s.q.queue| ensures s.q.queue[i].passes {
          assert i < keep ==> s.q.queue[i] == s.q.queue[..keep][i];
          assert i >= keep ==> s.q.queue[i] == s.q.queue[keep..][i - keep];
        }
      }
    }
    assert Healthy(s.threads[t]);
    assert forall i :: 0 <= i < |s.threads| && i != t ==> s'.threads[i] == s.threads[i];
    if s.q.fAllOk {
      assert Healthy(s'.threads[t]) <==> AllPass(s.q.queue[keep..]);
    }
  }

  lemma ParkKeeps(s: System, t: nat)
    requires Core(s) && t < |s.threads| && s.threads[t].Locked? && s.q.queue == [] && !Returns(s.q, t == 0)
    ensures Core(s.(q := s.q.(nIdle := s.q.nIdle + 1), threads := s.threads[t := Waiting(false)]))
  {
    hide Conserved;
    var s' := s.(q := s.q.(nIdle := s.q.nIdle + 1), threads := s.threads[t := Waiting(false)]);
    MoveConserves(s, s', t, Waiting(false));
    AllSums(s.threads, t, Waiting(false));
    assert forall i :: 0 <= i < |s.threads| ==> (Healthy(s'.threads[i]) <==> Healthy(s.threads[i]));
  }

  lemma ReturnKeeps(s: System)
    requires Core(s) && s.threads[0].Locked? && Returns(s.q, true)
    ensures Core(s.(q := s.q.(nTotal := s.q.nTotal - 1, fAllOk := true), threads := s.threads[0 := Outside], added := [],
                    done := multiset{}))
    ensures s.q.fAllOk == AllPass(s.added) && s.done == multiset(s.added)
  {
    AllSums(s.threads, 0, Outside);
    IdleWhenDone(s.q, s.threads);
    NothingInHand(s.threads);
  }

  lemma ReleaseKeeps(s: System, t: nat, nBatchSize: nat)
    requires Core(s) && t < |s.threads| && s.threads[t].Locked?
    ensures Core(Release(s, t, nBatchSize)) && !Release(s, t, nBatchSize).threads[t].Locked?
  {
    hide Core;
    if Returns(s.q, t == 0) {
      ReturnKeeps(s);
    } else if s.q.queue == [] {
      ParkKeeps(s, t);
    } else {
      CountsPositive(s);
      BatchFits(s.q, nBatchSize);
      TakeKeeps(s, t, |s.q.queue| - BatchSize(s.q, nBatchSize));
    }
  }

  lemma CountsPositive(s: System)
    requires Core(s)
    ensures s.q.nTotal + s.q.nIdle + 1 > 0
  {
  }

  lemma HeldKeeps(s: System, step: Step)
    requires Inv(s) && Enabled(s, step) && (step.Enter? || step.Wake?)
    ensures var h := Held(s, step);
            && Core(h) && h.q.nTotal + h.q.nIdle + 1 > 0 && |h.threads| == |s.threads| && h.threads[step.t].Locked?
            && h.added == s.added
            && forall i :: 0 <= i < |s.threads| && i != step.t ==> !h.threads[i].Locked?
  {
    if step.Enter? {
      AcquireKeeps(s, step.t);
      NotifyKeeps(s.threads);
    } else {
      ReacquireKeeps(s, step.t);
    }
    CountsPositive(Held(s, step));
  }

  lemma ExecuteKeeps(s: System, t: nat)
    requires Inv(s) && Enabled(s, Execute(t))
    ensures Inv(Looked(s, t))
  {
    hide Conserved, VerdictOk;
    var th := s.threads[t];
    var th' := Working(th.rest[1..], th.fOk && th.rest[0].passes, th.nNow);
    AllSums(s.threads, t, th');
    ExecuteVerdict(s, t);
    ExecuteConserves(s, t);
  }

  lemma ExecuteVerdict(s: System, t: nat)
    requires VerdictOk(s) && Enabled(s, Execute(t))
    ensures VerdictOk(Looked(s, t))
  {
    var th, s' := s.threads[t], Looked(s, t);
    PassAppend([th.rest[0]], th.rest[1..]);
    assert th.rest == [th.rest[0]] + th.rest[1..];
    assert Healthy(th) <==> Healthy(s'.threads[t]);
    assert forall i :: 0 <= i < |s.threads| && i != t ==> s'.threads[i] == s.threads[i];
  }

  lemma ExecuteConserves(s: System, t: nat)
    requires Conserved(s) && Enabled(s, Execute(t))
    ensures Conserved(Looked(s, t))
  {
    var th, s' := s.threads[t], Looked(s, t);
    assert th.rest == [th.rest[0]] + th.rest[1..];
    assert multiset(th.rest) == multiset{th.rest[0]} + multiset(th.rest[1..]);
    MoveConserves(s, s', t, s'.threads[t]);
  }

  lemma AddKeeps(s: System, checks: seq<Check>)
    requires Inv(s) && Enabled(s, Add(checks))
    ensures Inv(s.(q := Extended(s.q, checks), added := s.added + checks))
  {
    assert AllPass(s.added + checks) <==> AllPass(s.added) && AllPass(checks) by { PassAppend(s.added, checks); }
    PassAppend(s.q.queue, checks);
  }

  lemma PassAppend(a: seq<Check>, b: seq<Check>)
    ensures AllPass(a + b) <==> AllPass(a) && AllPass(b)
  {
    if AllPass(a + b) {
      assert forall i :: 0 <= i < |a| ==> (a + b)[i] == a[i];
      assert forall i :: 0 <= i < |b| ==> (a + b)[|a| + i] == b[i];
    }
  }

  lemma StepKeeps(s: System, step: Step, nBatchSize: nat)
    requires Inv(s) && Enabled(s, step)
    ensures Inv(Apply(s, step, nBatchSize)) && |Apply(s, step, nBatchSize).threads| == |s.threads|
  {
    hide Core;
    match step
    case Add(checks) => AddKeeps(s, checks);
    case Execute(t) => ExecuteKeeps(s, t);
    case _ =>
      HeldKeeps(s, step);
      ReleaseKeeps(Held(s, step), step.t, nBatchSize);
  }

  // ---------------------------------------------------------------- whole runs

  lemma InitialOk(nThreads: nat)
    requires nThreads > 0
    ensures Inv(Initial(nThreads))
  {
    var ts := Initial(nThreads).threads;
    SumZero(InBatch, ts);
    SumZero(Idle, ts);
    SumZero(Inside, ts);
    NothingInHand(ts);
  }

  /** The state after a sequence of steps, if each was enabled in its turn. Every such state is sound. */
  function After(s: System, steps: seq<Step>, nBatchSize: nat): (r: Option<System>)
    requires Inv(s)
    ensures r.Some? ==> Inv(r.value) && |r.value.threads| == |s.threads|
    decreases |steps|
  {
    if steps == [] then Some(s)
    else if !Enabled(s, steps[0]) then None
    else
      StepKeeps(s, steps[0], nBatchSize);
      After(Apply(s, steps[0], nBatchSize), steps[1..], nBatchSize)
  }

  /** The state after a run from the start with this many threads. */
  function Reached(nThreads: nat, steps: seq<Step>, nBatchSize: nat): (r: Option<System>)
    requires nThreads > 0
    ensures r.Some? ==> Inv(r.value) && |r.value.threads| == nThreads
  {
    InitialOk(nThreads);
    After(Initial(nThreads), steps, nBatchSize)
  }

  /** A run begins with all threads outside and nothing queued, and goes on with any step that is enabled. */
  lemma ReachedNext(nThreads: nat, steps: seq<Step>, nBatchSize: nat, step: Step)
    requires nThreads > 0
    ensures Reached(nThreads, [], nBatchSize) == Some(Initial(nThreads))
    ensures var r, next := Reached(nThreads, steps, nBatchSize), Reached(nThreads, steps + [step], nBatchSize);
            if r.Some? && Enabled(r.value, step) then next == Some(Apply(r.value, step, nBatchSize)) else next == None
  {
    hide Initial, Enabled, Apply, Inv;
    InitialOk(nThreads);
    AfterNext(Initial(nThreads), steps, nBatchSize, step);
  }

  lemma {:induction false} AfterNext(s: System, steps: seq<Step>, nBatchSize: nat, step: Step)
    requires Inv(s)
    ensures var r, next := After(s, steps, nBatchSize), After(s, steps + [step], nBatchSize);
            if r.Some? && Enabled(r.value, step) then next == Some(Apply(r.value, step, nBatchSize)) else next == None
    decreases |steps|
  {
    hide Enabled, Apply, Inv;
    if steps == [] {
      assert (steps + [step])[1..] == [];
      if Enabled(s, step) { StepKeeps(s, step, nBatchSize); }
    } else {
      assert (steps + [step])[1..] == steps[1..] + [step];
      if Enabled(s, steps[0]) {
        StepKeeps(s, steps[0], nBatchSize);
        AfterNext(Apply(s, steps[0], nBatchSize), steps[1..], nBatchSize, step);
      }
    }
  }

  /** In every run, when `Wait` returns, it returns the conjunction of all checks added since it last
      returned; each of them has been looked at once, nothing is queued and no thread holds a batch. */
  lemma WaitReturnsConjunction(nThreads: nat, steps: seq<Step>, nBatchSize: nat, step: Step)
    requires nThreads > 0 && Reached(nThreads, steps, nBatchSize).Some?
    requires Enabled(Reached(nThreads, steps, nBatchSize).value, step)
    requires Result(Reached(nThreads, steps, nBatchSize).value, step).Some?
    ensures var s := Reached(nThreads, steps, nBatchSize).value;
            && Result(s, step).value == AllPass(s.added)
            && Held(s, step).done == multiset(s.added)
            && Held(s, step).q.queue == []
            && forall i :: 0 <= i < nThreads ==> !Held(s, step).threads[i].Working?
  {
    var s := Reached(nThreads, steps, nBatchSize).value;
    ReturnIsConjunction(s, step);
  }

  lemma ReturnIsConjunction(s: System, step: Step)
    requires Inv(s) && Enabled(s, step) && Result(s, step).Some?
    ensures Result(s, step).value == AllPass(s.added) && Held(s, step).done == multiset(s.added)
    ensures Held(s, step).q.queue == []
    ensures forall i :: 0 <= i < |Held(s, step).threads| ==> !Held(s, step).threads[i].Working?
    ensures |Held(s, step).threads| == |s.threads|
  {
    HeldKeeps(s, step);
    ReturnKeeps(Held(s, step));
    IdleWhenDone(Held(s, step).q, Held(s, step).threads);
  }

  /** A waiting master has a notification pending or a worker that still owes it one. */
  lemma WaitingMasterIsServed(s: System)
    requires Inv(s) && s.threads[0].Waiting?
    ensures s.threads[0].notified || exists t :: 0 < t < |s.threads| && s.threads[t].Working?
    ensures s.threads[0].notified ==> Result(s, Wake(0)).Some?
  {
    if !s.threads[0].notified && forall t :: 0 < t < |s.threads| ==> !s.threads[t].Working? {
      SumZero(InBatch, s.threads);
      assert false;
    }
  }

  predicate IsIdle(q: Shared) { q.nTotal == q.nIdle && q.nTodo == 0 && q.fAllOk }

  /** Between rounds the queue is idle, as the control object asserts when it is set up. */
  lemma IdleBetweenRounds(s: System)
    requires Inv(s) && s.added == [] && s.threads[0].Outside?
    ensures IsIdle(s.q) && s.q.nTotal == s.q.nIdle && s.q.nTodo == 0 && s.q.fAllOk
  {
    IdleWhenDone(s.q, s.threads);
    SameSum(s.threads);
  }

  lemma {:induction false} SameSum(ts: seq<Thread>)
    requires forall i :: 0 <= i < |ts| ==> ts[i].Outside? || ts[i].Waiting?
    ensures Sum(Idle, ts) == Sum(Inside, ts)
  {
    if ts != [] {
      SameSum(ts[1..]);
    }
  }

  // ---------------------------------------------------------------- progress

  function Weight(t: Thread): nat {
    match t
    case Outside => 1
    case Working(rest, _, _) => 1 + 2 * |rest|
    case _ => 0
  }

  function Measure(s: System): nat { 4 * |s.q.queue| + Sum(Weight, s.threads) }

  lemma ReleaseMeasure(s: System, t: nat, nBatchSize: nat)
    requires Core(s) && t < |s.threads| && s.threads[t].Locked? && !Returns(s.q, t == 0)
    ensures Measure(Release(s, t, nBatchSize)) <= Measure(s)
    ensures s.q.queue != [] ==> Measure(Release(s, t, nBatchSize)) < Measure(s)
    ensures Release(s, t, nBatchSize).added == s.added
  {
    SumUpdate(Weight, s.threads, t, Release(s, t, nBatchSize).threads[t]);
    if s.q.queue != [] {
      BatchFits(s.q, nBatchSize);
    }
  }

  lemma HeldMeasure(s: System, step: Step)
    requires Inv(s) && Enabled(s, step) && (step.Enter? || step.Wake?)
    ensures Measure(Held(s, step)) <= Measure(s)
    ensures step.Enter? ==> Measure(Held(s, step)) < Measure(s)
  {
    if step.Enter? {
      var n := Notified(s.threads);
      if s.threads[0].Waiting? { SumUpdate(Weight, s.threads, 0, Waiting(true)); }
      assert Sum(Weight, n) == Sum(Weight, s.threads);
      SumUpdate(Weight, s.threads, step.t, Locked);
      SumUpdate(Weight, n, step.t, Locked);
    } else {
      SumUpdate(Weight, s.threads, step.t, Locked);
    }
  }

  /** Apart from adding checks and returning, no step raises the measure, and only a fruitless
      wake-up leaves it as it was: the work between two additions is finite. */
  lemma StepMeasure(s: System, step: Step, nBatchSize: nat)
    requires Inv(s) && Enabled(s, step) && !step.Add? && Result(s, step).None?
    ensures Measure(Apply(s, step, nBatchSize)) <= Measure(s)
    ensures !step.Wake? ==> Measure(Apply(s, step, nBatchSize)) < Measure(s)
    ensures Apply(s, step, nBatchSize).added == s.added
  {
    if step.Execute? {
      SumUpdate(Weight, s.threads, step.t, Looked(s, step.t).threads[step.t]);
    } else {
      HeldKeeps(s, step);
      HeldMeasure(s, step);
      ReleaseMeasure(Held(s, step), step.t, nBatchSize);
    }
  }

  /** While the master is in `Wait`, some step that needs no spurious wake-up is possible. */
  lemma UsefulStep(s: System) returns (step: Step)
    requires Inv(s) && !s.threads[0].Outside?
    ensures Enabled(s, step) && !step.Add?
    ensures step.Wake? ==> Result(s, step).Some?
    ensures step.Enter? ==> s.threads[step.t].Working?
  {
    if s.threads[0].Waiting? {
      WaitingMasterIsServed(s);
      if s.threads[0].notified { return Wake(0); }
      var t :| 0 < t < |s.threads| && s.threads[t].Working?;
      step := if s.threads[t].rest == [] then Enter(t) else Execute(t);
    } else {
      step := if s.threads[0].rest == [] then Enter(0) else Execute(0);
    }
  }

  /** No deadlock: from every state with the master in `Wait`, steps that need no spurious wake-up and no
      new checks lead to its return, with the conjunction of the round's checks. */
  lemma {:induction false} WaitCanReturn(s: System, nBatchSize: nat) returns (steps: seq<Step>, last: Step)
    requires Inv(s) && !s.threads[0].Outside?
    ensures forall i :: 0 <= i < |steps| ==> steps[i].Enter? || steps[i].Execute?
    ensures After(s, steps, nBatchSize).Some? && Enabled(After(s, steps, nBatchSize).value, last)
    ensures Result(After(s, steps, nBatchSize).value, last) == Some(AllPass(s.added))
    decreases Measure(s)
  {
    hide Core, Measure, Result;
    var step := UsefulStep(s);
    if Result(s, step).Some? {
      ReturnIsConjunction(s, step);
      return [], step;
    }
    StepKeeps(s, step, nBatchSize);
    StepMeasure(s, step, nBatchSize);
    var s' := Apply(s, step, nBatchSize);
    MasterStays(s, step, nBatchSize);
    var rest, l := WaitCanReturn(s', nBatchSize);
    steps, last := [step] + rest, l;
    assert steps[1..] == rest;
  }

  lemma MasterStays(s: System, step: Step, nBatchSize: nat)
    requires Inv(s) && Enabled(s, step) && !step.Add? && Result(s, step).None? && !s.threads[0].Outside?
    ensures !Apply(s, step, nBatchSize).threads[0].Outside?
  {
    if step.Enter? || step.Wake? {
      HeldKeeps(s, step);
    }
  }
}

/** The queue object; each method is one critical section, or the work of one thread outside the lock. */
module CheckQueue {
  import opened M = CheckQueueModel

  class CheckQueue {
    const nBatchSize: nat
    var queue: seq<Check>
    var nIdle: int
    var nTotal: int
    var fAllOk: bool
    var nTodo: int

    ghost function Value(): Shared
      reads this
    {
      Shared(queue, nIdle, nTotal, fAllOk, nTodo)
    }

    constructor (nBatchSizeIn: nat)
      ensures Value() == Initial(1).q && nBatchSize == nBatchSizeIn
    {
      nBatchSize := nBatchSizeIn;
      queue, nIdle, nTotal, fAllOk, nTodo := [], 0, 0, true, 0;
    }

    method Add(checks: seq<Check>)
      modifies this
      ensures Value() == Extended(old(Value()), checks)
    {
      for i := 0 to |checks|
        invariant queue == old(queue) + checks[..i]
        invariant unchanged(`nIdle) && unchanged(`nTotal) && unchanged(`fAllOk) && unchanged(`nTodo)
      {
        queue := queue + [checks[i]];
      }
      assert checks[..|checks|] == checks;
      nTodo := nTodo + |checks|;
    }

    /** The head of the critical section; says whether the master is to be notified. */
    method CleanUp(nNow: nat, fOk: bool, fMaster: bool) returns (notify: bool)
      modifies this
      ensures Value() == CleanedUp(old(Value()), nNow, fOk)
      ensures notify == (nNow != 0 && nTodo == 0 && !fMaster)
    {
      notify := false;
      if nNow != 0 {
        fAllOk := fAllOk && fOk;
        nTodo := nTodo - nNow;
        notify := nTodo == 0 && !fMaster;
      } else {
        nTotal := nTotal + 1;
      }
    }

    /** The rest of the critical section up to the wait, the return or the release with a batch in hand. */
    method Decide(fMaster: bool) returns (next: Thread, fRet: bool)
      requires nTotal + nIdle + 1 > 0
      modifies this
      ensures (Value(), next) == Decided(old(Value()), fMaster, nBatchSize)
      ensures Returns(old(Value()), fMaster) ==> fRet == old(fAllOk)
    {
      fRet := fAllOk;
      if queue == [] {
        if fMaster && nTodo == 0 {
          nTotal := nTotal - 1;
          fAllOk := true;
          return Outside, fRet;
        }
        nIdle := nIdle + 1;
        return Waiting(false), fRet;
      }
      BatchFits(Value(), nBatchSize);
      var share := |queue| / (nTotal + nIdle + 1);
      var nNow := if nBatchSize < share then nBatchSize else share;
      nNow := if nNow < 1 then 1 else nNow;
      var vChecks: seq<Check> := [];
      ghost var all := queue;
      for i := 0 to nNow
        invariant queue == all[..|all| - i]
        invariant vChecks == Reversed(all[|all| - nNow..])[..i]
        invariant unchanged(`nIdle) && unchanged(`nTotal) && unchanged(`fAllOk) && unchanged(`nTodo)
      {
        vChecks := vChecks + [queue[|queue| - 1]];
        queue := queue[..|queue| - 1];
      }
      assert vChecks == Reversed(all[|all| - nNow..]);
      next := Working(vChecks, fAllOk, nNow);
    }

    method EndWait()
      modifies this
      ensures Value() == old(Value()).(nIdle := old(nIdle) - 1)
    {
      nIdle := nIdle - 1;
    }
  }

  /** The work outside the lock: checks are evaluated until one fails. */
  method ExecuteBatch(vChecks: seq<Check>, fAllOk: bool) returns (fOk: bool)
    ensures fOk == (fAllOk && AllPass(vChecks))
  {
    fOk := fAllOk;
    for i := 0 to |vChecks|
      invariant fOk == (fAllOk && AllPass(vChecks[..i]))
    {
      assert vChecks[..i + 1] == vChecks[..i] + [vChecks[i]];
      PassAppend(vChecks[..i], [vChecks[i]]);
      if fOk { fOk := vChecks[i].passes; }
    }
    assert vChecks[..|vChecks|] == vChecks;
  }
}
