/** The parallel verification queue of src/checkqueue.h as a state machine. A step is what one
    thread does between taking and giving up the mutex, or one check run outside it, so every
    interleaving of a master and its workers is a sequence of steps. */
module CheckQueue {
  import opened Arith

  /** A check is what it returns when it is run. */
  type Check = bool

  predicate AllTrue(checks: seq<Check>) {
    forall i :: 0 <= i < |checks| ==> checks[i]
  }

  /** The members that the mutex protects. Nothing in the code sets fQuit. */
  datatype Shared = Shared(queue: seq<Check>, nIdle: int, nTotal: int, fAllOk: bool, nTodo: int, nBatchSize: nat)

  /** Where a thread is: not in Loop, blocked on its condition variable, or outside the
      critical section with a batch of which `done` checks have been run. */
  datatype Thread =
    | Outside
    | Waiting(notified: bool)
    | Working(batch: seq<Check>, done: nat, fOk: bool)

  datatype Outcome = Wait | Return(result: bool) | Work(batch: seq<Check>, fOk: bool)

  // ------------------------------------------------------ the critical sections

  function Share(size: nat, threads: nat): (n: nat)
    requires threads > 0
    ensures n <= size
  {
    QuotientAtMost(size, threads);
    size / threads
  }

  /** How many checks a thread takes: a share of the queue, but at least one. */
  function BatchCount(s: Shared): (n: int)
    requires s.nTotal >= 0 && s.nIdle >= 0 && |s.queue| > 0
    ensures 1 <= n <= |s.queue|
  {
    Max(1, Min(s.nBatchSize, Share(|s.queue|, s.nTotal + s.nIdle + 1)))
  }

  /** That is the most that is neither above the batch size nor above the thread's share of the queue,
      counting the idle threads twice as they may start to help; but never none. */
  lemma BatchShare(s: Shared)
    requires s.nTotal >= 0 && s.nIdle >= 0 && |s.queue| > 0
    ensures var n, sharers := BatchCount(s), s.nTotal + s.nIdle + 1;
            && (n == 1 || (n <= s.nBatchSize && n * sharers <= |s.queue|))
            && (n >= s.nBatchSize || (n + 1) * sharers > |s.queue|)
  {
    ShareBounds(|s.queue|, s.nTotal + s.nIdle + 1, BatchCount(s));
    hide Share;
  }

  lemma ShareBounds(size: nat, sharers: nat, n: nat)
    requires sharers > 0
    ensures n <= Share(size, sharers) ==> n * sharers <= size
    ensures n >= Share(size, sharers) ==> (n + 1) * sharers > size
  {
    var q := Share(size, sharers);
    TakeSome(sharers, size);
    if n <= q { Scale(n, q, sharers); }
    if n >= q { Scale(q + 1, n + 1, sharers); }
  }

  function Reverse(q: seq<Check>): (r: seq<Check>)
    ensures |r| == |q| && forall i :: 0 <= i < |q| ==> r[i] == q[|q| - 1 - i]
  {
    seq(|q|, i requires 0 <= i < |q| => q[|q| - 1 - i])
  }

  /** From the top of the inner loop: return, wait, or take checks off the end of the queue. */
  function Decide(s: Shared, fMaster: bool): (Shared, Outcome)
    requires s.nTotal >= 0 && s.nIdle >= 0
  {
    if s.queue == [] then
      if fMaster && s.nTodo == 0 then (s.(nTotal := s.nTotal - 1, fAllOk := true), Return(s.fAllOk))
      else (s.(nIdle := s.nIdle + 1), Wait)
    else
      var keep := |s.queue| - BatchCount(s);
      (s.(queue := s.queue[..keep]), Work(Reverse(s.queue[keep..]), s.fAllOk))
  }

  function Merge(s: Shared, nNow: nat, fOk: bool): Shared {
    s.(fAllOk := s.fAllOk && fOk, nTodo := s.nTodo - nNow)
  }

  function Push(s: Shared, checks: seq<Check>): Shared {
    s.(queue := s.queue + checks, nTodo := s.nTodo + |checks|)
  }

  predicate IsIdle(s: Shared) {
    s.nTotal == s.nIdle && s.nTodo == 0 && s.fAllOk
  }

  // ------------------------------------------------------------------ the system

  /** Thread 0 is the master. `added` are the checks of the present round, and `answers` what
      Wait has returned so far, each with the checks of its round. */
  datatype State = State(s: Shared, threads: seq<Thread>, added: seq<Check>, answers: seq<(seq<Check>, bool)>)

  const MASTER: nat := 0

  datatype Action =
    | Start(t: nat)                              // a thread calls Thread() or Wait()
    | Wake(t: nat)                               // a blocked thread gets the mutex again
    | RunCheck(t: nat)
    | Finish(t: nat)
    | Add(checks: seq<Check>, chosen: nat)       // by the master; `chosen` is whom notify_one picks

  predicate Sleeps(threads: seq<Thread>, t: nat) {
    t != MASTER && t < |threads| && threads[t] == Waiting(false)
  }

  predicate Enabled(x: State, a: Action) {
    match a
    case Start(t) => t < |x.threads| && x.threads[t].Outside?
    case Wake(t) => t < |x.threads| && x.threads[t].Waiting?
    case RunCheck(t) => t < |x.threads| && x.threads[t].Working? && x.threads[t].done < |x.threads[t].batch|
    case Finish(t) => t < |x.threads| && x.threads[t].Working? && x.threads[t].done == |x.threads[t].batch|
    case Add(checks, chosen) =>
      && |x.threads| > 0 && x.threads[MASTER].Outside?
      // notify_one picks a blocked worker whenever there is one
      && (|checks| == 1 && (exists t :: 0 <= t < |x.threads| && Sleeps(x.threads, t)) ==> Sleeps(x.threads, chosen))
  }

  /** Thread `t` goes on from the top of the inner loop. */
  function Continue(x: State, t: nat): State
    requires t < |x.threads| && x.s.nTotal >= 0 && x.s.nIdle >= 0
  {
    match Decide(x.s, t == MASTER)
    case (s, Wait) => x.(s := s, threads := x.threads[t := Waiting(false)])
    case (s, Work(batch, fOk)) => x.(s := s, threads := x.threads[t := Working(batch, 0, fOk)])
    case (s, Return(result)) =>
      State(s, x.threads[t := Outside], [], x.answers + [(x.added, result)])
  }

  function NotifyMaster(threads: seq<Thread>): seq<Thread> {
    if |threads| > 0 && threads[MASTER].Waiting? then threads[MASTER := Waiting(true)] else threads
  }

  function Notify(t: Thread): Thread {
    if t.Waiting? then Waiting(true) else t
  }

  /** notify_one for one check, notify_all for more; the master does not wait for these. */
  function NotifyWorkers(threads: seq<Thread>, count: nat, chosen: nat): (r: seq<Thread>)
    ensures |r| == |threads|
  {
    seq(|threads|, i requires 0 <= i < |threads| =>
      if i != MASTER && (count > 1 || (count == 1 && i == chosen)) then Notify(threads[i]) else threads[i])
  }

  function After(x: State, a: Action): State
    requires Inv(x) && Enabled(x, a)
  {
    match a
    case Start(t) => Continue(x.(s := x.s.(nTotal := x.s.nTotal + 1)), t)
    case Wake(t) =>
      SumAt(WAITS, x.threads, t);
      Continue(x.(s := x.s.(nIdle := x.s.nIdle - 1)), t)
    case RunCheck(t) =>
      var w := x.threads[t];
      x.(threads := x.threads[t := Working(w.batch, w.done + 1, w.fOk && w.batch[w.done])])
    case Finish(t) =>
      var w := x.threads[t];
      var s := Merge(x.s, |w.batch|, w.fOk);
      var threads := if s.nTodo == 0 && t != MASTER then NotifyMaster(x.threads) else x.threads;
      Continue(x.(s := s, threads := threads), t)
    case Add(checks, chosen) =>
      State(Push(x.s, checks), NotifyWorkers(x.threads, |checks|, chosen), x.added + checks, x.answers)
  }

  // ------------------------------------------------------------------- invariant

  function Sum(f: Thread -> nat, threads: seq<Thread>): nat {
    if threads == [] then 0 else f(threads[0]) + Sum(f, threads[1..])
  }

  const WAITS: Thread -> nat := (t: Thread) => if t.Waiting? then 1 else 0
  const INSIDE: Thread -> nat := (t: Thread) => if t.Outside? then 0 else 1
  const HOLDS: Thread -> nat := (t: Thread) => if t.Working? then |t.batch| else 0

  /** What a thread will report for its batch, if nothing had failed when it took it. */
  predicate Passing(t: Thread) {
    t.Working? ==> t.done <= |t.batch| && t.fOk && AllTrue(t.batch[t.done..])
  }

  predicate AllPassing(threads: seq<Thread>) {
    forall i :: 0 <= i < |threads| ==> Passing(threads[i])
  }

  ghost predicate Inv(x: State) {
    && |x.threads| > 0
    && x.s.nIdle == Sum(WAITS, x.threads) && x.s.nTotal == Sum(INSIDE, x.threads)
    // nTodo counts what is queued and what is in a batch that has not been merged
    && x.s.nTodo == |x.s.queue| + Sum(HOLDS, x.threads)
    && (forall t :: 0 <= t < |x.threads| && x.threads[t].Working? ==>
          0 < |x.threads[t].batch| && x.threads[t].done <= |x.threads[t].batch|)
    // the checks of the round are all true exactly when nothing failed and nothing will
    && (AllTrue(x.added) <==>
          x.s.fAllOk && AllTrue(x.s.queue) && AllPassing(x.threads))
    // a blocked master waits for others, and is notified when they have finished
    && (x.threads[MASTER].Waiting? ==>
          x.s.queue == [] && (x.threads[MASTER].notified <==> x.s.nTodo == 0))
    // every answer was right
    && (forall i :: 0 <= i < |x.answers| ==> (x.answers[i].1 <==> AllTrue(x.answers[i].0)))
  }

  lemma {:induction false} SumAt(f: Thread -> nat, threads: seq<Thread>, t: nat)
    requires t < |threads|
    ensures f(threads[t]) <= Sum(f, threads)
  {
    if t > 0 { SumAt(f, threads[1..], t - 1); }
  }

  lemma {:induction false} SumUpdate(f: Thread -> nat, threads: seq<Thread>, t: nat, w: Thread)
    requires t < |threads|
    ensures Sum(f, threads[t := w]) == Sum(f, threads) - f(threads[t]) + f(w)
  {
    if t == 0 {
      assert threads[t := w][1..] == threads[1..];
    } else {
      assert threads[t := w][1..] == threads[1..][t - 1 := w];
      SumUpdate(f, threads[1..], t - 1, w);
    }
  }

  lemma {:induction false} SumSame(f: Thread -> nat, a: seq<Thread>, b: seq<Thread>)
    requires |a| == |b| && forall i :: 0 <= i < |a| ==> f(a[i]) == f(b[i])
    ensures Sum(f, a) == Sum(f, b)
  {
    if a != [] { SumSame(f, a[1..], b[1..]); }
  }

  lemma {:induction false} SumPositive(f: Thread -> nat, threads: seq<Thread>) returns (t: nat)
    requires Sum(f, threads) > 0
    ensures t < |threads| && f(threads[t]) > 0
  {
    if f(threads[0]) > 0 {
      t := 0;
    } else {
      t := SumPositive(f, threads[1..]);
      t := t + 1;
    }
  }

  lemma {:induction false} SumZero(f: Thread -> nat, threads: seq<Thread>, t: nat)
    requires Sum(f, threads) == 0 && t < |threads|
    ensures f(threads[t]) == 0
  {
    SumAt(f, threads, t);
  }

  // --------------------------------------------------------- the invariant is kept

  /** A thread that is inside, has merged all it held, and has not yet decided what to do. */
  const DECIDING: Thread := Working([], 0, true)

  /** The invariant while thread `t` is deciding. */
  ghost predicate InvBut(x: State, t: nat) {
    && t < |x.threads| && x.threads[t] == DECIDING
    && x.s.nIdle == Sum(WAITS, x.threads) && x.s.nTotal == Sum(INSIDE, x.threads)
    && x.s.nTodo == |x.s.queue| + Sum(HOLDS, x.threads)
    && (forall i :: 0 <= i < |x.threads| && i != t && x.threads[i].Working? ==>
          0 < |x.threads[i].batch| && x.threads[i].done <= |x.threads[i].batch|)
    && (AllTrue(x.added) <==>
          x.s.fAllOk && AllTrue(x.s.queue) && AllPassing(x.threads))
    && (x.threads[MASTER].Waiting? ==>
          x.s.queue == [] && (x.threads[MASTER].notified <==> x.s.nTodo == 0))
    && (forall i :: 0 <= i < |x.answers| ==> (x.answers[i].1 <==> AllTrue(x.answers[i].0)))
  }

  lemma SumsUpdate(threads: seq<Thread>, t: nat, w: Thread)
    requires t < |threads|
    ensures Sum(WAITS, threads[t := w]) == Sum(WAITS, threads) - WAITS(threads[t]) + WAITS(w)
    ensures Sum(INSIDE, threads[t := w]) == Sum(INSIDE, threads) - INSIDE(threads[t]) + INSIDE(w)
    ensures Sum(HOLDS, threads[t := w]) == Sum(HOLDS, threads) - HOLDS(threads[t]) + HOLDS(w)
  {
    SumUpdate(WAITS, threads, t, w);
    SumUpdate(INSIDE, threads, t, w);
    SumUpdate(HOLDS, threads, t, w);
  }

  predicate OthersPassing(threads: seq<Thread>, t: nat) {
    forall i :: 0 <= i < |threads| && i != t ==> Passing(threads[i])
  }

  lemma PassingUpdate(threads: seq<Thread>, t: nat, w: Thread)
    requires t < |threads|
    ensures AllPassing(threads[t := w]) <==> Passing(w) && OthersPassing(threads, t)
  {
    var us := threads[t := w];
    if AllPassing(us) {
      assert Passing(us[t]);
      forall i | 0 <= i < |threads| && i != t ensures Passing(threads[i]) {
        assert Passing(us[i]);
      }
    }
  }

  lemma PassingHere(threads: seq<Thread>, t: nat)
    requires t < |threads|
    ensures AllPassing(threads) <==> Passing(threads[t]) && OthersPassing(threads, t)
  {
  }

  lemma WaitKeeps(x: State, t: nat)
    requires InvBut(x, t) && x.s.queue == [] && (t == MASTER ==> x.s.nTodo != 0)
    ensures Inv(x.(s := x.s.(nIdle := x.s.nIdle + 1), threads := x.threads[t := Waiting(false)]))
  {
    hide Passing, Sum;
    SumsUpdate(x.threads, t, Waiting(false));
    PassingUpdate(x.threads, t, Waiting(false));
    PassingHere(x.threads, t);
    DecidingPasses();
  }

  lemma DecidingPasses()
    ensures Passing(Waiting(false)) && Passing(Waiting(true)) && Passing(Outside) && Passing(DECIDING)
  {
  }

  /** Taking checks off the queue moves them from one side of the count to the other. */
  lemma WorkKeeps(x: State, t: nat, keep: nat)
    requires InvBut(x, t) && keep < |x.s.queue|
    ensures Inv(x.(s := x.s.(queue := x.s.queue[..keep]),
                   threads := x.threads[t := Working(Reverse(x.s.queue[keep..]), 0, x.s.fAllOk)]))
  {
    var w := Working(Reverse(x.s.queue[keep..]), 0, x.s.fAllOk);
    SumsUpdate(x.threads, t, w);
    PassingUpdate(x.threads, t, w);
    PassingHere(x.threads, t);
    DecidingPasses();
    TakenPasses(x.s.queue, keep, x.s.fAllOk);
    hide Passing, Sum, AllTrue, Reverse;
  }

  lemma TakenPasses(queue: seq<Check>, keep: nat, fOk: bool)
    requires keep < |queue|
    ensures fOk ==> (AllTrue(queue) <==> AllTrue(queue[..keep]) && Passing(Working(Reverse(queue[keep..]), 0, fOk)))
  {
    var batch := Reverse(queue[keep..]);
    assert batch[0..] == batch;
    if AllTrue(queue[..keep]) && AllTrue(batch) {
      forall i | 0 <= i < |queue| ensures queue[i] {
        if i >= keep { assert batch[|batch| - 1 - (i - keep)] == queue[i]; } else { assert queue[..keep][i]; }
      }
    }
    if AllTrue(queue) {
      forall i | 0 <= i < |batch| ensures batch[i] { assert batch[i] == queue[keep..][|batch| - 1 - i]; }
    }
  }

  /** When the master returns, nobody holds a batch, so its answer is about all the checks of
      the round. */
  lemma ReturnKeeps(x: State, t: nat)
    requires InvBut(x, t) && x.s.queue == [] && t == MASTER && x.s.nTodo == 0
    ensures Inv(State(x.s.(nTotal := x.s.nTotal - 1, fAllOk := true), x.threads[t := Outside], [],
                      x.answers + [(x.added, x.s.fAllOk)]))
  {
    SumsUpdate(x.threads, t, Outside);
    PassingUpdate(x.threads, t, Outside);
    DecidingPasses();
    forall i | 0 <= i < |x.threads| ensures Passing(x.threads[i]) {
      SumZero(HOLDS, x.threads, i);
      if i != t { assert !x.threads[i].Working?; }
    }
    hide Passing, Sum;
  }

  lemma ContinueKeeps(x: State, t: nat)
    requires InvBut(x, t)
    ensures x.s.nTotal >= 0 && x.s.nIdle >= 0 && Inv(Continue(x, t))
  {
    if x.s.queue == [] {
      if t == MASTER && x.s.nTodo == 0 { ReturnKeeps(x, t); } else { WaitKeeps(x, t); }
    } else {
      WorkKeeps(x, t, |x.s.queue| - BatchCount(x.s));
    }
    hide Inv, Passing;
  }

  /** What thread `t` was before it decides does not matter. */
  lemma ContinueSame(x: State, t: nat)
    requires t < |x.threads| && x.s.nTotal >= 0 && x.s.nIdle >= 0
    ensures Continue(x, t) == Continue(x.(threads := x.threads[t := DECIDING]), t)
  {
    var us := x.threads[t := DECIDING];
    var (s, outcome) := Decide(x.s, t == MASTER);
    var w := match outcome case Wait => Waiting(false) case Work(b, ok) => Working(b, 0, ok) case Return(_) => Outside;
    assert x.threads[t := w] == us[t := w];
  }

  lemma StartKeeps(x: State, t: nat)
    requires Inv(x) && t < |x.threads| && x.threads[t].Outside?
    ensures InvBut(x.(s := x.s.(nTotal := x.s.nTotal + 1), threads := x.threads[t := DECIDING]), t)
  {
    SumsUpdate(x.threads, t, DECIDING);
    PassingUpdate(x.threads, t, DECIDING);
    PassingHere(x.threads, t);
    DecidingPasses();
    hide Passing, Sum;
  }

  lemma WakeKeeps(x: State, t: nat)
    requires Inv(x) && t < |x.threads| && x.threads[t].Waiting?
    ensures InvBut(x.(s := x.s.(nIdle := x.s.nIdle - 1), threads := x.threads[t := DECIDING]), t)
  {
    SumsUpdate(x.threads, t, DECIDING);
    PassingUpdate(x.threads, t, DECIDING);
    PassingHere(x.threads, t);
    DecidingPasses();
    hide Passing, Sum;
  }

  lemma RunKeeps(x: State, t: nat)
    requires Inv(x) && Enabled(x, RunCheck(t))
    ensures Inv(After(x, RunCheck(t)))
  {
    var w := x.threads[t];
    var w' := Working(w.batch, w.done + 1, w.fOk && w.batch[w.done]);
    SumsUpdate(x.threads, t, w');
    PassingUpdate(x.threads, t, w');
    PassingHere(x.threads, t);
    RunPasses(w);
    hide Passing, Sum;
  }

  lemma RunPasses(w: Thread)
    requires w.Working? && w.done < |w.batch|
    ensures Passing(w) <==> Passing(Working(w.batch, w.done + 1, w.fOk && w.batch[w.done]))
  {
    assert w.batch[w.done..] == [w.batch[w.done]] + w.batch[w.done + 1..];
  }

  lemma NotifiedSums(threads: seq<Thread>, us: seq<Thread>)
    requires |threads| == |us| && forall i :: 0 <= i < |threads| ==> us[i] == threads[i] || us[i] == Notify(threads[i])
    ensures Sum(WAITS, us) == Sum(WAITS, threads) && Sum(INSIDE, us) == Sum(INSIDE, threads)
    ensures Sum(HOLDS, us) == Sum(HOLDS, threads) && (AllPassing(us) <==> AllPassing(threads))
  {
    SumSame(WAITS, us, threads);
    SumSame(INSIDE, us, threads);
    SumSame(HOLDS, us, threads);
    forall i | 0 <= i < |threads| ensures Passing(us[i]) <==> Passing(threads[i]) {
    }
  }

  /** The threads after the batch of thread `t` is merged, before it goes on. */
  function Finished(x: State, t: nat): seq<Thread>
    requires t < |x.threads| && x.threads[t].Working?
  {
    var w := x.threads[t];
    var s := Merge(x.s, |w.batch|, w.fOk);
    if s.nTodo == 0 && t != MASTER then NotifyMaster(x.threads) else x.threads
  }

  lemma FinishedThreads(x: State, t: nat)
    requires t < |x.threads| && x.threads[t].Working?
    ensures var us := Finished(x, t);
            && |us| == |x.threads| && us[t] == x.threads[t]
            && (us[MASTER].Waiting? <==> x.threads[MASTER].Waiting?)
            && (us[MASTER].Waiting? && us[MASTER] != x.threads[MASTER] ==> us[MASTER].notified)
            && (us[MASTER].Waiting? && x.s.nTodo == |x.threads[t].batch| ==> us[MASTER].notified)
            && (x.s.nTodo != |x.threads[t].batch| ==> us == x.threads)
            && (forall i :: 0 <= i < |us| && us[i].Working? ==> us[i] == x.threads[i])
    ensures var us := Finished(x, t);
            && Sum(WAITS, us) == Sum(WAITS, x.threads) && Sum(INSIDE, us) == Sum(INSIDE, x.threads)
            && Sum(HOLDS, us) == Sum(HOLDS, x.threads) && (AllPassing(us) <==> AllPassing(x.threads))
  {
    hide Passing, AllPassing, Sum;
    NotifiedSums(x.threads, Finished(x, t));
    NotifiedOthers(x.threads, t);
  }

  lemma FinishKeeps(x: State, t: nat)
    requires Inv(x) && Enabled(x, Finish(t))
    ensures var w := x.threads[t];
            InvBut(x.(s := Merge(x.s, |w.batch|, w.fOk), threads := Finished(x, t)[t := DECIDING]), t)
  {
    var w := x.threads[t];
    FinishedThreads(x, t);
    hide Passing, OthersPassing, AllPassing, Sum, AllTrue, NotifyMaster, Finished;
    var threads := Finished(x, t);
    FinishCounts(x.s, threads, t, w);
    PassingUpdate(threads, t, DECIDING);
    PassingHere(threads, t);
    DecidingPasses();
    FinishedPasses(w);
  }

  lemma NotifiedOthers(threads: seq<Thread>, t: nat)
    requires t < |threads| && threads[t].Working?
    ensures var us := NotifyMaster(threads);
            && |us| == |threads| && us[t] == threads[t]
            && (us[MASTER].Waiting? <==> threads[MASTER].Waiting?) && (us[MASTER].Waiting? ==> us[MASTER].notified)
            && forall i :: 0 <= i < |threads| && us[i].Working? ==> us[i] == threads[i]
  {
  }

  lemma FinishCounts(s: Shared, threads: seq<Thread>, t: nat, w: Thread)
    requires t < |threads| && threads[t] == w && w.Working?
    ensures var us := threads[t := DECIDING];
            && Sum(WAITS, us) == Sum(WAITS, threads) && Sum(INSIDE, us) == Sum(INSIDE, threads)
            && Sum(HOLDS, us) == Sum(HOLDS, threads) - |w.batch|
  {
    SumsUpdate(threads, t, DECIDING);
  }

  lemma FinishedPasses(w: Thread)
    requires w.Working? && w.done == |w.batch|
    ensures Passing(w) <==> w.fOk
  {
  }

  lemma AddKeeps(x: State, checks: seq<Check>, chosen: nat)
    requires Inv(x) && Enabled(x, Add(checks, chosen))
    ensures Inv(After(x, Add(checks, chosen)))
  {
    NotifiedSums(x.threads, NotifyWorkers(x.threads, |checks|, chosen));
    AllTrueJoin(x.added, checks);
    AllTrueJoin(x.s.queue, checks);
    hide Passing, Sum, AllTrue, AllPassing;
  }

  lemma AllTrueJoin(a: seq<Check>, b: seq<Check>)
    ensures AllTrue(a + b) <==> AllTrue(a) && AllTrue(b)
  {
    if AllTrue(a + b) {
      forall i | 0 <= i < |b| ensures b[i] { assert (a + b)[|a| + i] == b[i]; }
      forall i | 0 <= i < |a| ensures a[i] { assert (a + b)[i] == a[i]; }
    }
  }

  /** Every step of every thread keeps the invariant. */
  lemma AfterKeeps(x: State, a: Action)
    requires Inv(x) && Enabled(x, a)
    ensures Inv(After(x, a))
  {
    hide Inv, InvBut;
    match a
    case Start(t) =>
      StartKeeps(x, t);
      Settle(x.(s := x.s.(nTotal := x.s.nTotal + 1)), t);
    case Wake(t) =>
      WakeKeeps(x, t);
      Settle(x.(s := x.s.(nIdle := x.s.nIdle - 1)), t);
    case RunCheck(t) => RunKeeps(x, t);
    case Finish(t) =>
      FinishKeeps(x, t);
      var w := x.threads[t];
      Settle(x.(s := Merge(x.s, |w.batch|, w.fOk), threads := Finished(x, t)), t);
    case Add(checks, chosen) => AddKeeps(x, checks, chosen);
  }

  lemma Settle(x: State, t: nat)
    requires t < |x.threads| && InvBut(x.(threads := x.threads[t := DECIDING]), t)
    ensures x.s.nTotal >= 0 && x.s.nIdle >= 0 && Inv(Continue(x, t))
  {
    hide Inv, InvBut;
    ContinueKeeps(x.(threads := x.threads[t := DECIDING]), t);
    ContinueSame(x, t);
  }

  /** A queue that nobody uses yet, and `n` threads that may use it. */
  function Fresh(n: nat, nBatchSize: nat): (x: State)
    ensures n > 0 ==> Inv(x)
  {
    var threads := seq(n, _ => Outside);
    SumOutside(WAITS, threads);
    SumOutside(INSIDE, threads);
    SumOutside(HOLDS, threads);
    State(Shared([], 0, 0, true, 0, nBatchSize), threads, [], [])
  }

  lemma {:induction false} SumOutside(f: Thread -> nat, threads: seq<Thread>)
    requires f(Outside) == 0 && forall i :: 0 <= i < |threads| ==> threads[i] == Outside
    ensures Sum(f, threads) == 0
  {
    if threads != [] { SumOutside(f, threads[1..]); }
  }

  /** A run, in which every action is possible when its turn comes. */
  ghost predicate CanRun(x: State, actions: seq<Action>)
    requires Inv(x)
    decreases |actions|
  {
    actions == [] || (
      && Enabled(x, actions[0])
      && (AfterKeeps(x, actions[0]); CanRun(After(x, actions[0]), actions[1..])))
  }

  ghost function Run(x: State, actions: seq<Action>): State
    requires Inv(x) && CanRun(x, actions)
    decreases |actions|
  {
    if actions == [] then x else
      AfterKeeps(x, actions[0]);
      Run(After(x, actions[0]), actions[1..])
  }

  lemma {:induction false} RunKeepsInv(x: State, actions: seq<Action>)
    requires Inv(x) && CanRun(x, actions)
    ensures Inv(Run(x, actions))
    decreases |actions|
  {
    hide Inv, Enabled;
    if actions != [] {
      AfterKeeps(x, actions[0]);
      hide After;
      RunKeepsInv(After(x, actions[0]), actions[1..]);
    }
  }

  // ------------------------------------------------------------------- results

  /** What is to do was added in this round. */
  predicate FromRound(x: State) {
    x.s.nTodo <= |x.added|
  }

  lemma DecideFromRound(x: State, t: nat)
    requires t < |x.threads| && x.s.nTotal >= 0 && x.s.nIdle >= 0 && FromRound(x)
    ensures FromRound(Continue(x, t))
  {
  }

  lemma AfterFromRound(x: State, a: Action)
    requires Inv(x) && Enabled(x, a) && FromRound(x)
    ensures FromRound(After(x, a))
  {
    hide Inv, Continue, NotifyWorkers, Enabled;
    AfterParts(x, a);
    match a
    case Start(t) => DecideFromRound(x.(s := x.s.(nTotal := x.s.nTotal + 1)), t);
    case Wake(t) => DecideFromRound(x.(s := x.s.(nIdle := x.s.nIdle - 1)), t);
    case RunCheck(t) =>
    case Finish(t) =>
      var w := x.threads[t];
      var s := Merge(x.s, |w.batch|, w.fOk);
      var threads := if s.nTodo == 0 && t != MASTER then NotifyMaster(x.threads) else x.threads;
      DecideFromRound(x.(s := s, threads := threads), t);
    case Add(checks, chosen) =>
  }

  /** What the steps are defined for. */
  lemma AfterParts(x: State, a: Action)
    requires Inv(x) && Enabled(x, a)
    ensures x.s.nTotal >= 0 && x.s.nIdle >= 0
    ensures a.Start? || a.Wake? || a.RunCheck? || a.Finish? ==> a.t < |x.threads|
    ensures a.Finish? ==> x.threads[a.t].Working?
    ensures a.Wake? ==> x.s.nIdle >= 1
  {
    if a.Wake? { SumAt(WAITS, x.threads, a.t); }
  }

  /** Without a check of the round, nothing is to do, and the queue is idle. */
  lemma NothingAdded(x: State)
    requires Inv(x) && FromRound(x) && x.added == []
    ensures IsIdle(x.s)
  {
    Settled(x);
  }

  lemma {:induction false} RunFromRound(x: State, actions: seq<Action>)
    requires Inv(x) && CanRun(x, actions) && FromRound(x)
    ensures FromRound(Run(x, actions))
    decreases |actions|
  {
    hide Inv, Enabled, FromRound;
    if actions != [] {
      AfterKeeps(x, actions[0]);
      AfterFromRound(x, actions[0]);
      hide After;
      RunFromRound(After(x, actions[0]), actions[1..]);
    }
  }

  lemma {:induction false} RunRouses(x: State, actions: seq<Action>)
    requires Inv(x) && CanRun(x, actions) && NoOversleeping(x)
    ensures NoOversleeping(Run(x, actions))
    decreases |actions|
  {
    hide Inv, Enabled, NoOversleeping;
    if actions != [] {
      AfterKeeps(x, actions[0]);
      AfterRoused(x, actions[0]);
      hide After;
      RunRouses(After(x, actions[0]), actions[1..]);
    }
  }

  /** In every interleaving: while checks are queued, some worker has a batch or has been notified
      and will take one, unless no worker is inside. */
  lemma EveryRunRouses(n: nat, nBatchSize: nat, actions: seq<Action>)
    requires n > 0 && CanRun(Fresh(n, nBatchSize), actions)
    ensures var x := Run(Fresh(n, nBatchSize), actions);
            || x.s.queue == []
            || (exists t :: 0 < t < |x.threads| && (x.threads[t].Working? || x.threads[t] == Waiting(true)))
            || (forall t :: 0 < t < |x.threads| ==> x.threads[t].Outside?)
  {
    hide After, Enabled;
    RunRouses(Fresh(n, nBatchSize), actions);
  }

  /** In every interleaving: `nTodo` counts the queued checks and those in unmerged batches,
      `nIdle` and `nTotal` the blocked threads and those inside, every answer that Wait has given
      is whether all checks of its round are true, and as long as nothing has been added since, the
      queue is idle, as the next control asserts. */
  lemma EveryRun(n: nat, nBatchSize: nat, actions: seq<Action>)
    requires n > 0 && CanRun(Fresh(n, nBatchSize), actions)
    ensures var x := Run(Fresh(n, nBatchSize), actions);
            && x.s.nTodo == |x.s.queue| + Sum(HOLDS, x.threads)
            && x.s.nIdle == Sum(WAITS, x.threads) && x.s.nTotal == Sum(INSIDE, x.threads)
            && (forall i :: 0 <= i < |x.answers| ==> (x.answers[i].1 <==> AllTrue(x.answers[i].0)))
            && (x.added == [] ==> x.s.nTotal == x.s.nIdle && x.s.nTodo == 0 && x.s.fAllOk)
  {
    hide After, Enabled;
    var x := Fresh(n, nBatchSize);
    RunKeepsInv(x, actions);
    RunFromRound(x, actions);
    var y := Run(x, actions);
    if y.added == [] { NothingAdded(y); }
  }

  /** When Wait returns, it has given one more answer, which is right, and the queue is idle, so that
      the next control's assertion holds. */
  lemma IdleAfterReturn(x: State, a: Action)
    requires Inv(x) && Enabled(x, a) && (a.Wake? || a.Finish? || a.Start?) && a.t == MASTER
    requires After(x, a).threads[MASTER].Outside?
    ensures var y := After(x, a);
            && y.answers == x.answers + [(x.added, AllTrue(x.added))] && y.added == []
            && y.s.nTotal == y.s.nIdle && y.s.nTodo == 0 && y.s.fAllOk
  {
    hide Sum, Inv, AllTrue;
    AfterKeeps(x, a);
    var y := After(x, a);
    assert y.added == [] && y.s.queue == [] && y.s.nTodo == 0 && y.s.fAllOk;
    Settled(y);
    assert y.answers[|x.answers|].0 == x.added;
    AnswerRight(y, |x.answers|);
  }

  lemma AnswerRight(x: State, i: nat)
    requires Inv(x) && i < |x.answers|
    ensures x.answers[i].1 <==> AllTrue(x.answers[i].0)
  {
  }

  lemma Settled(y: State)
    requires Inv(y) && y.s.queue == [] && y.s.nTodo == 0 && y.s.fAllOk
    ensures IsIdle(y.s)
  {
    forall i | 0 <= i < |y.threads| ensures WAITS(y.threads[i]) == INSIDE(y.threads[i]) {
      SumZero(HOLDS, y.threads, i);
    }
    SumsEqual(WAITS, INSIDE, y.threads);
  }

  lemma {:induction false} SumsEqual(f: Thread -> nat, g: Thread -> nat, threads: seq<Thread>)
    requires forall i :: 0 <= i < |threads| ==> f(threads[i]) == g(threads[i])
    ensures Sum(f, threads) == Sum(g, threads)
  {
    if threads != [] { SumsEqual(f, g, threads[1..]); }
  }

  /** Nor can a worker that enters or wakes up after that take the queue out of its idle state:
      only the master's next Add does. */
  lemma IdleStays(x: State, a: Action)
    requires Inv(x) && IsIdle(x.s) && x.threads[MASTER].Outside? && Enabled(x, a)
    requires !a.Add? && a.t != MASTER
    ensures a.Start? || a.Wake?
    ensures IsIdle(After(x, a).s)
  {
    SumAt(HOLDS, x.threads, a.t);
  }

  /** The workers that are blocked and have not been notified. */
  function Sleeping(threads: seq<Thread>): set<nat> {
    set t: nat | t < |threads| && Sleeps(threads, t)
  }

  /** Two checks or more rouse every worker, one check rouses one, if any sleeps, and no other
      thread is touched. */
  lemma AddRouses(x: State, checks: seq<Check>, chosen: nat)
    requires Inv(x) && Enabled(x, Add(checks, chosen))
    ensures var threads := After(x, Add(checks, chosen)).threads;
            && |threads| == |x.threads|
            && (|checks| == 0 ==> threads == x.threads)
            && (|checks| == 1 ==> Sleeping(threads) == Sleeping(x.threads) - {chosen})
            && (|checks| == 1 && Sleeping(x.threads) != {} ==> chosen in Sleeping(x.threads))
            && (|checks| > 1 ==> Sleeping(threads) == {})
            && (forall t :: 0 <= t < |threads| && threads[t] != x.threads[t] ==>
                  threads[t] == Waiting(true) && Sleeps(x.threads, t))
  {
    hide Inv;
    var threads := NotifyWorkers(x.threads, |checks|, chosen);
    forall t: nat | t < |threads| ensures |checks| == 0 ==> threads[t] == x.threads[t] {
    }
    if |checks| == 1 && Sleeping(x.threads) != {} {
      var t :| t in Sleeping(x.threads);
      assert Sleeps(x.threads, t);
    }
  }

  predicate Roused(threads: seq<Thread>, t: nat) {
    t != MASTER && t < |threads| && (threads[t].Working? || threads[t] == Waiting(true))
  }

  /** While checks are queued, some worker has a batch or has been notified, unless no worker is
      inside. */
  predicate NoOversleeping(x: State) {
    || x.s.queue == []
    || (exists t :: 0 <= t < |x.threads| && Roused(x.threads, t))
    || (forall t :: 0 <= t < |x.threads| && t != MASTER ==> x.threads[t].Outside?)
  }

  /** A worker that goes on while checks are queued takes a batch. */
  lemma ContinueRoused(x: State, t: nat)
    requires t < |x.threads| && x.s.nTotal >= 0 && x.s.nIdle >= 0 && (t == MASTER ==> NoOversleeping(x))
    ensures NoOversleeping(Continue(x, t))
  {
    var y := Continue(x, t);
    if y.s.queue != [] {
      if t != MASTER {
        assert Roused(y.threads, t);
      } else if exists u :: 0 <= u < |x.threads| && Roused(x.threads, u) {
        var u :| 0 <= u < |x.threads| && Roused(x.threads, u);
        assert Roused(y.threads, u);
      }
    }
  }

  lemma AfterRoused(x: State, a: Action)
    requires Inv(x) && Enabled(x, a) && NoOversleeping(x)
    ensures NoOversleeping(After(x, a))
  {
    hide Inv, Continue, NoOversleeping, Finished, NotifyMaster, NotifyWorkers, Enabled;
    AfterParts(x, a);
    match a
    case Start(t) => CountedRoused(x, t, x.s.(nTotal := x.s.nTotal + 1));
    case Wake(t) => CountedRoused(x, t, x.s.(nIdle := x.s.nIdle - 1));
    case RunCheck(t) => RunRoused(x, t);
    case Finish(t) => FinishRoused(x, t);
    case Add(checks, chosen) => AddRoused(x, checks, chosen);
  }

  lemma CountedRoused(x: State, t: nat, s: Shared)
    requires NoOversleeping(x) && t < |x.threads| && s.queue == x.s.queue && s.nTotal >= 0 && s.nIdle >= 0
    ensures NoOversleeping(Continue(x.(s := s), t))
  {
    hide Continue;
    ContinueRoused(x.(s := s), t);
  }

  lemma FinishRoused(x: State, t: nat)
    requires Inv(x) && Enabled(x, Finish(t)) && NoOversleeping(x)
    ensures NoOversleeping(After(x, Finish(t)))
  {
    hide Inv, Continue;
    AfterParts(x, Finish(t));
    var w := x.threads[t];
    ContinueRoused(x.(s := Merge(x.s, |w.batch|, w.fOk), threads := Finished(x, t)), t);
  }

  lemma RunRoused(x: State, t: nat)
    requires Inv(x) && Enabled(x, RunCheck(t)) && NoOversleeping(x)
    ensures NoOversleeping(After(x, RunCheck(t)))
  {
    var us := After(x, RunCheck(t)).threads;
    hide Inv;
    forall u | 0 <= u < |x.threads| && Roused(x.threads, u) ensures Roused(us, u) {
    }
    assert t != MASTER ==> Roused(us, t);
  }

  lemma AddRoused(x: State, checks: seq<Check>, chosen: nat)
    requires Inv(x) && Enabled(x, Add(checks, chosen)) && NoOversleeping(x)
    ensures NoOversleeping(After(x, Add(checks, chosen)))
  {
    var us := NotifyWorkers(x.threads, |checks|, chosen);
    hide Inv;
    forall u | 0 <= u < |x.threads| && Roused(x.threads, u) ensures Roused(us, u) {
    }
    if checks == [] {
      assert us == x.threads && x.s.queue + checks == x.s.queue;
    } else if exists t :: 0 <= t < |x.threads| && t != MASTER && x.threads[t].Waiting? {
      var t :| 0 <= t < |x.threads| && t != MASTER && x.threads[t].Waiting?;
      assert x.threads[t].notified || Sleeps(x.threads, t);
      assert Roused(us, t) || Roused(us, chosen);
    } else if exists t :: 0 <= t < |x.threads| && t != MASTER && x.threads[t].Working? {
      var t :| 0 <= t < |x.threads| && t != MASTER && x.threads[t].Working?;
      assert Roused(us, t);
    }
  }

  /** A blocked master that has not been notified is waiting for somebody: some worker holds
      a batch, and can go on. */
  lemma NoDeadlock(x: State) returns (t: nat)
    requires Inv(x) && x.threads[MASTER] == Waiting(false)
    ensures x.s.nTodo > 0
    ensures t != MASTER && t < |x.threads| && x.threads[t].Working?
    ensures Enabled(x, RunCheck(t)) || Enabled(x, Finish(t))
  {
    t := SumPositive(HOLDS, x.threads);
  }

  /** A master that has been notified returns as soon as it gets the mutex. */
  lemma NotifiedReturns(x: State)
    requires Inv(x) && x.threads[MASTER] == Waiting(true)
    ensures After(x, Wake(MASTER)).threads[MASTER].Outside?
  {
  }

  /** Work still to be done: three units for a queued check, one for a check in a batch that
      has not been run, and one for merging a batch. */
  const LABOUR: Thread -> nat := (t: Thread) => if t.Working? && t.done <= |t.batch| then |t.batch| - t.done + 1 else 0

  function Measure(x: State): nat {
    3 * |x.s.queue| + Sum(LABOUR, x.threads)
  }

  lemma ContinueMeasure(x: State, t: nat)
    requires t < |x.threads| && x.s.nTotal >= 0 && x.s.nIdle >= 0
    ensures var y := Continue(x, t);
            Measure(y) + LABOUR(x.threads[t]) <= Measure(x)
    ensures x.s.queue != [] ==> Measure(Continue(x, t)) + LABOUR(x.threads[t]) < Measure(x)
  {
    var (s, outcome) := Decide(x.s, t == MASTER);
    var w := match outcome case Wait => Waiting(false) case Work(b, ok) => Working(b, 0, ok) case Return(_) => Outside;
    SumUpdate(LABOUR, x.threads, t, w);
  }

  /** Running a check, merging a batch and taking one all use up labour; no other step but
      Add makes more of it, and Add makes three units for each check. So a round is over
      after a bounded number of steps that are not empty wake-ups. */
  lemma MeasureDecreases(x: State, a: Action)
    requires Inv(x) && Enabled(x, a)
    ensures a.RunCheck? || a.Finish? ==> Measure(After(x, a)) < Measure(x)
    ensures a.Start? || a.Wake? ==> Measure(After(x, a)) <= Measure(x)
    ensures (a.Start? || a.Wake?) && x.s.queue != [] ==> Measure(After(x, a)) < Measure(x)
    ensures a.Add? ==> Measure(After(x, a)) == Measure(x) + 3 * |a.checks|
  {
    AfterParts(x, a);
    hide Continue, Inv, Enabled, NotifyMaster, NotifyWorkers, Measure;
    match a
    case Start(t) => StartMeasure(x, t, x.s.(nTotal := x.s.nTotal + 1));
    case Wake(t) => StartMeasure(x, t, x.s.(nIdle := x.s.nIdle - 1));
    case RunCheck(t) => RunMeasure(x, t);
    case Finish(t) => FinishMeasure(x, t);
    case Add(checks, chosen) => AddMeasure(x, checks, chosen);
  }

  lemma StartMeasure(x: State, t: nat, s: Shared)
    requires t < |x.threads| && s.nTotal >= 0 && s.nIdle >= 0 && s.queue == x.s.queue
    ensures Measure(Continue(x.(s := s), t)) <= Measure(x)
    ensures x.s.queue != [] ==> Measure(Continue(x.(s := s), t)) < Measure(x)
  {
    hide Continue;
    ContinueMeasure(x.(s := s), t);
  }

  lemma RunMeasure(x: State, t: nat)
    requires Inv(x) && Enabled(x, RunCheck(t))
    ensures Measure(After(x, RunCheck(t))) < Measure(x)
  {
    hide Inv, Sum;
    var w := x.threads[t];
    SumUpdate(LABOUR, x.threads, t, Working(w.batch, w.done + 1, w.fOk && w.batch[w.done]));
  }

  lemma FinishMeasure(x: State, t: nat)
    requires Inv(x) && Enabled(x, Finish(t))
    ensures Measure(After(x, Finish(t))) < Measure(x)
  {
    AfterParts(x, Finish(t));
    hide Inv, Continue, Sum;
    var w := x.threads[t];
    var s := Merge(x.s, |w.batch|, w.fOk);
    var threads := Finished(x, t);
    SumSame(LABOUR, threads, x.threads);
    ContinueMeasure(x.(s := s, threads := threads), t);
  }

  lemma AddMeasure(x: State, checks: seq<Check>, chosen: nat)
    requires Inv(x) && Enabled(x, Add(checks, chosen))
    ensures Measure(After(x, Add(checks, chosen))) == Measure(x) + 3 * |checks|
  {
    hide Inv, Sum;
    SumSame(LABOUR, NotifyWorkers(x.threads, |checks|, chosen), x.threads);
  }

  function Checks(actions: seq<Action>): nat {
    if actions == [] then 0 else (if actions[0].Add? then |actions[0].checks| else 0) + Checks(actions[1..])
  }

  /** Steps that do something: running a check and merging a batch. */
  function Productive(actions: seq<Action>): nat {
    if actions == [] then 0
    else (if actions[0].RunCheck? || actions[0].Finish? then 1 else 0) + Productive(actions[1..])
  }

  /** A run has at most three productive steps for every check that was added. */
  lemma {:induction false} BoundedWork(x: State, actions: seq<Action>)
    requires Inv(x) && CanRun(x, actions)
    ensures Measure(Run(x, actions)) + Productive(actions) <= Measure(x) + 3 * Checks(actions)
    decreases |actions|
  {
    hide Inv, Enabled, Measure;
    if actions != [] {
      MeasureDecreases(x, actions[0]);
      AfterKeeps(x, actions[0]);
      hide After;
      BoundedWork(After(x, actions[0]), actions[1..]);
    }
  }

  lemma {:induction false} AllProductive(actions: seq<Action>)
    requires forall i :: 0 <= i < |actions| ==> actions[i].RunCheck? || actions[i].Finish?
    ensures Productive(actions) == |actions| && Checks(actions) == 0
  {
    if actions != [] { AllProductive(actions[1..]); }
  }

  /** So threads cannot go on working forever: without new checks, running and merging end after as
      many steps as the measure says. */
  lemma WorkEnds(x: State, actions: seq<Action>)
    requires Inv(x) && CanRun(x, actions)
    requires forall i :: 0 <= i < |actions| ==> actions[i].RunCheck? || actions[i].Finish?
    ensures |actions| <= Measure(x)
  {
    hide Inv, CanRun, Measure;
    AllProductive(actions);
    BoundedWork(x, actions);
  }
}
