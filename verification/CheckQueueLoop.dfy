/** CCheckQueue of src/checkqueue.h as an object: each method is one critical section, or the
    work between two of them, and does what the state machine says that step does. */
module CheckQueueLoop {
  import opened Arith
  import opened CheckQueue

  class CCheckQueue {
    var queue: seq<Check>
    var nIdle: int
    var nTotal: int
    var fAllOk: bool
    var nTodo: int
    const nBatchSize: nat

    function S(): Shared
      reads this
    {
      Shared(queue, nIdle, nTotal, fAllOk, nTodo, nBatchSize)
    }

    constructor (nBatchSizeIn: nat)
      ensures S() == Fresh(1, nBatchSizeIn).s
      ensures CheckQueue.IsIdle(S())
    {
      queue, nIdle, nTotal, fAllOk, nTodo := [], 0, 0, true, 0;
      nBatchSize := nBatchSizeIn;
    }

    /** `wake` is how many workers are notified: none, one, or (for 2) all. That is whom the step
        of the state machine rouses. */
    method Add(vChecks: seq<Check>) returns (wake: nat)
      modifies this
      ensures S() == Push(old(S()), vChecks)
      ensures wake == Min(|vChecks|, 2)
      ensures forall x: State, chosen: nat ::
                Inv(x) && x.s == old(S()) && Enabled(x, Action.Add(vChecks, chosen)) ==>
                  var y := After(x, Action.Add(vChecks, chosen));
                  && y.s == S()
                  && Sleeping(y.threads) == match wake
                                            case 0 => Sleeping(x.threads)
                                            case 1 => Sleeping(x.threads) - {chosen}
                                            case _ => {}
    {
      hide Inv;
      forall x: State, chosen: nat | Inv(x) && x.s == S() && Enabled(x, Action.Add(vChecks, chosen))
        ensures var y := After(x, Action.Add(vChecks, chosen));
                && y.s == Push(S(), vChecks)
                && Sleeping(y.threads) == match Min(|vChecks|, 2)
                                          case 0 => Sleeping(x.threads)
                                          case 1 => Sleeping(x.threads) - {chosen}
                                          case _ => {}
      {
        AddRouses(x, vChecks, chosen);
      }
      hide After, Sleeping, Enabled;
      for i := 0 to |vChecks|
        invariant queue == old(queue) + vChecks[..i]
        invariant nIdle == old(nIdle) && nTotal == old(nTotal) && fAllOk == old(fAllOk) && nTodo == old(nTodo)
      {
        queue := queue + [vChecks[i]];
      }
      nTodo := nTodo + |vChecks|;
      wake := if |vChecks| == 1 then 1 else if |vChecks| > 1 then 2 else 0;
    }

    /** The head of the critical section: the batch of the previous round of the loop is
        merged; a thread that has none yet is counted. */
    method CleanUp(nNow: nat, fOk: bool, fMaster: bool) returns (notifyMaster: bool)
      modifies this
      ensures S() == if nNow > 0 then Merge(old(S()), nNow, fOk) else old(S()).(nTotal := old(nTotal) + 1)
      ensures notifyMaster <==> nNow > 0 && old(nTodo) == nNow && !fMaster
    {
      notifyMaster := false;
      if nNow > 0 {
        fAllOk := fAllOk && fOk;
        nTodo := nTodo - nNow;
        if nTodo == 0 && !fMaster { notifyMaster := true; }
      } else {
        nTotal := nTotal + 1;
      }
    }

    /** From the test of the inner loop to the end of the critical section, or to the wait. */
    method Next(fMaster: bool) returns (outcome: Outcome)
      requires nTotal >= 0 && nIdle >= 0
      modifies this
      ensures (S(), outcome) == Decide(old(S()), fMaster)
    {
      if queue == [] {
        if fMaster && nTodo == 0 {
          nTotal := nTotal - 1;
          outcome := Return(fAllOk);
          if fMaster { fAllOk := true; }
        } else {
          nIdle := nIdle + 1;
          outcome := Wait;
        }
        return;
      }
      var nNow := Max(1, Min(nBatchSize, Share(|queue|, nTotal + nIdle + 1)));
      assert nNow == BatchCount(S());
      var vChecks := TakeBack(nNow);
      outcome := Work(vChecks, fAllOk);
    }

    /** Moves checks from the end of the queue to a batch. */
    method TakeBack(nNow: nat) returns (vChecks: seq<Check>)
      requires nNow <= |queue|
      modifies this`queue
      ensures queue == old(queue)[..|old(queue)| - nNow]
      ensures vChecks == Reverse(old(queue)[|old(queue)| - nNow..])
    {
      vChecks := [];
      for i := 0 to nNow
        invariant queue == old(queue)[..|old(queue)| - i]
        invariant |vChecks| == i && forall k :: 0 <= k < i ==> vChecks[k] == old(queue)[|old(queue)| - 1 - k]
      {
        vChecks := vChecks + [queue[|queue| - 1]];
        queue := queue[..|queue| - 1];
      }
    }

    /** A thread that waited has the mutex again. */
    method Woken()
      modifies this
      ensures S() == old(S()).(nIdle := old(nIdle) - 1)
    {
      nIdle := nIdle - 1;
    }

    method IsIdle() returns (idle: bool)
      ensures idle <==> nTotal == nIdle && nTodo == 0 && fAllOk
    {
      idle := nTotal == nIdle && nTodo == 0 && fAllOk;
    }

    /** A Wait that no worker comes to help: it works through the whole queue alone and
        leaves the queue idle. */
    method WaitAlone() returns (fRet: bool)
      requires nTotal == nIdle >= 0 && nTodo == |queue|
      modifies this
      ensures fRet <==> old(fAllOk) && AllTrue(old(queue))
      ensures CheckQueue.IsIdle(S()) && queue == [] && nTotal == old(nTotal)
    {
      var nNow, fOk := 0, true;
      ghost var first := true;
      while true
        invariant first ==> nNow == 0 && S() == old(S()) && fOk
        invariant !first ==> nNow > 0 && nTotal == old(nTotal) + 1
        invariant nIdle == old(nIdle) && nTodo == |queue| + nNow
        invariant old(fAllOk) && AllTrue(old(queue)) <==> fAllOk && fOk && AllTrue(queue)
        decreases |queue|, first
      {
        var _ := CleanUp(nNow, fOk, true);
        label before:
        assert old(fAllOk) && AllTrue(old(queue)) <==> fAllOk && AllTrue(queue);
        var outcome := Next(true);
        match outcome
        case Return(result) => return result;
        case Wait => assert false; return false;
        case Work(batch, ok) =>
          TakenPasses(old@before(queue), |queue|, ok);
          assert batch[0..] == batch;
          nNow := |batch|;
          fOk := RunBatch(batch, ok);
          first := false;
      }
    }
  }

  /** Outside the critical section: checks are run until one fails. */
  method RunBatch(vChecks: seq<Check>, fAllOk: bool) returns (fOk: bool)
    ensures fOk <==> fAllOk && AllTrue(vChecks)
  {
    fOk := fAllOk;
    for i := 0 to |vChecks|
      invariant fOk <==> fAllOk && AllTrue(vChecks[..i])
    {
      assert vChecks[..i + 1] == vChecks[..i] + [vChecks[i]];
      AllTrueJoin(vChecks[..i], [vChecks[i]]);
      if fOk { fOk := vChecks[i]; }
    }
    assert vChecks[..|vChecks|] == vChecks;
  }
}
