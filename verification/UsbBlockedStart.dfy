/** Exactly when an upload still starts although a conflict is latched. */
module UsbBlockedStart {
  import opened UsbScheduling
  import opened UsbRequests

  /** A run in which no close sees all devices gone. */
  ghost predicate BlockedRun(s: State, steps: seq<Step>, t: State) {
    Runs(s, steps, t) && NoEmptyClose(s, steps)
  }

  ghost predicate MayStart(s: State) {
    exists steps, t :: BlockedRun(s, steps, t) && t.running != s.running
  }

  /** While the count is still to be made, some device is eligible, now or later. */
  ghost predicate MayCount(s: State) {
    exists steps, t :: BlockedRun(s, steps, t) && t.transactor == s.transactor && Eligible(t.slots) != {}
  }

  // ---- Runs without an empty close ---------------------------------------------------------

  lemma {:induction false} BlockedJoin(s: State, first: seq<Step>, m: State, second: seq<Step>, t: State)
    requires BlockedRun(s, first, m) && BlockedRun(m, second, t)
    ensures BlockedRun(s, first + second, t)
    decreases |first|
  {
    hide Apply, Enabled, Eligible;
    if first == [] {
      assert first + second == second;
    } else {
      BlockedJoin(Apply(s, first[0]), first[1..], m, second, t);
      assert (first + second)[1..] == first[1..] + second;
    }
  }

  lemma BlockedOne(s: State, step: Step)
    requires Enabled(s, step) && !(step.CloseClear? && Eligible(s.slots) == {})
    ensures BlockedRun(s, [step], Apply(s, step))
  {
    hide Apply, Enabled, Eligible;
    var t := Apply(s, step);
    assert Runs(t, [], t) && NoEmptyClose(t, []);
    assert [step][1..] == [];
  }

  lemma BlockedNone(s: State)
    ensures BlockedRun(s, [], s)
  {
  }

  // ---- The slot that is never used ----------------------------------------------------------

  predicate ZeroFree(s: State) {
    |s.slots| > 0 && s.slots[0] == EMPTY
  }

  lemma WorkAvoidsZero(s: State, w: Work)
    requires Exclusive(s) && ZeroFree(s) && w in AllWork(s)
    ensures w.slot > 0
  {
    hide AllWork;
    OwnerHasHandle(s, w);
  }

  lemma StepKeepsZero(s: State, step: Step)
    requires Exclusive(s) && ZeroFree(s) && Enabled(s, step)
    ensures ZeroFree(Apply(s, step))
  {
    hide AllWork, Eligible, Busy, Refuses, ApplyDispatch, WorkSound;
    FinishKeepsTheRest();
    match step {
      case DispatchControl =>
        DispatchKeepsZero(s);
      case CollectScan =>
        ResultIsWork(s, s.scanResults[0]);
        WorkAvoidsZero(s, s.scanResults[0]);
      case CollectTransaction =>
        ResultIsWork(s, s.transactionResults[0]);
        WorkAvoidsZero(s, s.transactionResults[0]);
      case Describe(_) =>
        InHandIsWork(s, s.descriptor.work);
        WorkAvoidsZero(s, s.descriptor.work);
      case MarkEligible =>
        InHandIsWork(s, s.descriptor.work);
        WorkAvoidsZero(s, s.descriptor.work);
      case _ =>
    }
  }

  lemma ResultIsWork(s: State, w: Work)
    requires w in s.scanResults || w in s.transactionResults
    ensures w in AllWork(s)
  {
  }

  lemma DispatchKeepsZero(s: State)
    requires ZeroFree(s) && s.client.Holding?
    ensures ZeroFree(ApplyDispatch(s, s.client.request))
  {
    hide Eligible, Busy, Finish;
    FinishKeepsTheRest();
  }

  lemma {:induction false} RunKeepsZero(s: State, steps: seq<Step>, t: State)
    requires Sound(s) && ZeroFree(s) && Runs(s, steps, t)
    ensures Sound(t) && ZeroFree(t)
    decreases |steps|
  {
    hide Apply, Enabled, ZeroFree, Exclusive, TwoLatch, Conserved, StartedOnce, TransactionsMarked;
    if steps != [] {
      StepKeepsSound(s, steps[0]);
      StepKeepsZero(s, steps[0]);
      RunKeepsZero(Apply(s, steps[0]), steps[1..], t);
    }
  }

  // ---- From several devices to one --------------------------------------------------------------

  /** The client's part of the state is done with, and devices and latch are as they were. */
  predicate Settled(s: State, t: State) {
    && t.client == ClientIdle && t.transactor == s.transactor && t.running == s.running
    && Eligible(t.slots) == Eligible(s.slots) && |t.slots| == |s.slots|
  }

  lemma ClientSettles(s: State) returns (steps: seq<Step>, t: State)
    requires SlotsSound(s) && s.latched && Eligible(s.slots) != {}
    ensures BlockedRun(s, steps, t) && Settled(s, t)
  {
    hide Eligible, Busy, Refuses;
    FinishKeepsTheRest();
    match s.client {
      case ClientIdle =>
        BlockedNone(s);
        steps, t := [], s;
      case Holding(_) =>
        BlockedOne(s, DispatchControl);
        steps, t := [DispatchControl], Apply(s, DispatchControl);
      case Closing(_) =>
        BlockedOne(s, CloseClear);
        var m := Apply(s, CloseClear);
        t := CloseEnds(m);
        BlockedJoin(s, [CloseClear], m, [CloseFinish], t);
        steps := [CloseClear] + [CloseFinish];
      case Cleared(_) =>
        t := CloseEnds(s);
        steps := [CloseFinish];
    }
  }

  lemma CloseEnds(s: State) returns (t: State)
    requires s.client.Cleared? && s.client.slot < |s.slots| && !s.slots[s.client.slot].eligible
    ensures BlockedRun(s, [CloseFinish], t) && Settled(s, t)
  {
    EligibleAfterUpdate(s.slots, s.client.slot, EMPTY);
    hide Eligible;
    t := Apply(s, CloseFinish);
    assert Eligible(s.slots) - {s.client.slot} == Eligible(s.slots);
    BlockedOne(s, CloseFinish);
  }

  /** Devices may go until one is left. */
  lemma {:induction false} DropToOne(s: State) returns (steps: seq<Step>, t: State)
    requires s.client == ClientIdle && Eligible(s.slots) != {} && 0 !in Eligible(s.slots)
    ensures BlockedRun(s, steps, t) && t.transactor == s.transactor && t.running == s.running && |Eligible(t.slots)| == 1
    decreases |Eligible(s.slots)|
  {
    var i :| i in Eligible(s.slots);
    if |Eligible(s.slots)| == 1 {
      BlockedNone(s);
      steps, t := [], s;
    } else {
      EligibleAfterUpdate(s.slots, i, s.slots[i].(action := Close));
      hide Eligible;
      BlockedOne(s, DeviceGone(i));
      var m := Apply(s, DeviceGone(i));
      assert Eligible(m.slots) == Eligible(s.slots) - {i};
      assert |Eligible(m.slots)| == |Eligible(s.slots)| - 1;
      steps, t := DropToOne(m);
      BlockedJoin(s, [DeviceGone(i)], m, steps, t);
      steps := [DeviceGone(i)] + steps;
    }
  }

  /** From one device on, an upload that is still to be counted starts. */
  lemma CountAndStart(s: State)
    requires s.transactor.Counting? && KindOf(s.transactor.work).Upload? && |Eligible(s.slots)| == 1
    ensures MayStart(s)
  {
    hide Eligible;
    var m := Apply(s, CheckCount);
    var t := Apply(m, StartTransaction);
    BlockedOne(s, CheckCount);
    BlockedOne(m, StartTransaction);
    BlockedJoin(s, [CheckCount], m, [StartTransaction], t);
    assert |t.running| == |s.running| + 1;
  }

  lemma StartFrom(s: State, steps: seq<Step>, m: State)
    requires BlockedRun(s, steps, m) && m.running == s.running && MayStart(m)
    ensures MayStart(s)
  {
    hide BlockedRun;
    var more, t :| BlockedRun(m, more, t) && t.running != m.running;
    BlockedJoin(s, steps, m, more, t);
  }

  lemma NoneAtZero(s: State)
    requires ZeroFree(s)
    ensures 0 !in Eligible(s.slots)
  {
  }

  lemma CountingStarts(s: State)
    requires Sound(s) && ZeroFree(s) && s.latched && Eligible(s.slots) != {}
    requires s.transactor.Counting? && KindOf(s.transactor.work).Upload?
    ensures MayStart(s)
  {
    NoneAtZero(s);
    hide Eligible, MayStart, BlockedRun, Conserved, StartedOnce, TransactionsMarked, TwoLatch, WorkSound;
    var first, m := ClientSettles(s);
    var second, t := DropToOne(m);
    CountAndStart(t);
    StartFrom(m, second, t);
    StartFrom(s, first, m);
  }

  // ---- What a start needs -----------------------------------------------------------------------

  lemma OtherStepsLeaveCount(s: State, step: Step)
    requires Enabled(s, step) && s.transactor.Counting? && !step.CheckCount?
    ensures Apply(s, step).transactor == s.transactor && Apply(s, step).running == s.running
  {
    hide Eligible, Busy, Refuses, Finish;
    FinishKeepsTheRest();
  }

  lemma CountRefuses(s: State)
    requires s.transactor.Counting? && |Eligible(s.slots)| != 1
    ensures Enabled(s, CheckCount)
    ensures Waiting(Apply(s, CheckCount).transactor) == [] && Apply(s, CheckCount).running == s.running
  {
    hide Eligible, Finish;
    FinishKeepsTheRest();
  }

  lemma {:induction false} StartNeedsCount(s: State, steps: seq<Step>, t: State)
    requires s.latched && s.transactor.Counting? && BlockedRun(s, steps, t) && t.running != s.running
    ensures MayCount(s)
    decreases |steps|
  {
    hide Apply, Enabled, Eligible, MayCount;
    if steps != [] {
      var step := steps[0];
      var m := Apply(s, step);
      LatchStep(s, step);
      if step.CheckCount? {
        if |Eligible(s.slots)| == 1 {
          CountsNow(s);
        } else {
          CountRefuses(s);
          BlockedMeansNothingStarts(m, steps[1..], t);
          assert false;
        }
      } else {
        OtherStepsLeaveCount(s, step);
        StartNeedsCount(m, steps[1..], t);
        CountsLater(s, step);
      }
    }
  }

  lemma CountsNow(s: State)
    requires Eligible(s.slots) != {}
    ensures MayCount(s)
  {
    hide Eligible;
    BlockedNone(s);
  }

  lemma CountsLater(s: State, step: Step)
    requires Enabled(s, step) && !(step.CloseClear? && Eligible(s.slots) == {})
    requires Apply(s, step).transactor == s.transactor && MayCount(Apply(s, step))
    ensures MayCount(s)
  {
    hide Apply, Enabled, Eligible, BlockedRun;
    var m := Apply(s, step);
    var more, t :| BlockedRun(m, more, t) && t.transactor == m.transactor && Eligible(t.slots) != {};
    BlockedOne(s, step);
    BlockedJoin(s, [step], m, more, t);
  }

  lemma ReadyStarts(s: State)
    requires s.transactor.Ready? && KindOf(s.transactor.work).Upload?
    ensures MayStart(s)
  {
    hide Eligible;
    BlockedOne(s, StartTransaction);
    assert |Apply(s, StartTransaction).running| == |s.running| + 1;
  }

  lemma CountingSomewhere(s: State)
    requires Sound(s) && ZeroFree(s) && s.latched && s.transactor.Counting? && KindOf(s.transactor.work).Upload? && MayCount(s)
    ensures MayStart(s)
  {
    hide Eligible, Sound, ZeroFree, MayStart;
    var steps, m :| BlockedRun(s, steps, m) && m.transactor == s.transactor && Eligible(m.slots) != {};
    RunKeepsZero(s, steps, m);
    LatchClearsOnlyAtEmptyClose(s, steps, m);
    BlockedMeansNothingStarts(s, steps, m);
    if m.running == s.running {
      CountingStarts(m);
      StartFrom(s, steps, m);
    } else {
      StartedAlready(s, steps, m);
    }
  }

  lemma StartedAlready(s: State, steps: seq<Step>, m: State)
    requires BlockedRun(s, steps, m) && m.running != s.running
    ensures MayStart(s)
  {
    hide BlockedRun;
  }

  /**
   * After any interleaving that leaves a conflict latched: an upload may still start before all devices are gone,
   * exactly when one is past the look at the latch, and either has its count behind it or will find a device eligible.
   * With a device eligible now, the latter is so.
   */
  lemma StillStartsIff(before: seq<Step>, s: State)
    requires Runs(START, before, s) && s.latched
    ensures MayStart(s) <==> Waiting(s.transactor) != [] && (s.transactor.Ready? || MayCount(s))
    ensures Eligible(s.slots) != {} ==> MayCount(s)
  {
    hide Runs, Eligible, MayCount, Sound;
    StartSound();
    StartZeroFree();
    RunKeepsZero(START, before, s);
    if Eligible(s.slots) != {} {
      CountsNow(s);
    }
    if MayStart(s) {
      NeedsWaiting(s);
    } else if Waiting(s.transactor) != [] {
      if s.transactor.Ready? {
        ReadyStarts(s);
      } else if MayCount(s) {
        CountingSomewhere(s);
      }
    }
  }

  lemma NeedsWaiting(s: State)
    requires s.latched && MayStart(s)
    ensures Waiting(s.transactor) != [] && (s.transactor.Ready? || MayCount(s))
  {
    hide Eligible, MayCount, Runs, NoEmptyClose;
    var steps, t :| BlockedRun(s, steps, t) && t.running != s.running;
    BlockedMeansNothingStarts(s, steps, t);
    if s.transactor.Counting? {
      StartNeedsCount(s, steps, t);
    }
  }

  lemma StartZeroFree()
    ensures ZeroFree(START)
  {
  }
}
