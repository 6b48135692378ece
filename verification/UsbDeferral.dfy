/** When a map upload in the client's hand is ended, put back or handed on, and that one put back can still start. */
module UsbDeferral {
  import opened UsbScheduling
  import opened UsbRequests

  // ---- One dispatch ------------------------------------------------------------------------

  /** Some accessport that is not being closed is in use. */
  ghost predicate InUse(slots: seq<Slot>) {
    exists i :: 0 <= i < |slots| && slots[i].handle != 0 && slots[i].isAccessport && slots[i].scanning && slots[i].action != Close
  }

  /** Some eligible device is free. */
  ghost predicate FreeDevice(slots: seq<Slot>) {
    exists i :: i in Eligible(slots) && !slots[i].scanning
  }

  /**
   * A dispatch ends an upload exactly when a conflict is latched, the number of eligible devices is not one, a free
   * device has no room in its queue, or no device is free and either none is in use or there is no room to put it back.
   * Otherwise it goes to the device, or to the end of the queue it came from.
   */
  lemma DispatchEndsIff(s: State, id: nat)
    requires s.client == Holding(Upload(id))
    ensures var t := Apply(s, DispatchControl);
            && t.client == ClientIdle && t.latched == s.latched
            && (t.finished == s.finished + [id] <==>
                 || s.latched || |Eligible(s.slots)| != 1
                 || (FreeDevice(s.slots) && |s.transactions| >= QUEUE_DEPTH)
                 || (!FreeDevice(s.slots) && (!InUse(s.slots) || |s.control| >= QUEUE_DEPTH)))
            && (t.finished != s.finished + [id] ==> t.finished == s.finished)
            && (t.finished == s.finished ==>
                  if FreeDevice(s.slots) then t.control == s.control && |t.transactions| == |s.transactions| + 1
                  else t == s.(client := ClientIdle, control := s.control + [Upload(id)]))
  {
    hide Eligible;
    var i := FirstUsable(s.slots, 0);
    CountedIsEligible(s.slots);
    assert FreeDevice(s.slots) <==> i < |s.slots|;
    assert Busy(s.slots) <==> InUse(s.slots);
    assert s.finished != s.finished + [id];
  }

  lemma CountedIsEligible(slots: seq<Slot>)
    ensures forall i :: i in Eligible(slots) <==> 0 <= i < |slots| && Counts(slots[i])
  {
  }

  // ---- Eligible devices are accessports -----------------------------------------------------

  predicate Unscanned(s: State, w: Work) {
    w.slot < |s.slots| && !s.slots[w.slot].eligible
  }

  /** A device is marked only after it was found to be an accessport, and its scan comes before. */
  ghost predicate Recognised(s: State) {
    && (forall i | 0 <= i < |s.slots| && s.slots[i].eligible :: s.slots[i].isAccessport)
    && (s.descriptor.Described? ==>
          s.descriptor.work.slot < |s.slots| && s.slots[s.descriptor.work.slot].isAccessport)
    && (forall w | w in s.scanRequests :: Unscanned(s, w))
    && (s.descriptor.Scanning? ==> Unscanned(s, s.descriptor.work))
  }

  lemma ScanOwner(s: State, w: Work)
    requires Exclusive(s) && (w in s.scanRequests || w in InScan(s.descriptor))
    ensures w.slot < |s.slots| && s.slots[w.slot].scanning && s.slots[w.slot].handle != 0
  {
    hide AllWork;
    ScanIsWork(s, w);
    OwnerHasHandle(s, w);
  }

  lemma ScanIsWork(s: State, w: Work)
    requires w in s.scanRequests || w in InScan(s.descriptor)
    ensures w in AllWork(s)
  {
  }

  lemma HandAndQueue(s: State, v: Work, w: Work)
    requires WorkSound(s) && v in s.scanRequests && w in InScan(s.descriptor)
    ensures v.slot != w.slot
  {
    hide AllWork;
    ScanIsWork(s, v);
    ScanIsWork(s, w);
    TwiceInWork(s, v);
  }

  lemma TwiceInWork(s: State, w: Work)
    requires w in s.scanRequests
    ensures w in InScan(s.descriptor) ==> AllWork(s)[w] >= 2
  {
  }

  /** Steps that leave slots, scan requests and the descriptor's hand as they are, but for marks of use. */
  predicate KeepsMarks(s: State, t: State) {
    && |t.slots| == |s.slots| && t.scanRequests == s.scanRequests && t.descriptor == s.descriptor
    && forall i | 0 <= i < |s.slots| :: t.slots[i].eligible == s.slots[i].eligible && t.slots[i].isAccessport == s.slots[i].isAccessport
  }

  lemma MarksKeepRecognised(s: State, t: State)
    requires Recognised(s) && KeepsMarks(s, t)
    ensures Recognised(t)
  {
  }

  lemma DispatchKeepsMarks(s: State)
    requires s.client.Holding?
    ensures KeepsMarks(s, ApplyDispatch(s, s.client.request))
  {
    hide Eligible, Busy, Finish;
    FinishKeepsTheRest();
  }

  lemma QuietStepKeepsMarks(s: State, step: Step)
    requires Enabled(s, step)
    requires step.CloseClear? || step.DeviceGone? || step.CollectScan? || step.CollectTransaction? || step.TakeControl?
             || step.TakeTransaction? || step.CheckTransaction? || step.CheckCount? || step.StartTransaction?
             || step.FinishTransaction? || step.ReportTransaction? || step.Request?
    ensures KeepsMarks(s, Apply(s, step))
  {
    hide Eligible, Busy, Finish, Refuses;
    FinishKeepsTheRest();
  }

  /** One slot changes that no scan refers to, and its new device is not yet known. */
  lemma FreshSlotKeepsRecognised(s: State, t: State, i: nat)
    requires Exclusive(s) && Recognised(s) && i < |s.slots| && !s.slots[i].scanning
    requires |t.slots| == |s.slots| && t.slots == s.slots[i := t.slots[i]] && !t.slots[i].eligible
    requires t.descriptor == s.descriptor
    requires forall w | w in t.scanRequests :: w in s.scanRequests || w.slot == i
    ensures Recognised(t)
  {
    hide AllWork, WorkSound, SlotsSound;
    if s.descriptor.Described? || s.descriptor.Scanning? {
      ScanOwner(s, s.descriptor.work);
    }
    forall w | w in t.scanRequests
      ensures Unscanned(t, w)
    {
      if w in s.scanRequests {
        ScanOwner(s, w);
      }
    }
  }

  lemma SlotStepKeepsRecognised(s: State, step: Step)
    requires Exclusive(s) && Recognised(s) && Enabled(s, step)
    requires step.NewDevice? || step.OpenDevice? || step.CloseBegin? || step.CloseFinish?
    ensures Recognised(Apply(s, step))
  {
    hide AllWork, Eligible, WorkSound, Recognised;
    var t := Apply(s, step);
    var i := if step.NewDevice? || step.OpenDevice? || step.CloseBegin? then step.i else s.client.slot;
    assert step.CloseFinish? ==> UnderClose(s.client, i);
    FreshSlotKeepsRecognised(s, t, i);
  }

  lemma MarkKeepsRecognised(s: State)
    requires Exclusive(s) && Recognised(s) && Enabled(s, MarkEligible)
    ensures Recognised(Apply(s, MarkEligible))
  {
    hide AllWork, SlotsSound, WorkSound;
    var t := Apply(s, MarkEligible);
    forall w | w in t.scanRequests
      ensures Unscanned(t, w)
    {
      HandAndQueue(s, w, s.descriptor.work);
    }
  }

  lemma ScanStepKeepsRecognised(s: State, step: Step)
    requires Exclusive(s) && Recognised(s) && Enabled(s, step)
    requires step.TakeScan? || step.Describe? || step.RejectScan? || step.CountDevices? || step.CountAgain?
             || step.SetLatch? || step.ReportScan?
    ensures Recognised(Apply(s, step))
  {
    hide Exclusive, Eligible;
    var t := Apply(s, step);
    assert forall w | w in t.scanRequests :: w in s.scanRequests;
    assert step.TakeScan? ==> s.scanRequests[0] in s.scanRequests;
    forall w | w in t.scanRequests
      ensures Unscanned(t, w)
    {
      assert Unscanned(s, w);
    }
  }

  lemma StepKeepsRecognised(s: State, step: Step)
    requires Exclusive(s) && Recognised(s) && Enabled(s, step)
    ensures Recognised(Apply(s, step))
  {
    hide Apply, Exclusive, Recognised, KeepsMarks;
    if step.NewDevice? || step.OpenDevice? || step.CloseBegin? || step.CloseFinish? {
      SlotStepKeepsRecognised(s, step);
    } else if step.TakeScan? || step.Describe? || step.RejectScan? || step.CountDevices? || step.CountAgain?
              || step.SetLatch? || step.ReportScan? {
      ScanStepKeepsRecognised(s, step);
    } else if step.MarkEligible? {
      MarkKeepsRecognised(s);
    } else {
      if step.DispatchControl? {
        DispatchIsApply(s);
        DispatchKeepsMarks(s);
      } else {
        QuietStepKeepsMarks(s, step);
      }
      MarksKeepRecognised(s, Apply(s, step));
    }
  }

  lemma {:induction false} RunKeepsRecognised(s: State, steps: seq<Step>, t: State)
    requires Sound(s) && Recognised(s) && Runs(s, steps, t)
    ensures Sound(t) && Recognised(t)
    decreases |steps|
  {
    hide Apply, Enabled, Recognised, Exclusive, TwoLatch, Conserved, StartedOnce, TransactionsMarked;
    if steps != [] {
      StepKeepsSound(s, steps[0]);
      StepKeepsRecognised(s, steps[0]);
      RunKeepsRecognised(Apply(s, steps[0]), steps[1..], t);
    }
  }

  lemma ReachedSound(steps: seq<Step>, s: State)
    requires Runs(START, steps, s)
    ensures Sound(s) && Recognised(s)
  {
    hide Sound;
    StartSound();
    RunKeepsRecognised(START, steps, s);
  }

  // ---- A dispatch without conflict -----------------------------------------------------------

  /**
   * After any interleaving, with no conflict latched and one eligible device, an upload in hand is not ended unless a
   * queue is full: it goes to that device if it is free, and waits behind the others if it is in use.
   */
  lemma DeferredWhileInUse(steps: seq<Step>, s: State, i: nat, id: nat)
    requires Runs(START, steps, s)
    requires s.client == Holding(Upload(id)) && !s.latched && Eligible(s.slots) == {i}
    ensures i < |s.slots|
    ensures Apply(s, DispatchControl) ==
            var d := s.slots[i];
            var idle := s.(client := ClientIdle);
            if d.scanning then
              if |s.control| < QUEUE_DEPTH then idle.(control := s.control + [Upload(id)])
              else idle.(finished := s.finished + [id])
            else if |s.transactions| < QUEUE_DEPTH then
              idle.(slots := s.slots[i := d.(scanning := true)],
                    transactions := s.transactions + [Work(i, d.handle, d.generation, Transaction(Upload(id)))])
            else idle.(finished := s.finished + [id])
  {
    hide Runs, Sound;
    ReachedSound(steps, s);
    DispatchToOne(s, i, Upload(id));
  }

  lemma DispatchToOne(s: State, i: nat, kind: RequestKind)
    requires Recognised(s) && s.client == Holding(kind) && !s.latched && Eligible(s.slots) == {i}
    ensures i < |s.slots| && s.slots[i].handle != 0
    ensures Apply(s, DispatchControl) ==
            var idle := s.(client := ClientIdle);
            if s.slots[i].scanning then
              if kind != Identity && |s.control| < QUEUE_DEPTH then idle.(control := s.control + [kind]) else Finish(idle, kind)
            else if |s.transactions| < QUEUE_DEPTH then
              idle.(slots := s.slots[i := s.slots[i].(scanning := true)],
                    transactions := s.transactions + [Work(i, s.slots[i].handle, s.slots[i].generation, Transaction(kind))])
            else Finish(idle, kind)
  {
    hide Finish;
    CountedIsEligible(s.slots);
    assert i in Eligible(s.slots);
    var first := FirstUsable(s.slots, 0);
    if first < |s.slots| {
      assert first in Eligible(s.slots);
    }
    assert s.slots[i].scanning ==> Busy(s.slots);
  }

  // ---- What was put back can start -------------------------------------------------------------

  /** A transaction refers to this device: it waits, is being worked on, or is to be collected. */
  predicate InTransit(s: State, w: Work) {
    w in s.transactions || w in InTransaction(s.transactor) || w in s.transactionResults
  }

  /** One eligible device, no conflict, nothing in the client's hand, and the device free but for a transaction. */
  ghost predicate Serving(s: State, i: nat) {
    && Sound(s) && Recognised(s) && !s.latched && s.client == ClientIdle && Eligible(s.slots) == {i} && i < |s.slots|
    && (s.slots[i].scanning ==> exists w :: InTransit(s, w) && w.slot == i)
  }

  predicate Drained(s: State) {
    s.transactions == [] && s.transactionResults == [] && s.transactor == TransactorIdle
  }

  /** The next thing to do about a transaction under way. */
  function DrainStep(s: State): Step {
    if s.transactionResults != [] then CollectTransaction
    else match s.transactor
         case TransactorIdle => TakeTransaction
         case Taken(_) => CheckTransaction
         case Counting(_) => CheckCount
         case Ready(_) => StartTransaction
         case Running(_) => FinishTransaction
         case Ended(_) => ReportTransaction
  }

  function Rank(s: State): nat {
    7 * |s.transactions| + |s.transactionResults| + Stage(s.transactor)
  }

  /** How far a transaction in hand is from its end. */
  function Stage(t: Transactor): nat {
    match t
    case TransactorIdle => 0
    case Ended(_) => 2
    case Running(_) => 3
    case Ready(_) => 4
    case Counting(_) => 5
    case Taken(_) => 6
  }

  lemma TransitIsWork(s: State, w: Work)
    requires InTransit(s, w)
    ensures w in AllWork(s)
  {
  }

  lemma TransitOwner(s: State, w: Work)
    requires Exclusive(s) && InTransit(s, w)
    ensures Owns(s, w)
  {
    hide AllWork;
    TransitIsWork(s, w);
    OwnerHasHandle(s, w);
  }

  lemma DrainEnabled(s: State)
    requires Exclusive(s) && s.client == ClientIdle && !Drained(s)
    ensures Enabled(s, DrainStep(s))
  {
    hide AllWork, WorkSound, SlotsSound, Exclusive;
    if s.transactionResults != [] {
      TransitOwner(s, s.transactionResults[0]);
    } else if s.transactor.Taken? {
      TransitOwner(s, s.transactor.work);
    }
  }

  /** Collecting frees the device of the first result and leaves the rest. */
  lemma CollectEffect(s: State, w: Work)
    requires s.client == ClientIdle && s.transactionResults != [] && w == s.transactionResults[0] && Owns(s, w)
    ensures Enabled(s, CollectTransaction)
    ensures Apply(s, CollectTransaction) ==
            s.(slots := s.slots[w.slot := s.slots[w.slot].(scanning := false)], transactionResults := s.transactionResults[1..])
  {
  }

  /** A transaction is taken up, goes one stage on, or is reported. */
  predicate TransactionMoves(s: State, t: State) {
    || (s.transactions != [] && t.transactions == s.transactions[1..] && t.transactionResults == s.transactionResults
        && s.transactor == TransactorIdle && t.transactor == Taken(s.transactions[0]))
    || (t.transactions == s.transactions && t.transactionResults == s.transactionResults
        && InTransaction(t.transactor) == InTransaction(s.transactor) && Stage(t.transactor) < Stage(s.transactor))
    || (t.transactions == s.transactions && s.transactor.Ended? && t.transactor == TransactorIdle
        && t.transactionResults == s.transactionResults + [s.transactor.work])
  }

  /** Nothing but the transaction task's part of the state changes. */
  predicate OnlyTransactions(s: State, t: State) {
    t.slots == s.slots && t.control == s.control && t.client == s.client && t.latched == s.latched
  }

  /** The transaction task goes on, and the device stays as it is. */
  lemma QueueEffect(s: State, step: Step)
    requires Enabled(s, step) && (step.TakeTransaction? || step.ReportTransaction?)
    ensures var t := Apply(s, step); OnlyTransactions(s, t) && TransactionMoves(s, t)
  {
    hide Eligible, Finish, Refuses, ApplyDispatch, ApplyOpen, ApplyCollect, Busy;
  }

  lemma StageEffect(s: State, step: Step)
    requires Enabled(s, step)
    requires step.CheckTransaction? || step.CheckCount? || step.StartTransaction? || step.FinishTransaction?
    ensures var t := Apply(s, step); OnlyTransactions(s, t) && TransactionMoves(s, t)
  {
    hide Eligible, Finish, Refuses, ApplyDispatch, ApplyOpen, ApplyCollect, Busy;
    FinishKeepsTheRest();
  }

  lemma DrainEffect(s: State)
    requires s.transactionResults == [] && Enabled(s, DrainStep(s))
    ensures var t := Apply(s, DrainStep(s)); OnlyTransactions(s, t) && TransactionMoves(s, t)
  {
    hide Apply, Enabled, OnlyTransactions, TransactionMoves;
    var step := DrainStep(s);
    if step.TakeTransaction? || step.ReportTransaction? {
      QueueEffect(s, step);
    } else {
      StageEffect(s, step);
    }
  }

  lemma MovesRank(s: State, t: State)
    requires TransactionMoves(s, t)
    ensures Rank(t) < Rank(s)
  {
  }

  lemma MovesKeepTransit(s: State, t: State, w: Work)
    requires TransactionMoves(s, t) && InTransit(s, w)
    ensures InTransit(t, w)
  {
    if w in t.transactionResults || w in s.transactionResults || w in InTransaction(s.transactor) {
    } else {
      assert s.transactions != [] ==> s.transactions == [s.transactions[0]] + s.transactions[1..];
    }
  }

  lemma CollectKeepsTransit(s: State, t: State, w: Work)
    requires s.transactionResults != [] && t.transactionResults == s.transactionResults[1..]
    requires t.transactions == s.transactions && t.transactor == s.transactor
    requires InTransit(s, w) && w != s.transactionResults[0]
    ensures InTransit(t, w)
  {
  }

  lemma CollectRanks(s: State, t: State)
    requires s.transactionResults != [] && t.transactionResults == s.transactionResults[1..]
    requires t.transactions == s.transactions && t.transactor == s.transactor
    ensures Rank(t) < Rank(s)
  {
  }

  lemma UseDoesNotCount(slots: seq<Slot>, i: nat, scanning: bool)
    requires i < |slots|
    ensures Eligible(slots[i := slots[i].(scanning := scanning)]) == Eligible(slots)
  {
  }

  lemma CollectOne(s: State, i: nat)
    requires Serving(s, i) && s.transactionResults != []
    ensures Enabled(s, CollectTransaction)
    ensures var t := Apply(s, CollectTransaction); Serving(t, i) && t.control == s.control && Rank(t) < Rank(s)
  {
    hide Apply, Enabled, Eligible, Exclusive, TwoLatch, Conserved, StartedOnce, TransactionsMarked, Recognised, Rank, InTransit;
    var done := s.transactionResults[0];
    HeadInTransit(s);
    TransitOwner(s, done);
    CollectEffect(s, done);
    var t := Apply(s, CollectTransaction);
    UseDoesNotCount(s.slots, done.slot, false);
    CollectRanks(s, t);
    StepKeepsSound(s, CollectTransaction);
    StepKeepsRecognised(s, CollectTransaction);
    if t.slots[i].scanning {
      var w :| InTransit(s, w) && w.slot == i;
      CollectKeepsTransit(s, t, w);
    }
  }

  lemma DrainOne(s: State, i: nat)
    requires Serving(s, i) && !Drained(s)
    ensures Enabled(s, DrainStep(s))
    ensures var t := Apply(s, DrainStep(s)); Serving(t, i) && t.control == s.control && Rank(t) < Rank(s)
  {
    hide Apply, Enabled, Eligible, Exclusive, TwoLatch, Conserved, StartedOnce, TransactionsMarked, Recognised, Rank, InTransit, Drained, DrainStep,
         TransactionMoves;
    if s.transactionResults != [] {
      CollectFirst(s);
      CollectOne(s, i);
    } else {
      DrainEnabled(s);
      var t := Apply(s, DrainStep(s));
      DrainEffect(s);
      MovesRank(s, t);
      StepKeepsSound(s, DrainStep(s));
      StepKeepsRecognised(s, DrainStep(s));
      if t.slots[i].scanning {
        var w :| InTransit(s, w) && w.slot == i;
        MovesKeepTransit(s, t, w);
      }
    }
  }

  lemma CollectFirst(s: State)
    requires s.transactionResults != []
    ensures DrainStep(s) == CollectTransaction
  {
  }

  lemma HeadInTransit(s: State)
    requires s.transactionResults != []
    ensures InTransit(s, s.transactionResults[0])
  {
  }

  /** All transactions under way come to their end, and the device is free. */
  lemma {:induction false} Drain(s: State, i: nat) returns (steps: seq<Step>, t: State)
    requires Serving(s, i)
    ensures Runs(s, steps, t) && Serving(t, i) && Drained(t) && !t.slots[i].scanning && t.control == s.control
    decreases Rank(s)
  {
    hide Apply, Enabled, Rank, Sound, Recognised, DrainStep;
    if Drained(s) {
      steps, t := [], s;
    } else {
      DrainOne(s, i);
      var m := Apply(s, DrainStep(s));
      steps, t := Drain(m, i);
      steps := [DrainStep(s)] + steps;
    }
  }

  /** The head of the queue goes to the free device. */
  lemma DispatchHead(s: State, i: nat) returns (t: State)
    requires Serving(s, i) && Drained(s) && !s.slots[i].scanning && s.control != []
    ensures Runs(s, [TakeControl, DispatchControl], t) && Serving(t, i) && t.control == s.control[1..]
    ensures t.transactor == TransactorIdle && t.slots[i].handle != 0
    ensures t.transactions == [Work(i, t.slots[i].handle, t.slots[i].generation, Transaction(s.control[0]))]
  {
    hide Eligible, Exclusive, TwoLatch, Conserved, StartedOnce, TransactionsMarked, Recognised, ApplyDispatch;
    var m := Apply(s, TakeControl);
    StepKeepsSound(s, TakeControl);
    StepKeepsRecognised(s, TakeControl);
    DispatchToOne(m, i, s.control[0]);
    t := Apply(m, DispatchControl);
    StepKeepsSound(m, DispatchControl);
    StepKeepsRecognised(m, DispatchControl);
    UseDoesNotCount(s.slots, i, true);
    TwoSteps(s, TakeControl, DispatchControl);
    assert InTransit(t, t.transactions[0]);
  }

  lemma TwoSteps(s: State, first: Step, second: Step)
    requires Enabled(s, first) && Enabled(Apply(s, first), second)
    ensures Runs(s, [first, second], Apply(Apply(s, first), second))
  {
    hide Apply, Enabled;
    var m := Apply(s, first);
    assert [first, second][1..] == [second] && [second][1..] == [];
    assert Runs(Apply(m, second), [], Apply(m, second));
  }

  /** An upload handed to the one device passes its check and starts. */
  lemma StartsAlone(s: State, i: nat, id: nat) returns (steps: seq<Step>, t: State)
    requires Serving(s, i) && s.transactor == TransactorIdle
    requires s.transactions == [Work(i, s.slots[i].handle, s.slots[i].generation, Transaction(Upload(id)))]
    ensures Runs(s, steps, t) && Sound(t) && t.transactor.Running? && KindOf(t.transactor.work) == Upload(id)
    ensures t.running == s.running + [id]
  {
    hide Finish, Runs;
    OneEligible(s.slots, i);
    hide Eligible, Recognised;
    var w := s.transactions[0];
    var b := TakenAndChecked(s, w);
    t := CountedAndStarted(b, w, id);
    steps := [TakeTransaction, CheckTransaction] + [CheckCount, StartTransaction];
    RunsJoin(s, [TakeTransaction, CheckTransaction], b, [CheckCount, StartTransaction], t);
    RunKeepsSound(s, steps, t);
  }

  lemma TakenAndChecked(s: State, w: Work) returns (b: State)
    requires s.transactor == TransactorIdle && s.transactions == [w] && WorkInRange(s, w) && !Refuses(s, w)
    ensures Runs(s, [TakeTransaction, CheckTransaction], b)
    ensures b == s.(transactions := [], transactor := Counting(w))
  {
    hide Finish, Eligible, Refuses, Runs;
    var a := Apply(s, TakeTransaction);
    b := Apply(a, CheckTransaction);
    RefusesAlike(s, a, w);
    TwoSteps(s, TakeTransaction, CheckTransaction);
  }

  lemma RefusesAlike(s: State, a: State, w: Work)
    requires WorkInRange(s, w) && a.slots == s.slots && a.latched == s.latched
    ensures WorkInRange(a, w) && Refuses(a, w) == Refuses(s, w)
  {
  }

  lemma CountedAndStarted(b: State, w: Work, id: nat) returns (t: State)
    requires b.transactor == Counting(w) && |Eligible(b.slots)| == 1 && KindOf(w) == Upload(id)
    ensures Runs(b, [CheckCount, StartTransaction], t)
    ensures t == b.(transactor := Running(w), running := b.running + [id])
  {
    hide Finish, Eligible, Runs;
    t := Apply(Apply(b, CheckCount), StartTransaction);
    TwoSteps(b, CheckCount, StartTransaction);
  }

  lemma OneEligible(slots: seq<Slot>, i: nat)
    requires Eligible(slots) == {i}
    ensures |Eligible(slots)| == 1 && i < |slots| && slots[i].eligible
  {
    assert i in Eligible(slots);
  }

  /** A request anywhere in the queue gets its turn. */
  lemma {:induction false} QueuedStarts(s: State, i: nat, id: nat) returns (steps: seq<Step>, t: State)
    requires Serving(s, i) && Upload(id) in s.control
    ensures Runs(s, steps, t) && Sound(t) && t.transactor.Running? && KindOf(t.transactor.work) == Upload(id)
    ensures |t.running| > 0 && t.running[|t.running| - 1] == id
    decreases |s.control|
  {
    hide Apply, Enabled, Serving, Sound, Drained, Runs;
    var first, m := Drain(s, i);
    var n := DispatchHead(m, i);
    RunsJoin(s, first, m, [TakeControl, DispatchControl], n);
    var rest;
    if s.control[0] == Upload(id) {
      rest, t := StartsAlone(n, i, id);
    } else {
      rest, t := QueuedStarts(n, i, id);
    }
    RunsJoin(s, first + [TakeControl, DispatchControl], n, rest, t);
    steps := first + [TakeControl, DispatchControl] + rest;
  }

  /**
   * An upload that comes to hand while the one eligible device is in use by a transaction is put back, and can still
   * start, once and not yet ended, when those before it have been served.
   */
  lemma DeferredCanStart(before: seq<Step>, s: State, i: nat, id: nat, w: Work) returns (steps: seq<Step>, t: State)
    requires Runs(START, before, s)
    requires s.client == Holding(Upload(id)) && !s.latched && Eligible(s.slots) == {i} && |s.control| < QUEUE_DEPTH
    requires InTransit(s, w) && w.slot == i
    ensures Runs(s, [DispatchControl] + steps, t)
    ensures t.transactor.Running? && KindOf(t.transactor.work) == Upload(id)
    ensures Times(t.running, id) == 1 && Times(t.finished, id) == 0
  {
    hide Runs, Sound, Apply, Enabled, Eligible, InTransit, Recognised, Times;
    ReachedSound(before, s);
    var m := PutBack(before, s, i, id, w);
    steps, t := QueuedStarts(m, i, id);
    RunsJoin(s, [DispatchControl], m, steps, t);
    RunningOnce(t, id);
  }

  lemma PutBack(before: seq<Step>, s: State, i: nat, id: nat, w: Work) returns (m: State)
    requires Runs(START, before, s)
    requires s.client == Holding(Upload(id)) && !s.latched && Eligible(s.slots) == {i} && |s.control| < QUEUE_DEPTH
    requires InTransit(s, w) && w.slot == i
    ensures Runs(s, [DispatchControl], m) && Serving(m, i) && Upload(id) in m.control
  {
    hide Eligible, Conserved, StartedOnce, TransactionsMarked, TwoLatch, Exclusive, ApplyDispatch, Recognised;
    ReachedSound(before, s);
    TransitOwner(s, w);
    DeferredWhileInUse(before, s, i, id);
    m := Apply(s, DispatchControl);
    StepKeepsSound(s, DispatchControl);
    StepKeepsRecognised(s, DispatchControl);
    assert [DispatchControl][1..] == [];
    assert Runs(m, [], m);
    assert m.control[|s.control|] == Upload(id);
    assert InTransit(m, w);
  }

  lemma RunningOnce(t: State, id: nat)
    requires Sound(t) && t.transactor.Running? && KindOf(t.transactor.work) == Upload(id)
    requires |t.running| > 0 && t.running[|t.running| - 1] == id
    ensures Times(t.running, id) == 1 && Times(t.finished, id) == 0
  {
    hide Exclusive, TransactionsMarked, TwoLatch;
    RunningNotFinished(t, id);
    var front := t.running[..|t.running| - 1];
    assert t.running == front + [id];
    TimesSnoc(front, id, id);
  }
}
