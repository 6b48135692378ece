/** Over every interleaving: the device invariants, and one end for every accepted map upload. */
module UsbRequests {
  import opened UsbScheduling

  // ---- Where an upload request is ----------------------------------------------------------

  function One(kind: RequestKind, id: nat): nat {
    if kind == Upload(id) then 1 else 0
  }

  function Queued(q: seq<RequestKind>, id: nat): nat {
    if q == [] then 0 else One(q[0], id) + Queued(q[1..], id)
  }

  function Assigned(q: seq<Work>, id: nat): nat {
    if q == [] then 0 else One(KindOf(q[0]), id) + Assigned(q[1..], id)
  }

  function Times(log: seq<nat>, id: nat): nat {
    if log == [] then 0 else (if log[0] == id then 1 else 0) + Times(log[1..], id)
  }

  /** In the client's hand, or in the transaction task's while it has not ended. */
  function InHands(s: State, id: nat): nat {
    (match s.client
     case Holding(kind) => One(kind, id)
     case _ => 0)
    + match s.transactor
      case Taken(w) => One(KindOf(w), id)
      case Counting(w) => One(KindOf(w), id)
      case Ready(w) => One(KindOf(w), id)
      case Running(w) => One(KindOf(w), id)
      case _ => 0
  }

  /** All the places where a request waits or runs. */
  function Places(s: State, id: nat): nat {
    Queued(s.control, id) + Assigned(s.transactions, id) + InHands(s, id)
  }

  /** An accepted upload is in exactly one place or has been reported as ended exactly once; others occur nowhere. */
  ghost predicate Conserved(s: State) {
    forall id :: Places(s, id) + Times(s.finished, id) == if id in s.accepted then 1 else 0
  }

  /** No upload is started twice, and one that was started is either running still or has ended. */
  ghost predicate StartedOnce(s: State) {
    forall id :: Times(s.running, id) <= 1
                 && (Times(s.running, id) == 1 ==>
                       (s.transactor.Running? && KindOf(s.transactor.work) == Upload(id)) || Times(s.finished, id) == 1)
  }

  lemma {:induction false} QueuedSnoc(q: seq<RequestKind>, kind: RequestKind, id: nat)
    ensures Queued(q + [kind], id) == Queued(q, id) + One(kind, id)
  {
    if q == [] {
      assert q + [kind] == [kind];
    } else {
      QueuedSnoc(q[1..], kind, id);
      assert (q + [kind])[1..] == q[1..] + [kind];
    }
  }

  lemma {:induction false} AssignedSnoc(q: seq<Work>, w: Work, id: nat)
    ensures Assigned(q + [w], id) == Assigned(q, id) + One(KindOf(w), id)
  {
    if q == [] {
      assert q + [w] == [w];
    } else {
      AssignedSnoc(q[1..], w, id);
      assert (q + [w])[1..] == q[1..] + [w];
    }
  }

  lemma {:induction false} TimesSnoc(log: seq<nat>, x: nat, id: nat)
    ensures Times(log + [x], id) == Times(log, id) + if x == id then 1 else 0
  {
    if log == [] {
      assert log + [x] == [x];
    } else {
      TimesSnoc(log[1..], x, id);
      assert (log + [x])[1..] == log[1..] + [x];
    }
  }

  lemma FinishCounts(s: State, kind: RequestKind, id: nat)
    ensures Times(Finish(s, kind).finished, id) == Times(s.finished, id) + One(kind, id)
  {
    if kind.Upload? {
      TimesSnoc(s.finished, kind.id, id);
    }
  }

  /** A request in hand goes to one queue or another, or is finished. */
  lemma DispatchCounts(s: State, id: nat)
    requires s.client.Holding?
    ensures var t := ApplyDispatch(s, s.client.request);
            Places(t, id) + Times(t.finished, id) == Places(s, id) + Times(s.finished, id)
    ensures ApplyDispatch(s, s.client.request).accepted == s.accepted
  {
    hide Eligible, Busy, Finish, Queued, Assigned, Times, One;
    var kind := s.client.request;
    var idle := s.(client := ClientIdle);
    FinishCounts(idle, kind, id);
    FinishKeeps(idle, kind);
    QueuedSnoc(s.control, kind, id);
    var i := FirstUsable(s.slots, 0);
    if i < |s.slots| {
      AssignedSnoc(s.transactions, Work(i, s.slots[i].handle, s.slots[i].generation, Transaction(kind)), id);
    }
  }

  lemma FinishKeeps(s: State, kind: RequestKind)
    ensures Finish(s, kind) == s.(finished := Finish(s, kind).finished)
  {
  }

  /** The other steps that touch requests. */
  lemma RequestStepCounts(s: State, step: Step, id: nat)
    requires Enabled(s, step)
    requires step.TakeControl? || step.TakeTransaction? || step.CheckTransaction? || step.CheckCount? || step.StartTransaction?
             || step.FinishTransaction? || step.ReportTransaction?
    ensures var t := Apply(s, step);
            Places(t, id) + Times(t.finished, id) == Places(s, id) + Times(s.finished, id) && t.accepted == s.accepted
  {
    hide Eligible, Finish, Times, One;
    if step.CheckTransaction? || step.CheckCount? {
      FinishCounts(s.(transactor := Ended(s.transactor.work)), KindOf(s.transactor.work), id);
      FinishKeeps(s.(transactor := Ended(s.transactor.work)), KindOf(s.transactor.work));
    } else if step.FinishTransaction? {
      FinishCounts(s.(transactor := Ended(s.transactor.work)), KindOf(s.transactor.work), id);
      FinishKeeps(s.(transactor := Ended(s.transactor.work)), KindOf(s.transactor.work));
    }
  }

  predicate TouchesRequests(step: Step) {
    step.TakeControl? || step.DispatchControl? || step.TakeTransaction? || step.CheckTransaction? || step.CheckCount?
    || step.StartTransaction? || step.FinishTransaction? || step.ReportTransaction? || step.Request?
  }

  /** Steps about devices leave every request where it is. */
  lemma DeviceStepLeavesRequests(s: State, step: Step)
    requires Enabled(s, step) && !TouchesRequests(step)
    ensures var t := Apply(s, step);
            && t.control == s.control && t.transactions == s.transactions && t.transactor == s.transactor
            && t.accepted == s.accepted && t.running == s.running && t.finished == s.finished
            && (t.client == s.client || (!t.client.Holding? && !s.client.Holding?))
  {
    hide Eligible, Finish, Busy;
  }

  lemma StepConserves(s: State, step: Step)
    requires Conserved(s) && Enabled(s, step)
    ensures Conserved(Apply(s, step))
  {
    hide Apply, Places, Times, Enabled;
    var t := Apply(s, step);
    forall id
      ensures Places(t, id) + Times(t.finished, id) == if id in t.accepted then 1 else 0
    {
      if !TouchesRequests(step) {
        DeviceStepLeavesRequests(s, step);
        SamePlaces(s, t, id);
      } else if step.DispatchControl? {
        DispatchIsApply(s);
        DispatchCounts(s, id);
      } else if step.Request? {
        RequestCounts(s, step.kind, id);
      } else {
        RequestStepCounts(s, step, id);
      }
    }
  }

  lemma SamePlaces(s: State, t: State, id: nat)
    requires t.control == s.control && t.transactions == s.transactions && t.transactor == s.transactor
    requires t.client == s.client || (!t.client.Holding? && !s.client.Holding?)
    ensures Places(t, id) == Places(s, id)
  {
  }

  lemma DispatchIsApply(s: State)
    requires Enabled(s, DispatchControl)
    ensures s.client.Holding? && Apply(s, DispatchControl) == ApplyDispatch(s, s.client.request)
  {
    hide ApplyDispatch;
  }

  lemma RequestCounts(s: State, kind: RequestKind, id: nat)
    requires Enabled(s, Request(kind))
    ensures var t := Apply(s, Request(kind));
            && Places(t, id) == Places(s, id) + One(kind, id) && t.finished == s.finished
            && t.accepted == (if kind.Upload? then s.accepted + {kind.id} else s.accepted)
            && (kind.Upload? ==> kind.id !in s.accepted)
  {
    hide Queued, Assigned;
    QueuedSnoc(s.control, kind, id);
  }

  /** An upload about to start is in hand, so by conservation it has not ended and was not started before. */
  lemma StepStartsOnce(s: State, step: Step)
    requires Conserved(s) && StartedOnce(s) && Enabled(s, step)
    ensures StartedOnce(Apply(s, step))
  {
    hide Apply, Times, Enabled, Conserved;
    var t := Apply(s, step);
    if !TouchesRequests(step) {
      DeviceStepLeavesRequests(s, step);
    } else if step.CheckTransaction? || step.CheckCount? {
      CheckStartsOnce(s, step);
    } else if step.StartTransaction? {
      StartStartsOnce(s);
    } else if step.FinishTransaction? {
      FinishEndsOnce(s);
    } else if step.DispatchControl? {
      DispatchIsApply(s);
      DispatchNoStart(s);
    } else {
      NoStart(s, step);
    }
  }

  lemma NoStart(s: State, step: Step)
    requires Enabled(s, step) && (step.TakeControl? || step.TakeTransaction? || step.ReportTransaction? || step.Request?)
    ensures Apply(s, step).running == s.running && Apply(s, step).finished == s.finished
    ensures s.transactor.Running? ==> Apply(s, step).transactor == s.transactor
  {
    hide Eligible;
  }

  lemma DispatchNoStart(s: State)
    requires s.client.Holding? && Conserved(s) && StartedOnce(s)
    ensures StartedOnce(ApplyDispatch(s, s.client.request))
  {
    hide Eligible, Busy, Finish, Times, Places;
    var t := ApplyDispatch(s, s.client.request);
    FinishKeeps(s.(client := ClientIdle), s.client.request);
    forall id
      ensures Times(s.running, id) == 1 && Times(s.finished, id) == 1 ==> Times(t.finished, id) == 1
    {
      FinishCounts(s.(client := ClientIdle), s.client.request, id);
      HeldNotFinished(s, id);
    }
  }

  lemma HeldNotFinished(s: State, id: nat)
    requires s.client.Holding? && Conserved(s)
    ensures Times(s.finished, id) == 1 ==> One(s.client.request, id) == 0
  {
    assert Places(s, id) + Times(s.finished, id) <= 1;
  }

  lemma CheckStartsOnce(s: State, step: Step)
    requires Conserved(s) && StartedOnce(s) && Enabled(s, step) && (step.CheckTransaction? || step.CheckCount?)
    ensures StartedOnce(Apply(s, step))
  {
    hide Eligible, Finish, Times, Places, Refuses;
    var t := Apply(s, step);
    var w := s.transactor.work;
    FinishKeeps(s.(transactor := Ended(w)), KindOf(w));
    forall id
      ensures Times(s.running, id) == 1 && Times(s.finished, id) == 1 ==> Times(t.finished, id) == 1
    {
      FinishCounts(s.(transactor := Ended(w)), KindOf(w), id);
      HandedNotFinished(s, id);
    }
  }

  lemma StartStartsOnce(s: State)
    requires Conserved(s) && StartedOnce(s) && Enabled(s, StartTransaction)
    ensures StartedOnce(Apply(s, StartTransaction))
  {
    hide Times, Places;
    var t := Apply(s, StartTransaction);
    var w := s.transactor.work;
    forall id
      ensures Times(t.running, id) <= 1
      ensures Times(t.running, id) == 1 ==>
                (t.transactor.Running? && KindOf(t.transactor.work) == Upload(id)) || Times(t.finished, id) == 1
    {
      HandedNotFinished(s, id);
      if KindOf(w).Upload? {
        TimesSnoc(s.running, KindOf(w).id, id);
      }
    }
  }

  lemma HandedNotFinished(s: State, id: nat)
    requires (s.transactor.Taken? || s.transactor.Counting? || s.transactor.Ready?) && Conserved(s)
    ensures KindOf(s.transactor.work) == Upload(id) ==> Times(s.finished, id) == 0
    ensures Times(s.finished, id) == 1 ==> One(KindOf(s.transactor.work), id) == 0
  {
    assert Places(s, id) + Times(s.finished, id) <= 1;
  }

  lemma FinishEndsOnce(s: State)
    requires Conserved(s) && StartedOnce(s) && Enabled(s, FinishTransaction)
    ensures StartedOnce(Apply(s, FinishTransaction))
  {
    hide Finish, Times, Places;
    var w := s.transactor.work;
    FinishKeeps(s.(transactor := Ended(w)), KindOf(w));
    forall id
      ensures Times(s.running, id) == 1 ==> Times(Apply(s, FinishTransaction).finished, id) == 1
    {
      FinishCounts(s.(transactor := Ended(w)), KindOf(w), id);
      RunningNotFinished(s, id);
    }
  }

  lemma RunningNotFinished(s: State, id: nat)
    requires s.transactor.Running? && Conserved(s)
    ensures Times(s.finished, id) == 1 ==> One(KindOf(s.transactor.work), id) == 0
    ensures KindOf(s.transactor.work) == Upload(id) ==> Times(s.finished, id) == 0
  {
    assert Places(s, id) + Times(s.finished, id) <= 1;
  }

  // ---- From the check to the end of a transaction ----------------------------------------------

  /** The work that has passed the check and has not ended. */
  predicate Passed(t: Transactor, w: Work) {
    t == Ready(w) || t == Running(w)
  }

  /** The work that has passed the look at the latch. */
  predicate Unblocked(t: Transactor, w: Work) {
    t == Counting(w) || Passed(t, w)
  }

  predicate InTransactions(s: State, w: Work) {
    w in s.transactions || w in InTransaction(s.transactor)
  }

  /** The device of a transaction is still marked as eligible. */
  ghost predicate TransactionsMarked(s: State) {
    forall w | InTransactions(s, w) :: w.slot < |s.slots| && s.slots[w.slot].eligible
  }

  /** A slot in use keeps its mark. */
  lemma InUseKeepsMark(s: State, step: Step, i: nat)
    requires SlotsSound(s) && Enabled(s, step) && i < |s.slots| && s.slots[i].scanning && s.slots[i].eligible
    ensures i < |Apply(s, step).slots| && Apply(s, step).slots[i].eligible
  {
    hide Eligible, Busy, Refuses, ApplyDispatch;
    if step.DispatchControl? {
      var _ := DispatchSlots(s, s.client.request);
    }
  }

  lemma TransactionIsWork(s: State, w: Work)
    requires InTransactions(s, w)
    ensures w in AllWork(s)
  {
  }

  /** A transaction is new only when it is dispatched, to a device that counts. */
  lemma NewTransactionMarked(s: State, step: Step, w: Work)
    requires Enabled(s, step) && InTransactions(Apply(s, step), w) && !InTransactions(s, w)
    ensures step.DispatchControl? && w.slot < |s.slots| && Apply(s, step).slots == s.slots[w.slot := s.slots[w.slot].(scanning := true)]
    ensures s.slots[w.slot].eligible
  {
    hide Eligible, Busy, Finish, Refuses;
    FinishKeepsTheRest();
  }

  lemma FinishKeepsTheRest()
    ensures forall u: State, kind {:trigger Finish(u, kind)} :: Finish(u, kind) == u.(finished := Finish(u, kind).finished)
  {
  }

  lemma StepKeepsMarked(s: State, step: Step)
    requires Exclusive(s) && TransactionsMarked(s) && Enabled(s, step)
    ensures TransactionsMarked(Apply(s, step))
  {
    hide AllWork, Apply, Enabled, WorkSound, SlotsSound, InTransactions;
    var t := Apply(s, step);
    forall w | InTransactions(t, w)
      ensures w.slot < |t.slots| && t.slots[w.slot].eligible
    {
      if InTransactions(s, w) {
        TransactionIsWork(s, w);
        OwnerHasHandle(s, w);
        InUseKeepsMark(s, step, w.slot);
      } else {
        NewTransactionMarked(s, step, w);
      }
    }
  }

  /** Only the look at the latch lets work go on to the count, and only with no conflict latched. */
  lemma UnblockedByCheck(s: State, step: Step, w: Work)
    requires Enabled(s, step) && Unblocked(Apply(s, step).transactor, w) && !Unblocked(s.transactor, w)
    ensures step.CheckTransaction? && s.transactor == Taken(w) && !s.latched
  {
    hide Eligible, Busy, Finish;
    FinishKeepsTheRest();
  }

  /** Only the count lets work pass, and only with one eligible device. */
  lemma PassedByCount(s: State, step: Step, w: Work)
    requires Enabled(s, step) && Passed(Apply(s, step).transactor, w) && !Passed(s.transactor, w)
    ensures step.CheckCount? && s.transactor == Counting(w) && |Eligible(s.slots)| == 1
  {
    hide Eligible, Busy, Finish;
    FinishKeepsTheRest();
  }

  // ---- Every interleaving --------------------------------------------------------------------

  ghost predicate Sound(s: State) {
    Exclusive(s) && TwoLatch(s) && Conserved(s) && StartedOnce(s) && TransactionsMarked(s)
  }

  lemma StartSound()
    ensures Sound(START)
  {
    StartExclusive();
    assert Eligible(START.slots) == {};
  }

  lemma StepKeepsSound(s: State, step: Step)
    requires Sound(s) && Enabled(s, step)
    ensures Sound(Apply(s, step))
  {
    hide Apply, Enabled, Conserved, StartedOnce, TwoLatch, TransactionsMarked, SlotsSound, WorkSound;
    StepKeepsExclusive(s, step);
    StepKeepsTwoLatch(s, step);
    StepKeepsMarked(s, step);
    StepConserves(s, step);
    StepStartsOnce(s, step);
  }

  lemma {:induction false} RunKeepsSound(s: State, steps: seq<Step>, t: State)
    requires Sound(s) && Runs(s, steps, t)
    ensures Sound(t)
    decreases |steps|
  {
    hide Sound, Apply, Enabled;
    if steps != [] {
      StepKeepsSound(s, steps[0]);
      RunKeepsSound(Apply(s, steps[0]), steps[1..], t);
    }
  }

  /**
   * After any interleaving, an accepted upload waits or runs in exactly one place and has not been reported ended, or
   * it is in no place and has been reported ended exactly once; and it was started at most once.
   */
  lemma EveryUploadEndsOnce(steps: seq<Step>, t: State, id: nat)
    requires Runs(START, steps, t) && id in t.accepted
    ensures (Places(t, id) == 1 && Times(t.finished, id) == 0) || (Places(t, id) == 0 && Times(t.finished, id) == 1)
    ensures Times(t.running, id) <= 1
  {
    hide Runs;
    StartSound();
    RunKeepsSound(START, steps, t);
  }

  /**
   * After any interleaving, a device with work anywhere in flight still has the handle and the generation it was
   * taken on with, nobody else works on it, and it is not being closed.
   */
  lemma DevicesInUseStayOpen(steps: seq<Step>, t: State, w: Work)
    requires Runs(START, steps, t) && w in AllWork(t)
    ensures Owns(t, w) && AllWork(t)[w] == 1 && !UnderClose(t.client, w.slot)
    ensures forall v | v in AllWork(t) && v.slot == w.slot :: v == w
  {
    hide Runs, AllWork;
    StartSound();
    RunKeepsSound(START, steps, t);
  }

  /** So the transaction task's own check for a stale handle or generation never fires. */
  lemma StaleCheckNeverFires(steps: seq<Step>, t: State)
    requires Runs(START, steps, t) && t.transactor.Taken?
    ensures var w := t.transactor.work;
            w.slot < |t.slots| && t.slots[w.slot].handle == w.handle && t.slots[w.slot].generation == w.generation
  {
    hide Runs, AllWork;
    InHandIsWork(t, t.transactor.work);
    DevicesInUseStayOpen(steps, t, t.transactor.work);
  }

  /** After any interleaving two eligible devices imply the latch, but for the moment between marking one and latching. */
  lemma TwoDevicesLatch(steps: seq<Step>, t: State)
    requires Runs(START, steps, t)
    ensures |Eligible(t.slots)| >= 2 ==> t.latched || Marking(t.descriptor)
  {
    hide Runs, Eligible;
    StartSound();
    RunKeepsSound(START, steps, t);
  }

  /** The steps the descriptor task has still to take, by itself, before its scan is over. */
  function RestOfMarking(d: Descriptor): seq<Step> {
    match d
    case Marked(_) => [CountDevices, CountAgain, SetLatch]
    case Conflicting(_) => [CountAgain, SetLatch]
    case Latching(_) => [SetLatch]
    case _ => []
  }

  /** That moment ends: while two devices stay, at most three steps of the descriptor task set the latch. */
  lemma MarkingLatches(steps: seq<Step>, s: State) returns (t: State)
    requires Runs(START, steps, s) && |Eligible(s.slots)| >= 2
    ensures Runs(s, RestOfMarking(s.descriptor), t) && t.latched && t.slots == s.slots && !Marking(t.descriptor)
  {
    TwoDevicesLatch(steps, s);
    t := MarkingEnds(s);
  }

  lemma MarkingEnds(s: State) returns (t: State)
    requires |Eligible(s.slots)| >= 2 && (s.latched || Marking(s.descriptor))
    ensures Runs(s, RestOfMarking(s.descriptor), t) && t.latched && t.slots == s.slots && !Marking(t.descriptor)
    decreases if s.descriptor.Marked? then 2 else if s.descriptor.Conflicting? then 1 else 0
  {
    hide Eligible, Busy, Refuses;
    if !Marking(s.descriptor) {
      t := s;
    } else if s.descriptor.Latching? {
      t := Apply(s, SetLatch);
      assert Runs(t, [], t);
    } else {
      var next := if s.descriptor.Marked? then CountDevices else CountAgain;
      var m := Apply(s, next);
      t := MarkingEnds(m);
      assert RestOfMarking(s.descriptor)[1..] == RestOfMarking(m.descriptor);
    }
  }

  /** No close along the run sees all devices gone. */
  ghost predicate NoEmptyClose(s: State, steps: seq<Step>)
    decreases |steps|
  {
    steps == []
    || (Enabled(s, steps[0]) && !(steps[0].CloseClear? && Eligible(s.slots) == {}) && NoEmptyClose(Apply(s, steps[0]), steps[1..]))
  }

  lemma LatchStep(s: State, step: Step)
    requires Enabled(s, step) && s.latched
    ensures Apply(s, step).latched <==> !(step.CloseClear? && Eligible(s.slots) == {})
  {
    hide Eligible, Busy, Refuses;
  }

  /** From a set latch on, the latch is let go only by a close that sees all devices gone. */
  lemma {:induction false} LatchClearsOnlyAtEmptyClose(s: State, steps: seq<Step>, t: State)
    requires s.latched && Runs(s, steps, t) && NoEmptyClose(s, steps)
    ensures t.latched
    decreases |steps|
  {
    hide Apply, Enabled, Eligible;
    if steps != [] {
      LatchStep(s, steps[0]);
      LatchClearsOnlyAtEmptyClose(Apply(s, steps[0]), steps[1..], t);
    }
  }

  /** The upload in the transaction task's hand that has passed the look at the latch and is still to start. */
  function Waiting(t: Transactor): seq<nat> {
    if (t.Counting? || t.Ready?) && KindOf(t.work).Upload? then [KindOf(t.work).id] else []
  }

  lemma BlockedStep(s: State, step: Step)
    requires Enabled(s, step) && s.latched
    ensures var t := Apply(s, step);
            && (forall w | Unblocked(t.transactor, w) :: Unblocked(s.transactor, w))
            && (t.transactions == s.transactions || (s.transactions != [] && t.transactions == s.transactions[1..]))
            && ((t.running == s.running && (Waiting(t.transactor) == Waiting(s.transactor) || Waiting(t.transactor) == []))
                || (t.running == s.running + Waiting(s.transactor) && Waiting(t.transactor) == []))
  {
    hide Eligible, Busy, FirstUsable, Finish;
    FinishKeepsTheRest();
  }

  /**
   * From a set latch until a close sees all devices gone, no transaction is queued and none passes the look at the
   * latch: what runs had passed it before, and at most the one upload that was then past it is still started.
   */
  lemma {:induction false} BlockedMeansNothingStarts(s: State, steps: seq<Step>, t: State)
    requires s.latched && Runs(s, steps, t) && NoEmptyClose(s, steps)
    ensures forall w | Unblocked(t.transactor, w) :: Unblocked(s.transactor, w)
    ensures t.running == s.running || t.running == s.running + Waiting(s.transactor)
    ensures |t.transactions| <= |s.transactions| && t.transactions == s.transactions[|s.transactions| - |t.transactions|..]
    decreases |steps|
  {
    hide Apply, Enabled, Eligible, Waiting, Unblocked;
    if steps != [] {
      var m := Apply(s, steps[0]);
      BlockedStep(s, steps[0]);
      LatchStep(s, steps[0]);
      BlockedMeansNothingStarts(m, steps[1..], t);
    }
  }

  lemma OnlyElement(a: set<nat>, i: nat)
    requires i in a && |a| == 1
    ensures a == {i}
  {
    assert |a - {i}| == 0;
    assert a == {i} + (a - {i});
  }

  /**
   * After any interleaving a transaction passes the look at the latch exactly when no conflict is latched: its device
   * is always still marked and open under its handle and generation.
   */
  lemma LatchPassesIff(steps: seq<Step>, t: State)
    requires Runs(START, steps, t) && t.transactor.Taken?
    ensures Enabled(t, CheckTransaction)
    ensures Apply(t, CheckTransaction).transactor == Counting(t.transactor.work) <==> !t.latched
  {
    hide Runs, Eligible, AllWork, Conserved, StartedOnce, TwoLatch, Exclusive, Finish;
    var w := t.transactor.work;
    StaleCheckNeverFires(steps, t);
    StartSound();
    RunKeepsSound(START, steps, t);
    assert InTransactions(t, w);
    FinishKeepsTheRest();
  }

  /**
   * It then passes the count exactly when one device is eligible. That device is the transaction's own exactly when its
   * own was not reported gone meanwhile.
   */
  lemma CountPassesIff(steps: seq<Step>, t: State)
    requires Runs(START, steps, t) && t.transactor.Counting?
    ensures var w := t.transactor.work;
            && (Apply(t, CheckCount).transactor == Ready(w) <==> |Eligible(t.slots)| == 1)
            && w.slot < |t.slots|
            && (|Eligible(t.slots)| == 1 ==> (Eligible(t.slots) == {w.slot} <==> t.slots[w.slot].action != Close))
  {
    hide Runs, Eligible, AllWork, Conserved, StartedOnce, TwoLatch, Exclusive, Finish;
    var w := t.transactor.work;
    StartSound();
    RunKeepsSound(START, steps, t);
    assert InTransactions(t, w);
    FinishKeepsTheRest();
    InHandIsWork(t, w);
    OwnerHasHandle(t, w);
    EligibleAfterUpdate(t.slots, w.slot, t.slots[w.slot]);
    if |Eligible(t.slots)| == 1 && w.slot in Eligible(t.slots) {
      OnlyElement(Eligible(t.slots), w.slot);
    }
  }

  /** Somewhere along the run the work passed the count, with one device eligible. */
  ghost predicate CountedAlong(s: State, steps: seq<Step>, w: Work)
    decreases |steps|
  {
    steps != [] && Enabled(s, steps[0])
    && ((steps[0].CheckCount? && s.transactor == Counting(w) && |Eligible(s.slots)| == 1)
        || CountedAlong(Apply(s, steps[0]), steps[1..], w))
  }

  /** Somewhere along the run it passed the look at the latch, with no conflict latched, and later the count. */
  ghost predicate PassedAlong(s: State, steps: seq<Step>, w: Work)
    decreases |steps|
  {
    steps != [] && Enabled(s, steps[0])
    && ((steps[0].CheckTransaction? && s.transactor == Taken(w) && !s.latched && CountedAlong(Apply(s, steps[0]), steps[1..], w))
        || PassedAlong(Apply(s, steps[0]), steps[1..], w))
  }

  lemma {:induction false} CountedEarlier(s: State, steps: seq<Step>, t: State, w: Work)
    requires Runs(s, steps, t) && Passed(t.transactor, w)
    ensures Passed(s.transactor, w) || CountedAlong(s, steps, w)
    decreases |steps|
  {
    hide Apply, Enabled, Eligible, Passed;
    if steps != [] {
      var m := Apply(s, steps[0]);
      CountedEarlier(m, steps[1..], t, w);
      if Passed(m.transactor, w) && !Passed(s.transactor, w) {
        PassedByCount(s, steps[0], w);
      }
    }
  }

  lemma {:induction false} PassedEarlier(s: State, steps: seq<Step>, t: State, w: Work)
    requires Runs(s, steps, t) && Passed(t.transactor, w)
    ensures Unblocked(s.transactor, w) || PassedAlong(s, steps, w)
    decreases |steps|
  {
    hide Apply, Enabled, Eligible, Passed, CountedAlong, Unblocked;
    if steps == [] {
      PassedIsUnblocked(t.transactor, w);
    } else {
      var m := Apply(s, steps[0]);
      PassedEarlier(m, steps[1..], t, w);
      if Unblocked(m.transactor, w) && !Unblocked(s.transactor, w) {
        UnblockedByCheck(s, steps[0], w);
        CountedEarlier(m, steps[1..], t, w);
        StillToCount(s, w);
      }
    }
  }

  lemma PassedIsUnblocked(t: Transactor, w: Work)
    ensures Passed(t, w) ==> Unblocked(t, w)
  {
  }

  /** The look at the latch leaves the count to be done. */
  lemma StillToCount(s: State, w: Work)
    requires Enabled(s, CheckTransaction)
    ensures !Passed(Apply(s, CheckTransaction).transactor, w)
  {
    hide Eligible, Finish;
    FinishKeepsTheRest();
  }

  /**
   * After any interleaving, a transaction that waits for its device or runs passed both parts of its check on the
   * way, and its device is still open under the same handle and generation and marked as eligible.
   */
  lemma RunningWasChecked(steps: seq<Step>, t: State, w: Work)
    requires Runs(START, steps, t) && Passed(t.transactor, w)
    ensures PassedAlong(START, steps, w)
    ensures Owns(t, w) && t.slots[w.slot].eligible && !UnderClose(t.client, w.slot)
  {
    hide Runs, AllWork, PassedAlong, Conserved, StartedOnce, TwoLatch, Exclusive;
    PassedEarlier(START, steps, t, w);
    StartSound();
    RunKeepsSound(START, steps, t);
    assert InTransactions(t, w);
    InHandIsWork(t, w);
    DevicesInUseStayOpen(steps, t, w);
  }
}
