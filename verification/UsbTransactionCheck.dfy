/** Runs that show what the check of a transaction, made when it is taken from its queue, does not see. */
module UsbTransactionCheck {
  import opened UsbScheduling

  lemma RunsOn(s: State, steps: seq<Step>, m: State, rest: seq<Step>, t: State)
    requires steps != [] && Enabled(s, steps[0]) && Apply(s, steps[0]) == m
    requires steps[1..] == rest && Runs(m, rest, t)
    ensures Runs(s, steps, t)
  {
    hide Apply, Enabled;
  }

  // ---- Pieces of a run ------------------------------------------------------------------------

  /** Nothing is under way but, perhaps, a transaction. */
  predicate Quiet(s: State) {
    s.client == ClientIdle && s.descriptor == DescriptorIdle && s.scanRequests == [] && s.scanResults == [] && s.control == []
  }

  function Scan0(s: State, i: nat, h: nat): Work {
    Work(i, h, s.nextGeneration + 1, Scan)
  }

  /** The scan of a device that has just appeared in slot `i` has marked it as eligible. */
  function MarkedAt(s: State, i: nat, h: nat): State
    requires i < |s.slots|
  {
    s.(slots := s.slots[i := Slot(h, Idle, true, true, true, s.nextGeneration + 1)], nextGeneration := s.nextGeneration + 1,
       descriptor := Marked(Scan0(s, i, h)))
  }

  /** A device has appeared in slot `i`, and its scan is asked for. */
  function OpenedAt(s: State, i: nat, h: nat): State
    requires i < |s.slots|
  {
    s.(slots := s.slots[i := Slot(h, Idle, true, false, false, s.nextGeneration + 1)], nextGeneration := s.nextGeneration + 1,
       scanRequests := [Scan0(s, i, h)])
  }

  function MarkSteps(i: nat, h: nat): seq<Step> {
    [NewDevice(i), OpenDevice(i, h)] + [TakeScan, Describe(true), MarkEligible]
  }

  lemma OpenRuns(s: State, i: nat, h: nat)
    requires Quiet(s) && InRange(s, i) && s.slots[i] == EMPTY && h != 0
    ensures Runs(s, [NewDevice(i), OpenDevice(i, h)], OpenedAt(s, i, h))
  {
    hide Eligible, Runs;
    var a := Apply(s, NewDevice(i));
    var b := Apply(a, OpenDevice(i, h));
    assert b.slots == OpenedAt(s, i, h).slots && b.scanRequests == OpenedAt(s, i, h).scanRequests;
    NoSteps(b);
    RunsOn(a, [OpenDevice(i, h)], b, [], b);
    RunsOn(s, [NewDevice(i), OpenDevice(i, h)], a, [OpenDevice(i, h)], b);
  }

  lemma ScanRuns(s: State, i: nat, h: nat)
    requires Quiet(s) && InRange(s, i)
    ensures Runs(OpenedAt(s, i, h), [TakeScan, Describe(true), MarkEligible], MarkedAt(s, i, h))
  {
    hide Eligible, Runs;
    var b := OpenedAt(s, i, h);
    var c := Apply(b, TakeScan);
    var d := Apply(c, Describe(true));
    var e := Apply(d, MarkEligible);
    assert e.slots == MarkedAt(s, i, h).slots;
    NoSteps(e);
    RunsOn(d, [MarkEligible], e, [], e);
    RunsOn(c, [Describe(true), MarkEligible], d, [MarkEligible], e);
    RunsOn(b, [TakeScan, Describe(true), MarkEligible], c, [Describe(true), MarkEligible], e);
  }

  lemma MarkRuns(s: State, i: nat, h: nat)
    requires Quiet(s) && InRange(s, i) && s.slots[i] == EMPTY && h != 0
    ensures Runs(s, MarkSteps(i, h), MarkedAt(s, i, h))
  {
    hide Eligible, Runs, Apply, Enabled;
    OpenRuns(s, i, h);
    ScanRuns(s, i, h);
    RunsJoin(s, [NewDevice(i), OpenDevice(i, h)], OpenedAt(s, i, h), [TakeScan, Describe(true), MarkEligible], MarkedAt(s, i, h));
  }

  lemma NoSteps(s: State)
    ensures Runs(s, [], s)
  {
  }

  /** The scan is over and the device free to be used. */
  function Attached(s: State, i: nat, h: nat, conflict: bool): State
    requires i < |s.slots|
  {
    s.(slots := s.slots[i := Slot(h, Idle, false, true, true, s.nextGeneration + 1)], nextGeneration := s.nextGeneration + 1,
       latched := s.latched || conflict)
  }

  function CountSteps(conflict: bool): seq<Step> {
    (if conflict then [CountDevices, CountAgain, SetLatch] else [CountDevices]) + [ReportScan, CollectScan]
  }

  lemma CountRuns(s: State, i: nat, h: nat, conflict: bool)
    requires Quiet(s) && InRange(s, i) && !s.latched
    requires conflict <==> |Eligible(MarkedAt(s, i, h).slots)| >= 2
    ensures Runs(MarkedAt(s, i, h), CountSteps(conflict), Attached(s, i, h, conflict))
  {
    hide Eligible, Runs;
    var m := MarkedAt(s, i, h);
    var e := m.(descriptor := Scanned(Scan0(s, i, h)), latched := conflict);
    var f := Apply(e, ReportScan);
    var g := Apply(f, CollectScan);
    assert g.slots == Attached(s, i, h, conflict).slots;
    assert g == Attached(s, i, h, conflict);
    NoSteps(g);
    RunsOn(f, [CollectScan], g, [], g);
    RunsOn(e, [ReportScan, CollectScan], f, [CollectScan], g);
    if conflict {
      var a := Apply(m, CountDevices);
      var b := Apply(a, CountAgain);
      RunsOn(b, [SetLatch, ReportScan, CollectScan], e, [ReportScan, CollectScan], g);
      RunsOn(a, [CountAgain, SetLatch, ReportScan, CollectScan], b, [SetLatch, ReportScan, CollectScan], g);
      RunsOn(m, [CountDevices, CountAgain, SetLatch, ReportScan, CollectScan], a,
             [CountAgain, SetLatch, ReportScan, CollectScan], g);
      assert CountSteps(true) == [CountDevices, CountAgain, SetLatch, ReportScan, CollectScan];
    } else {
      RunsOn(m, [CountDevices, ReportScan, CollectScan], e, [ReportScan, CollectScan], g);
      assert CountSteps(false) == [CountDevices, ReportScan, CollectScan];
    }
  }

  /** A device appears in slot `i`, alone or next to the one in slot `j`. */
  lemma Attach(s: State, i: nat, h: nat, others: set<nat>) returns (steps: seq<Step>, t: State)
    requires Quiet(s) && InRange(s, i) && s.slots[i] == EMPTY && h != 0 && !s.latched
    requires Eligible(s.slots) == others && |others| <= 1 && i !in others
    ensures t == Attached(s, i, h, others != {}) && Runs(s, steps, t) && Eligible(t.slots) == others + {i}
  {
    hide Eligible, Runs, Apply, Enabled;
    var m := MarkedAt(s, i, h);
    EligibleAfterUpdate(s.slots, i, m.slots[i]);
    t := Attached(s, i, h, others != {});
    EligibleAfterUpdate(s.slots, i, t.slots[i]);
    assert |others + {i}| == |others| + 1;
    MarkRuns(s, i, h);
    CountRuns(s, i, h, others != {});
    steps := MarkSteps(i, h) + CountSteps(others != {});
    RunsJoin(s, MarkSteps(i, h), m, CountSteps(others != {}), t);
  }

  function WorkFor(s: State, i: nat, kind: RequestKind): Work
    requires i < |s.slots|
  {
    Work(i, s.slots[i].handle, s.slots[i].generation, Transaction(kind))
  }

  /** A request has been handed to the transaction task for the device in slot `i`. */
  function Asked(s: State, i: nat, kind: RequestKind): State
    requires i < |s.slots|
  {
    s.(slots := s.slots[i := s.slots[i].(scanning := true)], transactions := [WorkFor(s, i, kind)],
       accepted := if kind.Upload? then s.accepted + {kind.id} else s.accepted)
  }

  lemma Ask(s: State, i: nat, kind: RequestKind) returns (steps: seq<Step>)
    requires Quiet(s) && i < |s.slots| && !s.latched && Eligible(s.slots) == {i} && !s.slots[i].scanning
    requires s.transactions == [] && (kind.Upload? ==> kind.id !in s.accepted)
    ensures Runs(s, steps, Asked(s, i, kind)) && Eligible(Asked(s, i, kind).slots) == {i}
  {
    EligibleAfterUpdate(s.slots, i, s.slots[i].(scanning := true));
    OnlyUsable(s.slots, i);
    hide Eligible, Runs, Busy, FirstUsable;
    var a := Apply(s, Request(kind));
    var b := Apply(a, TakeControl);
    var c := Apply(b, DispatchControl);
    assert a.control == [kind] && b.control == [];
    assert c == Asked(s, i, kind);
    NoSteps(c);
    RunsOn(b, [DispatchControl], c, [], c);
    RunsOn(a, [TakeControl, DispatchControl], b, [DispatchControl], c);
    RunsOn(s, [Request(kind), TakeControl, DispatchControl], a, [TakeControl, DispatchControl], c);
    steps := [Request(kind), TakeControl, DispatchControl];
  }

  lemma OnlyUsable(slots: seq<Slot>, i: nat)
    requires i < |slots| && Eligible(slots) == {i} && !slots[i].scanning
    ensures Counts(slots[i]) && FirstUsable(slots, 0) == i
  {
    assert i in Eligible(slots);
    var k := FirstUsable(slots, 0);
    if k < |slots| {
      assert k in Eligible(slots);
    }
  }

  const PASS_STEPS: seq<Step> := [TakeTransaction, CheckTransaction, CheckCount]

  /** The transaction task takes the work that is waiting and lets it pass. */
  lemma Pass(s: State, w: Work)
    requires s.transactor == TransactorIdle && s.transactions == [w] && WorkInRange(s, w)
    requires !s.latched && |Eligible(s.slots)| == 1
    requires var d := s.slots[w.slot]; d.handle == w.handle && d.generation == w.generation && d.eligible
    ensures Runs(s, PASS_STEPS, s.(transactor := Ready(w), transactions := []))
  {
    hide Eligible, Runs;
    var a := Apply(s, TakeTransaction);
    var b := Apply(a, CheckTransaction);
    var c := Apply(b, CheckCount);
    NoSteps(c);
    RunsOn(b, [CheckCount], c, [], c);
    RunsOn(a, [CheckTransaction, CheckCount], b, [CheckCount], c);
    RunsOn(s, PASS_STEPS, a, [CheckTransaction, CheckCount], c);
  }

  lemma EmptyStart()
    ensures Quiet(START) && |START.slots| == MAX_DEVICE_ADDRESS + 1 && Eligible(START.slots) == {}
    ensures forall k | 0 <= k < |START.slots| :: START.slots[k] == EMPTY
  {
  }

  /** One device is attached and a transaction for it has passed its check. */
  lemma OneReady(kind: RequestKind) returns (steps: seq<Step>, t: State)
    requires kind.Upload? || kind.Sync?
    ensures Runs(START, steps, t)
    ensures t == START.(slots := START.slots[1 := Slot(1, Idle, true, true, true, 1)], nextGeneration := 1,
                        transactor := Ready(Work(1, 1, 1, Transaction(kind))), accepted := if kind.Upload? then {kind.id} else {})
    ensures Eligible(t.slots) == {1} && |t.slots| == MAX_DEVICE_ADDRESS + 1 && t.slots[1] == Slot(1, Idle, true, true, true, 1)
    ensures forall k | 2 <= k < |t.slots| :: t.slots[k] == EMPTY
  {
    EmptyStart();
    hide Eligible, Runs, Apply, Enabled, START;
    var s0;
    assert START.nextGeneration == 0 && !START.latched && START.transactions == [] && START.transactor == TransactorIdle
           && START.accepted == {} by {
      StartFields();
    }
    steps, s0 := Attach(START, 1, 1, {});
    var more := Ask(s0, 1, kind);
    var s1 := Asked(s0, 1, kind);
    RunsJoin(START, steps, s0, more, s1);
    steps := steps + more;
    Pass(s1, WorkFor(s0, 1, kind));
    t := s1.(transactor := Ready(WorkFor(s0, 1, kind)), transactions := []);
    RunsJoin(START, steps, s1, PASS_STEPS, t);
    steps := steps + PASS_STEPS;
    assert t.slots == START.slots[1 := Slot(1, Idle, true, true, true, 1)];
  }

  lemma StartFields()
    ensures START.nextGeneration == 0 && !START.latched && START.transactions == [] && START.transactor == TransactorIdle
            && START.accepted == {} && START.running == [] && START.transactionResults == []
  {
  }

  // ---- What the check does not see ----------------------------------------------------------------

  /** A second device is found while a checked upload waits for its own: the upload starts with the conflict latched. */
  lemma StartsWhileLatched() returns (steps: seq<Step>, t: State)
    ensures Runs(START, steps, t)
    ensures t.latched && Eligible(t.slots) == {1, 2} && t.transactor == Running(Work(1, 1, 1, Transaction(Upload(0)))) && t.running == [0]
  {
    hide Eligible, Runs, START, Apply, Enabled;
    StartFields();
    var s, more, m;
    steps, s := OneReady(Upload(0));
    assert Quiet(s) && !s.latched by {
      EmptyStart();
    }
    more, m := Attach(s, 2, 2, {1});
    RunsJoin(START, steps, s, more, m);
    steps := steps + more;
    t := m.(transactor := Running(m.transactor.work), running := [0]);
    StartRuns(m, t);
    RunsJoin(START, steps, m, [StartTransaction], t);
    steps := steps + [StartTransaction];
  }

  lemma StartRuns(s: State, t: State)
    requires s.transactor.Ready?
    requires var w := s.transactor.work;
             t == s.(transactor := Running(w), running := if KindOf(w).Upload? then s.running + [KindOf(w).id] else s.running)
    ensures Runs(s, [StartTransaction], t)
  {
    NoSteps(t);
    RunsOn(s, [StartTransaction], t, [], t);
  }

  lemma Leave(s: State, i: nat)
    requires s.client == ClientIdle && InRange(s, i) && s.slots[i].handle != 0 && Eligible(s.slots) == {i}
    ensures Runs(s, [DeviceGone(i)], s.(slots := s.slots[i := s.slots[i].(action := Close)]))
    ensures Eligible(s.slots[i := s.slots[i].(action := Close)]) == {}
  {
    EligibleAfterUpdate(s.slots, i, s.slots[i].(action := Close));
    hide Eligible, Runs;
    var t := Apply(s, DeviceGone(i));
    NoSteps(t);
    RunsOn(s, [DeviceGone(i)], t, [], t);
  }

  /** A synchronisation that had passed its check ends. */
  lemma SyncEnds(s: State)
    requires s.transactor.Ready? && KindOf(s.transactor.work) == Sync && s.transactionResults == []
    ensures Runs(s, [StartTransaction, FinishTransaction, ReportTransaction],
                 s.(transactor := TransactorIdle, transactionResults := [s.transactor.work]))
  {
    hide Eligible, Runs;
    var a := Apply(s, StartTransaction);
    var b := Apply(a, FinishTransaction);
    var c := Apply(b, ReportTransaction);
    assert c == s.(transactor := TransactorIdle, transactionResults := [s.transactor.work]);
    NoSteps(c);
    RunsOn(b, [ReportTransaction], c, [], c);
    RunsOn(a, [FinishTransaction, ReportTransaction], b, [ReportTransaction], c);
    RunsOn(s, [StartTransaction, FinishTransaction, ReportTransaction], a, [FinishTransaction, ReportTransaction], c);
  }

  /** The first device's transaction is ready, that device is gone, and a second one has a transaction queued. */
  lemma SecondQueued() returns (steps: seq<Step>, t: State)
    ensures Runs(START, steps, t) && Quiet(t) && !t.latched && Eligible(t.slots) == {2} && t.nextGeneration == 2
    ensures t.transactor == Ready(Work(1, 1, 1, Transaction(Sync))) && t.transactions == [Work(2, 2, 2, Transaction(Sync))]
    ensures t.transactionResults == []
    ensures |t.slots| == MAX_DEVICE_ADDRESS + 1 && t.slots[2] == Slot(2, Idle, true, true, true, 2) && t.slots[3] == EMPTY
  {
    hide Eligible, Runs, START, Apply, Enabled;
    StartFields();
    var s, more, m;
    steps, s := OneReady(Sync);
    assert Quiet(s) && !s.latched by {
      EmptyStart();
    }
    Leave(s, 1);
    var a := s.(slots := s.slots[1 := s.slots[1].(action := Close)]);
    RunsJoin(START, steps, s, [DeviceGone(1)], a);
    steps := steps + [DeviceGone(1)];
    more, m := Attach(a, 2, 2, {});
    RunsJoin(START, steps, a, more, m);
    steps := steps + more;
    more := Ask(m, 2, Sync);
    t := Asked(m, 2, Sync);
    RunsJoin(START, steps, m, more, t);
    steps := steps + more;
  }

  /**
   * While the transaction task still works for a first device, a second one is given a transaction and goes, and a
   * third is found: the second's transaction passes its check, the one eligible device being the third.
   */
  lemma PassesForGoneDevice() returns (steps: seq<Step>, t: State)
    ensures Runs(START, steps, t)
    ensures t.transactor == Ready(Work(2, 2, 2, Transaction(Sync))) && Eligible(t.slots) == {3}
    ensures |t.slots| == MAX_DEVICE_ADDRESS + 1 && t.slots[2].action == Close
  {
    hide Eligible, Runs, START, Apply, Enabled;
    var s, more, b;
    steps, s := SecondQueued();
    Leave(s, 2);
    var a := s.(slots := s.slots[2 := s.slots[2].(action := Close)]);
    RunsJoin(START, steps, s, [DeviceGone(2)], a);
    steps := steps + [DeviceGone(2)];
    more, b := Attach(a, 3, 3, {});
    RunsJoin(START, steps, a, more, b);
    steps := steps + more;
    SyncEnds(b);
    var c := b.(transactor := TransactorIdle, transactionResults := [b.transactor.work]);
    more := [StartTransaction, FinishTransaction, ReportTransaction];
    RunsJoin(START, steps, b, more, c);
    steps := steps + more;
    var w := Work(2, 2, 2, Transaction(Sync));
    Pass(c, w);
    t := c.(transactor := Ready(w), transactions := []);
    RunsJoin(START, steps, c, PASS_STEPS, t);
    steps := steps + PASS_STEPS;
  }
}
