/** The life of a device: attached, opened, described, marked or ignored, gone and closed. */
module UsbLifecycle {
  import opened UsbScheduling
  import opened UsbRequests

  // ---- Longer runs -------------------------------------------------------------------

  lemma RunsMore(s: State, steps: seq<Step>, m: State, step: Step)
    requires Runs(s, steps, m) && Enabled(m, step)
    ensures Runs(s, steps + [step], Apply(m, step))
  {
    hide Apply, Enabled;
    assert [step][1..] == [];
    RunsJoin(s, steps, m, [step], Apply(m, step));
  }

  /** The client and the descriptor task have nothing in hand, and no scan waits. */
  predicate Quiet(s: State) {
    s.client == ClientIdle && s.descriptor == DescriptorIdle && s.scanRequests == [] && s.scanResults == []
  }

  /** An address nothing is attached at. */
  predicate Vacant(s: State, i: nat) {
    0 < i < |s.slots| && s.slots[i].handle == 0 && !s.slots[i].scanning
  }

  // ---- Attaching ---------------------------------------------------------------------

  /** The slot of a device that was opened, while its scan is under way or after it. */
  function OpenSlot(s: State, handle: nat, scanning: bool, isAccessport: bool, eligible: bool): Slot {
    Slot(handle, Idle, scanning, isAccessport, eligible, s.nextGeneration + 1)
  }

  function ScanOf(s: State, i: nat, handle: nat): Work {
    Work(i, handle, s.nextGeneration + 1, Scan)
  }

  /** A new device is opened and its scan taken up. */
  lemma OpenedIsScanned(s: State, i: nat, handle: nat) returns (steps: seq<Step>, t: State)
    requires Quiet(s) && Vacant(s, i) && handle != 0
    ensures Runs(s, steps, t) && OpenDevice(i, handle) in steps
    ensures t == s.(slots := s.slots[i := OpenSlot(s, handle, true, false, false)],
                    nextGeneration := s.nextGeneration + 1, descriptor := Scanning(ScanOf(s, i, handle)))
  {
    hide Runs;
    var a := Apply(s, NewDevice(i));
    var b := Apply(a, OpenDevice(i, handle));
    t := Apply(b, TakeScan);
    NothingRun(s);
    RunsMore(s, [], s, NewDevice(i));
    RunsMore(s, [] + [NewDevice(i)], a, OpenDevice(i, handle));
    RunsMore(s, [] + [NewDevice(i)] + [OpenDevice(i, handle)], b, TakeScan);
    steps := [] + [NewDevice(i)] + [OpenDevice(i, handle)] + [TakeScan];
    assert s.slots[i := a.slots[i]][i := b.slots[i]] == s.slots[i := b.slots[i]];
  }

  lemma NothingRun(s: State)
    ensures Runs(s, [], s)
  {
  }

  /** A device that cannot be opened, or that finds no room for its scan, is never looked at. */
  lemma UnopenedIsIgnored(s: State, i: nat, handle: nat)
    requires s.client == ClientIdle && Vacant(s, i)
    requires handle == 0 || |s.scanRequests| >= QUEUE_DEPTH
    ensures var t := Apply(Apply(s, NewDevice(i)), OpenDevice(i, handle));
            && Runs(s, [NewDevice(i), OpenDevice(i, handle)], t)
            && t == s.(slots := s.slots[i := OpenSlot(s, handle, false, false, false)], nextGeneration := s.nextGeneration + 1)
  {
    hide Runs, Eligible, Busy, Finish, Refuses, ApplyDispatch, ApplyCollect;
    var a := Apply(s, NewDevice(i));
    NothingRun(s);
    RunsMore(s, [], s, NewDevice(i));
    RunsMore(s, [] + [NewDevice(i)], a, OpenDevice(i, handle));
    assert [] + [NewDevice(i)] + [OpenDevice(i, handle)] == [NewDevice(i), OpenDevice(i, handle)];
    assert s.slots[i := a.slots[i]][i := OpenSlot(s, handle, false, false, false)]
        == s.slots[i := OpenSlot(s, handle, false, false, false)];
  }

  /** A finished scan is reported and collected, and the device is free. */
  lemma ScannedIsFree(s: State, steps: seq<Step>, m: State, w: Work) returns (more: seq<Step>, t: State)
    requires Runs(s, steps, m) && m.client == ClientIdle && m.descriptor == Scanned(w) && m.scanResults == []
    requires w.slot < |m.slots| && m.slots[w.slot].generation == w.generation
    ensures Runs(s, more, t) && steps <= more
    ensures t == m.(slots := m.slots[w.slot := m.slots[w.slot].(scanning := false)], descriptor := DescriptorIdle)
  {
    hide Runs;
    var a := Apply(m, ReportScan);
    RunsMore(s, steps, m, ReportScan);
    assert a.scanResults == [w] && a.scanResults[1..] == [];
    RunsMore(s, steps + [ReportScan], a, CollectScan);
    t := Apply(a, CollectScan);
    more := steps + [ReportScan] + [CollectScan];
  }

  /** A device that is no accessport, or whose description fails, ends free and not eligible; nothing is latched. */
  lemma OtherDeviceIsIgnored(s: State, i: nat, handle: nat, described: bool) returns (steps: seq<Step>, t: State)
    requires Quiet(s) && Vacant(s, i) && handle != 0
    ensures Runs(s, steps, t) && (if described then Describe(false) in steps else RejectScan in steps)
    ensures t == s.(slots := s.slots[i := OpenSlot(s, handle, false, false, false)], nextGeneration := s.nextGeneration + 1)
  {
    hide Runs;
    var begun, m := OpenedIsScanned(s, i, handle);
    var step := if described then Describe(false) else RejectScan;
    RunsMore(s, begun, m, step);
    var n := Apply(m, step);
    assert n.slots == m.slots;
    steps, t := ScannedIsFree(s, begun + [step], n, ScanOf(s, i, handle));
    assert step in begun + [step];
    assert t.slots == s.slots[i := OpenSlot(s, handle, false, false, false)];
  }

  /** A described accessport is marked. */
  lemma DescribedIsMarked(s: State, i: nat, handle: nat) returns (steps: seq<Step>, t: State)
    requires Quiet(s) && Vacant(s, i) && handle != 0
    ensures Runs(s, steps, t) && Describe(true) in steps
    ensures t == s.(slots := s.slots[i := OpenSlot(s, handle, true, true, true)],
                    nextGeneration := s.nextGeneration + 1, descriptor := Marked(ScanOf(s, i, handle)))
  {
    hide Runs;
    var begun, m := OpenedIsScanned(s, i, handle);
    var n := Apply(m, Describe(true));
    RunsMore(s, begun, m, Describe(true));
    RunsMore(s, begun + [Describe(true)], n, MarkEligible);
    t := Apply(n, MarkEligible);
    steps := begun + [Describe(true)] + [MarkEligible];
    assert t.slots == s.slots[i := OpenSlot(s, handle, true, true, true)];
  }

  /** The eligible devices are counted twice, and the latch is set when there are several both times. */
  lemma MarkedIsCounted(s: State, steps: seq<Step>, m: State, w: Work) returns (more: seq<Step>, t: State)
    requires Runs(s, steps, m) && m.descriptor == Marked(w)
    ensures Runs(s, more, t) && steps <= more
    ensures t == m.(descriptor := Scanned(w), latched := m.latched || |Eligible(m.slots)| >= 2)
  {
    hide Runs, Eligible;
    var several := |Eligible(m.slots)| >= 2;
    RunsMore(s, steps, m, CountDevices);
    var a := Apply(m, CountDevices);
    more, t := steps + [CountDevices], a;
    if several || m.latched {
      RunsMore(s, more, t, CountAgain);
      more, t := more + [CountAgain], Apply(t, CountAgain);
      if several {
        RunsMore(s, more, t, SetLatch);
        more, t := more + [SetLatch], Apply(t, SetLatch);
      }
    }
  }

  /**
   * An attached accessport can become eligible and free, and with it the latch is set exactly when it is not the only
   * one, or was set before.
   */
  lemma AttachedIsRecognised(s: State, i: nat, handle: nat) returns (steps: seq<Step>, t: State)
    requires Quiet(s) && Vacant(s, i) && handle != 0
    ensures Runs(s, steps, t)
    ensures t == s.(slots := s.slots[i := OpenSlot(s, handle, false, true, true)], nextGeneration := s.nextGeneration + 1,
                    latched := s.latched || |Eligible(t.slots)| >= 2)
    ensures i in Eligible(t.slots)
  {
    hide Runs;
    var marked, m := DescribedIsMarked(s, i, handle);
    hide Eligible;
    var counted, n := MarkedIsCounted(s, marked, m, ScanOf(s, i, handle));
    steps, t := ScannedIsFree(s, counted, n, ScanOf(s, i, handle));
    assert t.slots == s.slots[i := OpenSlot(s, handle, false, true, true)];
    FreeCounts(m.slots, i);
    assert t.slots == m.slots[i := m.slots[i].(scanning := false)];
  }

  lemma FreeCounts(slots: seq<Slot>, i: nat)
    requires i < |slots| && Counts(slots[i])
    ensures var free := slots[i := slots[i].(scanning := false)];
            Eligible(free) == Eligible(slots) && i in Eligible(free)
  {
  }

  // ---- Leaving -----------------------------------------------------------------------

  /** A device that is gone and not in use can be closed: its slot is empty, and the latch is kept while others count. */
  lemma GoneIsClosed(s: State, i: nat) returns (steps: seq<Step>, t: State)
    requires s.client == ClientIdle && 0 < i < |s.slots| && s.slots[i].handle != 0 && !s.slots[i].scanning
    ensures Runs(s, steps, t)
    ensures t == s.(slots := s.slots[i := EMPTY], latched := s.latched && Eligible(s.slots[i := EMPTY]) != {})
  {
    hide Runs;
    var a := Apply(s, DeviceGone(i));
    var b := Apply(a, CloseBegin(i));
    var c := Apply(b, CloseClear);
    NothingRun(s);
    RunsMore(s, [], s, DeviceGone(i));
    RunsMore(s, [] + [DeviceGone(i)], a, CloseBegin(i));
    RunsMore(s, [] + [DeviceGone(i)] + [CloseBegin(i)], b, CloseClear);
    RunsMore(s, [] + [DeviceGone(i)] + [CloseBegin(i)] + [CloseClear], c, CloseFinish);
    steps := [] + [DeviceGone(i)] + [CloseBegin(i)] + [CloseClear] + [CloseFinish];
    t := Apply(c, CloseFinish);
    assert b.slots == s.slots[i := b.slots[i]];
    assert t.slots == s.slots[i := EMPTY];
    assert Eligible(b.slots) == Eligible(t.slots);
  }

  /** The slot holds this device, which is neither to be opened nor to be closed. */
  predicate Holds(s: State, i: nat, handle: nat, generation: nat) {
    && i < |s.slots| && s.slots[i].handle == handle && s.slots[i].generation == generation && s.slots[i].action == Idle
    && s.client != Closing(i) && s.client != Cleared(i)
  }

  lemma StepKeepsDevice(s: State, step: Step, i: nat, handle: nat, generation: nat)
    requires Enabled(s, step) && Holds(s, i, handle, generation) && handle != 0 && step != DeviceGone(i)
    ensures Holds(Apply(s, step), i, handle, generation)
  {
    hide Eligible, Busy, Refuses, Finish;
    FinishKeepsTheRest();
  }

  /** However the tasks interleave, an open device keeps its slot, handle and generation until it is reported gone. */
  lemma {:induction false} StaysUntilGone(s: State, steps: seq<Step>, t: State, i: nat, handle: nat, generation: nat)
    requires Runs(s, steps, t) && Holds(s, i, handle, generation) && handle != 0 && DeviceGone(i) !in steps
    ensures Holds(t, i, handle, generation)
    decreases |steps|
  {
    hide Apply, Enabled, Holds;
    if steps != [] {
      StepKeepsDevice(s, steps[0], i, handle, generation);
      StaysUntilGone(Apply(s, steps[0]), steps[1..], t, i, handle, generation);
    }
  }

  // ---- Queues ------------------------------------------------------------------------

  /** No queue holds more than it was made for. */
  predicate QueuesFit(s: State) {
    |s.control| <= 4 && |s.scanRequests| <= 4 && |s.scanResults| <= 4 && |s.transactions| <= 4 && |s.transactionResults| <= 4
  }

  lemma StepKeepsQueues(s: State, step: Step)
    requires QueuesFit(s) && Enabled(s, step)
    ensures QueuesFit(Apply(s, step))
  {
    hide Eligible, Busy, Refuses;
  }

  /** In every run no queue overflows. */
  lemma {:induction false} RunKeepsQueues(s: State, steps: seq<Step>, t: State)
    requires QueuesFit(s) && Runs(s, steps, t)
    ensures QueuesFit(t)
    decreases |steps|
  {
    hide Apply, Enabled, QueuesFit;
    if steps != [] {
      StepKeepsQueues(s, steps[0]);
      RunKeepsQueues(Apply(s, steps[0]), steps[1..], t);
    }
  }
}
