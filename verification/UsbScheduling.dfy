/**
 * The USB client, descriptor and transaction tasks as interleaved steps: which device may be used, when several block
 * everything, and what becomes of each map-upload request. All tasks share one core and the client runs above the
 * others: what it does between two calls that can block is one step, while it may come between any two steps of the
 * descriptor task.
 */
module UsbScheduling {
  const QUEUE_DEPTH: nat := 4
  const MAX_DEVICE_ADDRESS: nat := 127

  datatype SlotAction = Idle | Open | Close

  /** A handle of zero is no handle. */
  datatype Slot = Slot(
    handle: nat,
    action: SlotAction,
    scanning: bool,
    isAccessport: bool,
    eligible: bool,
    generation: nat)

  const EMPTY: Slot := Slot(0, Idle, false, false, false, 0)

  datatype RequestKind = Identity | Sync | CloseRecovery | Upload(id: nat)

  datatype Job = Scan | Transaction(kind: RequestKind)

  datatype Work = Work(slot: nat, handle: nat, generation: nat, job: Job)

  /** Where the client task stands: idle, at one of the points of a close, or with a request in hand. */
  datatype Client =
    | ClientIdle
    | Closing(slot: nat)
    | Cleared(slot: nat)
    | Holding(request: RequestKind)

  /** Where a scan stands: an accessport is described, marked as eligible, and counted twice before the latch is set. */
  datatype Descriptor =
    | DescriptorIdle
    | Scanning(work: Work)
    | Described(work: Work)
    | Marked(work: Work)
    | Conflicting(work: Work)
    | Latching(work: Work)
    | Scanned(work: Work)

  /**
   * A transaction is checked in two parts, the device and the latch first and then the count. One that passed is ready,
   * and waits for the device to settle before it runs.
   */
  datatype Transactor =
    | TransactorIdle
    | Taken(work: Work)
    | Counting(work: Work)
    | Ready(work: Work)
    | Running(work: Work)
    | Ended(work: Work)

  datatype State = State(
    slots: seq<Slot>,
    latched: bool,
    nextGeneration: nat,
    client: Client,
    descriptor: Descriptor,
    transactor: Transactor,
    scanRequests: seq<Work>,
    scanResults: seq<Work>,
    control: seq<RequestKind>,
    transactions: seq<Work>,
    transactionResults: seq<Work>,
    accepted: set<nat>,
    running: seq<nat>,
    finished: seq<nat>)

  datatype Step =
    | NewDevice(i: nat)
    | DeviceGone(i: nat)
    | OpenDevice(i: nat, newHandle: nat)
    | CloseBegin(i: nat)
    | CloseClear
    | CloseFinish
    | CollectScan
    | CollectTransaction
    | TakeControl
    | DispatchControl
    | TakeScan
    | Describe(isAccessport: bool)
    | RejectScan
    | MarkEligible
    | CountDevices
    | CountAgain
    | SetLatch
    | ReportScan
    | TakeTransaction
    | CheckTransaction
    | CheckCount
    | StartTransaction
    | FinishTransaction
    | ReportTransaction
    | Request(kind: RequestKind)

  // ---- Eligible devices ------------------------------------------------------------------

  predicate Counts(d: Slot) {
    d.handle != 0 && d.eligible && d.action != Close
  }

  function Eligible(slots: seq<Slot>): set<nat> {
    set i | 0 <= i < |slots| && Counts(slots[i])
  }

  // ---- Steps ------------------------------------------------------------------------------

  function FirstUsable(slots: seq<Slot>, from: nat): (i: nat)
    requires from <= |slots|
    ensures from <= i <= |slots|
    ensures i < |slots| ==> Counts(slots[i]) && !slots[i].scanning
    ensures forall k | from <= k < i :: !(Counts(slots[k]) && !slots[k].scanning)
    decreases |slots| - from
  {
    if from == |slots| || (Counts(slots[from]) && !slots[from].scanning) then from else FirstUsable(slots, from + 1)
  }

  /** Some accessport is still being worked on. */
  predicate Busy(slots: seq<Slot>) {
    exists i | 0 <= i < |slots| :: slots[i].handle != 0 && slots[i].isAccessport && slots[i].scanning && slots[i].action != Close
  }

  /** The observer is told how an upload ended. */
  function Finish(s: State, kind: RequestKind): State {
    if kind.Upload? then s.(finished := s.finished + [kind.id]) else s
  }

  predicate InRange(s: State, i: nat) {
    0 < i < |s.slots|
  }

  predicate WorkInRange(s: State, w: Work) {
    w.slot < |s.slots|
  }

  /** What each step needs to happen. A new address is one the host library has released. */
  predicate Enabled(s: State, step: Step) {
    match step
    case NewDevice(i) => s.client.ClientIdle? && InRange(s, i) && s.slots[i].handle == 0 && !s.slots[i].scanning
    case DeviceGone(i) => s.client.ClientIdle? && InRange(s, i) && s.slots[i].handle != 0
    case OpenDevice(i, newHandle) => s.client.ClientIdle? && InRange(s, i) && s.slots[i].action == Open
    case CloseBegin(i) =>
      s.client.ClientIdle? && InRange(s, i) && s.slots[i].action == Close && s.slots[i].handle != 0 && !s.slots[i].scanning
    case CloseClear => s.client.Closing?
    case CloseFinish => s.client.Cleared? && s.client.slot < |s.slots|
    case CollectScan => s.client.ClientIdle? && s.scanResults != [] && WorkInRange(s, s.scanResults[0])
    case CollectTransaction => s.client.ClientIdle? && s.transactionResults != [] && WorkInRange(s, s.transactionResults[0])
    case TakeControl => s.client.ClientIdle? && s.control != []
    case DispatchControl => s.client.Holding?
    case TakeScan => s.descriptor.DescriptorIdle? && s.scanRequests != []
    case Describe(_) => s.descriptor.Scanning? && WorkInRange(s, s.descriptor.work)
    case RejectScan => s.descriptor.Scanning? || s.descriptor.Described?
    case MarkEligible => s.descriptor.Described? && WorkInRange(s, s.descriptor.work)
    case CountDevices => s.descriptor.Marked?
    case CountAgain => s.descriptor.Conflicting?
    case SetLatch => s.descriptor.Latching?
    case ReportScan => s.descriptor.Scanned? && |s.scanResults| < QUEUE_DEPTH
    case TakeTransaction => s.transactor.TransactorIdle? && s.transactions != []
    case CheckTransaction => s.transactor.Taken? && WorkInRange(s, s.transactor.work)
    case CheckCount => s.transactor.Counting?
    case StartTransaction => s.transactor.Ready?
    case FinishTransaction => s.transactor.Running?
    case ReportTransaction => s.transactor.Ended? && |s.transactionResults| < QUEUE_DEPTH
    case Request(kind) => |s.control| < QUEUE_DEPTH && (kind.Upload? ==> kind.id !in s.accepted)
  }

  function ApplyOpen(s: State, i: nat, newHandle: nat): State
    requires InRange(s, i)
  {
    var closed := s.slots[i].(action := Idle, handle := newHandle);
    if newHandle == 0 then s.(slots := s.slots[i := closed])
    else if |s.scanRequests| < QUEUE_DEPTH then
      s.(slots := s.slots[i := closed.(scanning := true)],
         scanRequests := s.scanRequests + [Work(i, newHandle, s.slots[i].generation, Scan)])
    else s.(slots := s.slots[i := closed])
  }

  function ApplyCollect(s: State, w: Work): State
    requires WorkInRange(s, w)
  {
    if s.slots[w.slot].generation == w.generation then s.(slots := s.slots[w.slot := s.slots[w.slot].(scanning := false)]) else s
  }

  /** The request in hand goes to the one usable device, back to the queue, or is refused. */
  function ApplyDispatch(s: State, kind: RequestKind): State {
    var idle := s.(client := ClientIdle);
    if s.latched || |Eligible(s.slots)| != 1 then Finish(idle, kind)
    else
      var i := FirstUsable(s.slots, 0);
      if i == |s.slots| then
        if kind != Identity && Busy(s.slots) && |s.control| < QUEUE_DEPTH then idle.(control := s.control + [kind])
        else Finish(idle, kind)
      else if |s.transactions| < QUEUE_DEPTH then
        idle.(slots := s.slots[i := s.slots[i].(scanning := true)],
              transactions := s.transactions + [Work(i, s.slots[i].handle, s.slots[i].generation, Transaction(kind))])
      else Finish(idle, kind)
  }

  /** The transaction task looks at the device once more before it touches it. */
  predicate Refuses(s: State, w: Work)
    requires WorkInRange(s, w)
  {
    var d := s.slots[w.slot];
    d.handle != w.handle || d.generation != w.generation || !d.eligible || s.latched
  }

  function KindOf(w: Work): RequestKind {
    match w.job
    case Scan => Identity
    case Transaction(kind) => kind
  }

  function Apply(s: State, step: Step): State
    requires Enabled(s, step)
  {
    match step
    case NewDevice(i) =>
      s.(slots := s.slots[i := EMPTY.(action := Open, generation := s.nextGeneration + 1)], nextGeneration := s.nextGeneration + 1)
    case DeviceGone(i) => s.(slots := s.slots[i := s.slots[i].(action := Close)])
    case OpenDevice(i, newHandle) => ApplyOpen(s, i, newHandle)
    case CloseBegin(i) => s.(slots := s.slots[i := s.slots[i].(action := Idle, eligible := false)], client := Closing(i))
    case CloseClear => s.(client := Cleared(s.client.slot), latched := s.latched && Eligible(s.slots) != {})
    case CloseFinish => s.(slots := s.slots[s.client.slot := EMPTY], client := ClientIdle)
    case CollectScan => ApplyCollect(s.(scanResults := s.scanResults[1..]), s.scanResults[0])
    case CollectTransaction => ApplyCollect(s.(transactionResults := s.transactionResults[1..]), s.transactionResults[0])
    case TakeControl => s.(control := s.control[1..], client := Holding(s.control[0]))
    case DispatchControl => ApplyDispatch(s, s.client.request)
    case TakeScan => s.(scanRequests := s.scanRequests[1..], descriptor := Scanning(s.scanRequests[0]))
    case Describe(isAccessport) =>
      var w := s.descriptor.work;
      s.(slots := s.slots[w.slot := s.slots[w.slot].(isAccessport := isAccessport)],
         descriptor := if isAccessport then Described(w) else Scanned(w))
    case RejectScan => s.(descriptor := Scanned(s.descriptor.work))
    case MarkEligible =>
      var w := s.descriptor.work;
      s.(slots := s.slots[w.slot := s.slots[w.slot].(eligible := true)], descriptor := Marked(w))
    case CountDevices =>
      s.(descriptor := if |Eligible(s.slots)| >= 2 || s.latched then Conflicting(s.descriptor.work) else Scanned(s.descriptor.work))
    case CountAgain =>
      s.(descriptor := if |Eligible(s.slots)| >= 2 then Latching(s.descriptor.work) else Scanned(s.descriptor.work))
    case SetLatch => s.(descriptor := Scanned(s.descriptor.work), latched := true)
    case ReportScan => s.(scanResults := s.scanResults + [s.descriptor.work], descriptor := DescriptorIdle)
    case TakeTransaction => s.(transactions := s.transactions[1..], transactor := Taken(s.transactions[0]))
    case CheckTransaction =>
      var w := s.transactor.work;
      if Refuses(s, w) then Finish(s.(transactor := Ended(w)), KindOf(w))
      else s.(transactor := Counting(w))
    case CheckCount =>
      var w := s.transactor.work;
      if |Eligible(s.slots)| != 1 then Finish(s.(transactor := Ended(w)), KindOf(w)) else s.(transactor := Ready(w))
    case StartTransaction =>
      var w := s.transactor.work;
      s.(transactor := Running(w), running := if KindOf(w).Upload? then s.running + [KindOf(w).id] else s.running)
    case FinishTransaction => Finish(s.(transactor := Ended(s.transactor.work)), KindOf(s.transactor.work))
    case ReportTransaction =>
      s.(transactionResults := s.transactionResults + [s.transactor.work], transactor := TransactorIdle)
    case Request(kind) =>
      s.(control := s.control + [kind], accepted := if kind.Upload? then s.accepted + {kind.id} else s.accepted)
  }

  const START: State :=
    State(seq(MAX_DEVICE_ADDRESS + 1, _ => EMPTY), false, 0, ClientIdle, DescriptorIdle, TransactorIdle,
          [], [], [], [], [], {}, [], [])

  /** The states some interleaving of the three tasks and their callers goes through. */
  ghost predicate Runs(s: State, steps: seq<Step>, t: State)
    decreases |steps|
  {
    if steps == [] then s == t else Enabled(s, steps[0]) && Runs(Apply(s, steps[0]), steps[1..], t)
  }

  lemma {:induction false} RunsJoin(s: State, first: seq<Step>, m: State, second: seq<Step>, t: State)
    requires Runs(s, first, m) && Runs(m, second, t)
    ensures Runs(s, first + second, t)
    decreases |first|
  {
    hide Apply, Enabled;
    if first == [] {
      assert first + second == second;
    } else {
      RunsJoin(Apply(s, first[0]), first[1..], m, second, t);
      assert (first + second)[1..] == first[1..] + second;
    }
  }

  // ---- Exclusive use of a device --------------------------------------------------------------

  /** The descriptor task's hand, then the transaction task's. */
  function InScan(d: Descriptor): seq<Work> {
    match d
    case DescriptorIdle => []
    case Scanning(w) => [w]
    case Described(w) => [w]
    case Marked(w) => [w]
    case Conflicting(w) => [w]
    case Latching(w) => [w]
    case Scanned(w) => [w]
  }

  function InTransaction(t: Transactor): seq<Work> {
    match t
    case TransactorIdle => []
    case Taken(w) => [w]
    case Counting(w) => [w]
    case Ready(w) => [w]
    case Running(w) => [w]
    case Ended(w) => [w]
  }

  function InHand(s: State): seq<Work> {
    InScan(s.descriptor) + InTransaction(s.transactor)
  }

  /** Every piece of work that refers to a device, wherever it is. */
  function AllWork(s: State): multiset<Work> {
    multiset(s.scanRequests) + multiset(s.scanResults) + multiset(s.transactions) + multiset(s.transactionResults)
    + multiset(InHand(s))
  }

  predicate Owns(s: State, w: Work) {
    w.slot < |s.slots| && s.slots[w.slot].scanning && w.handle != 0
    && s.slots[w.slot].handle == w.handle && s.slots[w.slot].generation == w.generation
  }

  /** The client is closing this slot. */
  predicate UnderClose(c: Client, i: nat) {
    (c.Closing? || c.Cleared?) && c.slot == i
  }

  ghost predicate WorkSound(s: State) {
    && (forall w | w in AllWork(s) :: Owns(s, w) && AllWork(s)[w] == 1)
    && (forall v, w | v in AllWork(s) && w in AllWork(s) && v.slot == w.slot :: v == w)
  }

  ghost predicate SlotsSound(s: State) {
    && (forall i | 0 <= i < |s.slots| && s.slots[i].handle == 0 :: !s.slots[i].eligible && !s.slots[i].scanning)
    && (forall i | 0 <= i < |s.slots| && UnderClose(s.client, i) ::
          !s.slots[i].scanning && s.slots[i].handle != 0 && !s.slots[i].eligible)
    && (forall i | 0 <= i < |s.slots| && s.slots[i].action == Open :: s.slots[i].handle == 0)
    && ((s.client.Closing? || s.client.Cleared?) ==> s.client.slot < |s.slots|)
  }

  /** A device in use is marked as such, by one piece of work only, and that work still names its handle. */
  ghost predicate Exclusive(s: State) {
    WorkSound(s) && SlotsSound(s)
  }

  /** Work that only changes hands stays sound as long as the slots it refers to keep their handles. */
  lemma WorkMoves(s: State, t: State)
    requires WorkSound(s) && AllWork(t) == AllWork(s)
    requires forall w | w in AllWork(s) :: Owns(t, w)
    ensures WorkSound(t)
  {
    hide AllWork, Owns;
  }

  lemma WorkAdded(s: State, t: State, w: Work)
    requires WorkSound(s) && AllWork(t) == AllWork(s) + multiset{w}
    requires forall v | v in AllWork(s) :: Owns(t, v) && v.slot != w.slot
    requires Owns(t, w)
    ensures WorkSound(t)
  {
    hide AllWork, Owns;
  }

  lemma WorkDropped(s: State, t: State, w: Work)
    requires WorkSound(s) && AllWork(s) == AllWork(t) + multiset{w}
    requires forall v | v in AllWork(t) && v.slot != w.slot :: Owns(t, v)
    ensures WorkSound(t)
  {
    hide AllWork, Owns;
    forall v | v in AllWork(t)
      ensures v.slot != w.slot
    {
      assert v in AllWork(s) && w in AllWork(s);
      assert v == w ==> AllWork(s)[w] >= 2;
    }
  }

  /** No work refers to a slot that is not marked as in use. */
  lemma FreeSlotHasNoWork(s: State, i: nat)
    requires WorkSound(s) && i < |s.slots| && !s.slots[i].scanning
    ensures forall w | w in AllWork(s) :: w.slot != i
  {
    hide AllWork;
  }

  /** Changing a slot without work leaves every owner in place. */
  lemma OwnersElsewhere(s: State, t: State, i: nat)
    requires WorkSound(s) && i < |s.slots| && |t.slots| == |s.slots|
    requires forall k | 0 <= k < |s.slots| && k != i :: t.slots[k] == s.slots[k]
    ensures forall w | w in AllWork(s) && w.slot != i :: Owns(t, w)
  {
    hide AllWork;
  }

  lemma HeadAndRest<T>(q: seq<T>)
    requires q != []
    ensures multiset(q) == multiset{q[0]} + multiset(q[1..])
  {
    assert q == [q[0]] + q[1..];
  }

  /** The slot a client step is about. */
  function SlotOf(s: State, step: Step): nat {
    match step
    case NewDevice(i) => i
    case DeviceGone(i) => i
    case CloseBegin(i) => i
    case _ =>
      match s.client
      case Closing(i) => i
      case Cleared(i) => i
      case _ => 0
  }

  lemma ClientStepKeepsExclusive(s: State, step: Step)
    requires Exclusive(s) && Enabled(s, step)
    requires step.NewDevice? || step.DeviceGone? || step.CloseBegin? || step.CloseClear? || step.CloseFinish?
    ensures Exclusive(Apply(s, step))
  {
    hide AllWork, Eligible;
    var t := Apply(s, step);
    SameQueues(s, t);
    var i := SlotOf(s, step);
    OwnersElsewhere(s, t, i);
    if step.DeviceGone? {
      forall w | w in AllWork(s)
        ensures Owns(t, w)
      {
      }
    } else {
      FreeSlotHasNoWork(s, i);
    }
    WorkMoves(s, t);
  }

  lemma SameQueues(s: State, t: State)
    ensures t.scanRequests == s.scanRequests && t.scanResults == s.scanResults && t.transactions == s.transactions
            && t.transactionResults == s.transactionResults && t.descriptor == s.descriptor && t.transactor == s.transactor
            ==> AllWork(t) == AllWork(s)
  {
  }

  lemma OpenKeepsExclusive(s: State, i: nat, newHandle: nat)
    requires Exclusive(s) && Enabled(s, OpenDevice(i, newHandle))
    ensures Exclusive(Apply(s, OpenDevice(i, newHandle)))
  {
    hide AllWork;
    var t := Apply(s, OpenDevice(i, newHandle));
    FreeSlotHasNoWork(s, i);
    OwnersElsewhere(s, t, i);
    SameQueues(s, t);
    if newHandle != 0 && |s.scanRequests| < QUEUE_DEPTH {
      var w := Work(i, newHandle, s.slots[i].generation, Scan);
      AppendedScan(s, t, w);
      WorkAdded(s, t, w);
    } else {
      WorkMoves(s, t);
    }
  }

  lemma AppendedScan(s: State, t: State, w: Work)
    requires t == s.(slots := t.slots, scanRequests := s.scanRequests + [w])
    ensures AllWork(t) == AllWork(s) + multiset{w}
  {
    hide InHand;
    assert InHand(t) == InHand(s) by {
      SameHands(s, t);
    }
  }

  lemma AppendedTransaction(s: State, t: State, w: Work)
    requires t == s.(slots := t.slots, client := t.client, transactions := s.transactions + [w])
    ensures AllWork(t) == AllWork(s) + multiset{w}
  {
    hide InHand;
    assert InHand(t) == InHand(s) by {
      SameHands(s, t);
    }
  }

  lemma SameHands(s: State, t: State)
    requires t.descriptor == s.descriptor && t.transactor == s.transactor
    ensures InHand(t) == InHand(s)
  {
  }

  /** Handing work on without touching the slots. */
  lemma SlotsSameKeepsExclusive(s: State, t: State)
    requires Exclusive(s) && AllWork(t) == AllWork(s) && t.slots == s.slots
    requires t.client == s.client || t.client.ClientIdle? || t.client.Holding?
    ensures Exclusive(t)
  {
    hide AllWork;
    WorkMoves(s, t);
  }

  lemma DispatchKeepsExclusive(s: State)
    requires Exclusive(s) && Enabled(s, DispatchControl)
    ensures Exclusive(Apply(s, DispatchControl))
  {
    hide AllWork, Eligible, Busy, Owns, WorkSound, SlotsSound;
    var t := Apply(s, DispatchControl);
    SameQueues(s, t);
    if t.transactions != s.transactions {
      DispatchedKeepsExclusive(s, FirstUsable(s.slots, 0), s.client.request);
    } else {
      SlotsSameKeepsExclusive(s, t);
    }
  }

  function Dispatched(s: State, i: nat, kind: RequestKind): State
    requires i < |s.slots|
  {
    s.(client := ClientIdle, slots := s.slots[i := s.slots[i].(scanning := true)],
       transactions := s.transactions + [Work(i, s.slots[i].handle, s.slots[i].generation, Transaction(kind))])
  }

  lemma DispatchedKeepsExclusive(s: State, i: nat, kind: RequestKind)
    requires Exclusive(s) && s.client.Holding? && i < |s.slots| && s.slots[i].handle != 0 && !s.slots[i].scanning
    ensures Exclusive(Dispatched(s, i, kind))
  {
    hide AllWork;
    var t := Dispatched(s, i, kind);
    var w := Work(i, s.slots[i].handle, s.slots[i].generation, Transaction(kind));
    FreeSlotHasNoWork(s, i);
    OwnersElsewhere(s, t, i);
    AppendedTransaction(s, t, w);
    WorkAdded(s, t, w);
  }

  lemma CollectKeepsExclusive(s: State, step: Step)
    requires Exclusive(s) && Enabled(s, step) && (step.CollectScan? || step.CollectTransaction?)
    ensures Exclusive(Apply(s, step))
  {
    hide AllWork;
    var t := Apply(s, step);
    var w := if step.CollectScan? then s.scanResults[0] else s.transactionResults[0];
    CollectedWork(s, t, w, step);
    assert w in AllWork(s);
    OwnersElsewhere(s, t, w.slot);
    WorkDropped(s, t, w);
  }

  lemma CollectedWork(s: State, t: State, w: Work, step: Step)
    requires step.CollectScan? ==>
               s.scanResults != [] && w == s.scanResults[0] && t == s.(slots := t.slots, scanResults := s.scanResults[1..])
    requires step.CollectTransaction? ==>
               s.transactionResults != [] && w == s.transactionResults[0]
               && t == s.(slots := t.slots, transactionResults := s.transactionResults[1..])
    requires step.CollectScan? || step.CollectTransaction?
    ensures AllWork(s) == AllWork(t) + multiset{w}
  {
    hide InHand;
    SameHands(s, t);
    if step.CollectScan? {
      HeadAndRest(s.scanResults);
    } else {
      HeadAndRest(s.transactionResults);
    }
  }

  /** Finding out what a device is changes only what is known about it. */
  lemma DescribedKeepsExclusive(s: State, t: State, i: nat)
    requires Exclusive(s) && AllWork(t) == AllWork(s) && i < |s.slots| && t.client == s.client
    requires s.slots[i].handle != 0 && s.slots[i].scanning
    requires exists a, e :: t.slots == s.slots[i := s.slots[i].(isAccessport := a, eligible := e)]
    ensures Exclusive(t)
  {
    hide AllWork;
    WorkMoves(s, t);
  }

  lemma InHandIsWork(s: State, w: Work)
    requires w in InHand(s)
    ensures w in AllWork(s)
  {
  }

  lemma SameHandsSameWork(s: State, t: State)
    requires t.scanRequests == s.scanRequests && t.scanResults == s.scanResults && t.transactions == s.transactions
             && t.transactionResults == s.transactionResults && InHand(t) == InHand(s)
    ensures AllWork(t) == AllWork(s)
  {
  }

  /** How often a piece of work occurs, place by place. */
  function Occurrences(s: State, w: Work): nat {
    multiset(s.scanRequests)[w] + multiset(s.scanResults)[w] + multiset(s.transactions)[w] + multiset(s.transactionResults)[w]
    + multiset(InHand(s))[w]
  }

  lemma OccurrencesCount(s: State, w: Work)
    ensures AllWork(s)[w] == Occurrences(s, w)
  {
  }

  lemma SameOccurrences(s: State, t: State)
    requires forall w :: Occurrences(t, w) == Occurrences(s, w)
    ensures AllWork(t) == AllWork(s)
  {
    hide Occurrences, AllWork;
    forall w
      ensures AllWork(t)[w] == AllWork(s)[w]
    {
      OccurrencesCount(s, w);
      OccurrencesCount(t, w);
    }
  }

  lemma HeadCount<T>(q: seq<T>, x: T)
    requires q != []
    ensures multiset(q)[x] == multiset(q[1..])[x] + if x == q[0] then 1 else 0
  {
    HeadAndRest(q);
  }

  lemma LastCount<T>(q: seq<T>, y: T, x: T)
    ensures multiset(q + [y])[x] == multiset(q)[x] + if x == y then 1 else 0
  {
    assert multiset(q + [y]) == multiset(q) + multiset{y};
  }

  lemma HandCount(s: State, w: Work)
    ensures multiset(InHand(s))[w] == multiset(InScan(s.descriptor))[w] + multiset(InTransaction(s.transactor))[w]
  {
    assert multiset(InHand(s)) == multiset(InScan(s.descriptor)) + multiset(InTransaction(s.transactor));
  }

  lemma ScanTaken(s: State, t: State)
    requires s.scanRequests != [] && t.scanRequests == s.scanRequests[1..]
    requires InScan(s.descriptor) == [] && InScan(t.descriptor) == [s.scanRequests[0]] && t.transactor == s.transactor
    requires t.scanResults == s.scanResults && t.transactions == s.transactions && t.transactionResults == s.transactionResults
    ensures AllWork(t) == AllWork(s)
  {
    hide AllWork, InHand, InScan, InTransaction;
    forall w
      ensures Occurrences(t, w) == Occurrences(s, w)
    {
      HandCount(s, w);
      HandCount(t, w);
      HeadCount(s.scanRequests, w);
    }
    SameOccurrences(s, t);
  }

  lemma ScanReported(s: State, t: State)
    requires InScan(s.descriptor) != [] && t.scanResults == s.scanResults + InScan(s.descriptor)
    requires InScan(t.descriptor) == [] && t.transactor == s.transactor
    requires t.scanRequests == s.scanRequests && t.transactions == s.transactions && t.transactionResults == s.transactionResults
    ensures AllWork(t) == AllWork(s)
  {
    var w0 := InScan(s.descriptor)[0];
    assert InScan(s.descriptor) == [w0];
    hide AllWork, InHand, InScan, InTransaction;
    forall w
      ensures Occurrences(t, w) == Occurrences(s, w)
    {
      HandCount(s, w);
      HandCount(t, w);
      LastCount(s.scanResults, w0, w);
    }
    SameOccurrences(s, t);
  }

  lemma TransactionTaken(s: State, t: State)
    requires s.transactions != [] && t.transactions == s.transactions[1..]
    requires InTransaction(s.transactor) == [] && InTransaction(t.transactor) == [s.transactions[0]] && t.descriptor == s.descriptor
    requires t.scanRequests == s.scanRequests && t.scanResults == s.scanResults && t.transactionResults == s.transactionResults
    ensures AllWork(t) == AllWork(s)
  {
    hide AllWork, InHand, InScan, InTransaction;
    forall w
      ensures Occurrences(t, w) == Occurrences(s, w)
    {
      HandCount(s, w);
      HandCount(t, w);
      HeadCount(s.transactions, w);
    }
    SameOccurrences(s, t);
  }

  lemma TransactionReported(s: State, t: State)
    requires InTransaction(s.transactor) != [] && t.transactionResults == s.transactionResults + InTransaction(s.transactor)
    requires InTransaction(t.transactor) == [] && t.descriptor == s.descriptor
    requires t.scanRequests == s.scanRequests && t.scanResults == s.scanResults && t.transactions == s.transactions
    ensures AllWork(t) == AllWork(s)
  {
    var w0 := InTransaction(s.transactor)[0];
    assert InTransaction(s.transactor) == [w0];
    hide AllWork, InHand, InScan, InTransaction;
    forall w
      ensures Occurrences(t, w) == Occurrences(s, w)
    {
      HandCount(s, w);
      HandCount(t, w);
      LastCount(s.transactionResults, w0, w);
    }
    SameOccurrences(s, t);
  }

  lemma DescribeKeepsExclusive(s: State, step: Step)
    requires Exclusive(s) && Enabled(s, step) && (step.MarkEligible? || step.Describe?)
    ensures Exclusive(Apply(s, step))
  {
    hide AllWork, Exclusive;
    var w := s.descriptor.work;
    var t := Apply(s, step);
    InHandIsWork(s, w);
    OwnerHasHandle(s, w);
    SameHandsSameWork(s, t);
    var d := s.slots[w.slot];
    if step.MarkEligible? {
      assert t.slots == s.slots[w.slot := d.(isAccessport := d.isAccessport, eligible := true)];
    } else {
      assert t.slots == s.slots[w.slot := d.(isAccessport := step.isAccessport, eligible := d.eligible)];
    }
    DescribedKeepsExclusive(s, t, w.slot);
  }

  lemma OwnerHasHandle(s: State, w: Work)
    requires Exclusive(s) && w in AllWork(s)
    ensures Owns(s, w) && s.slots[w.slot].handle != 0 && s.slots[w.slot].scanning
  {
    hide AllWork;
  }

  /** The steps of the two worker tasks and of the callers hand work on. */
  lemma WorkerStepKeepsExclusive(s: State, step: Step)
    requires Exclusive(s) && Enabled(s, step)
    requires step.TakeControl? || step.RejectScan? || step.CountDevices? || step.CountAgain? || step.SetLatch?
             || step.CheckTransaction? || step.CheckCount? || step.StartTransaction? || step.FinishTransaction? || step.Request?
    ensures Exclusive(Apply(s, step))
  {
    hide AllWork, Eligible, Exclusive;
    var t := Apply(s, step);
    SameHandsSameWork(s, t);
    SlotsSameKeepsExclusive(s, t);
  }

  lemma StepKeepsExclusive(s: State, step: Step)
    requires Exclusive(s) && Enabled(s, step)
    ensures Exclusive(Apply(s, step))
  {
    hide Exclusive, Apply;
    match step {
      case OpenDevice(i, newHandle) => OpenKeepsExclusive(s, i, newHandle);
      case DispatchControl => DispatchKeepsExclusive(s);
      case CollectScan => CollectKeepsExclusive(s, step);
      case CollectTransaction => CollectKeepsExclusive(s, step);
      case NewDevice(_) => ClientStepKeepsExclusive(s, step);
      case DeviceGone(_) => ClientStepKeepsExclusive(s, step);
      case CloseBegin(_) => ClientStepKeepsExclusive(s, step);
      case CloseClear => ClientStepKeepsExclusive(s, step);
      case CloseFinish => ClientStepKeepsExclusive(s, step);
      case MarkEligible => DescribeKeepsExclusive(s, step);
      case Describe(_) => DescribeKeepsExclusive(s, step);
      case TakeScan => HandOverKeepsExclusive(s, step);
      case ReportScan => HandOverKeepsExclusive(s, step);
      case TakeTransaction => HandOverKeepsExclusive(s, step);
      case ReportTransaction => HandOverKeepsExclusive(s, step);
      case _ => WorkerStepKeepsExclusive(s, step);
    }
  }

  lemma HandOverKeepsExclusive(s: State, step: Step)
    requires Exclusive(s) && Enabled(s, step)
    requires step.TakeScan? || step.ReportScan? || step.TakeTransaction? || step.ReportTransaction?
    ensures Exclusive(Apply(s, step))
  {
    hide AllWork, Exclusive, Eligible;
    var t := Apply(s, step);
    if step.TakeScan? {
      ScanTaken(s, t);
    } else if step.ReportScan? {
      ScanReported(s, t);
    } else if step.TakeTransaction? {
      TransactionTaken(s, t);
    } else {
      TransactionReported(s, t);
    }
    SlotsSameKeepsExclusive(s, t);
  }

  lemma StartExclusive()
    ensures Exclusive(START)
  {
    hide AllWork;
    assert AllWork(START) == multiset{} by {
      NothingAtStart();
    }
  }

  lemma NothingAtStart()
    ensures AllWork(START) == multiset{}
  {
  }

  // ---- The conflict latch ------------------------------------------------------------------

  /** The scan at hand has marked its device and is still to count the devices and set the latch. */
  predicate Marking(d: Descriptor) {
    d.Marked? || d.Conflicting? || d.Latching?
  }

  /** Two eligible devices imply the latch, but for the moment between marking one and latching. */
  predicate TwoLatch(s: State) {
    |Eligible(s.slots)| >= 2 ==> s.latched || Marking(s.descriptor)
  }

  lemma {:induction false} SubsetCount(a: set<nat>, b: set<nat>)
    requires a <= b
    ensures |a| <= |b|
  {
    if a != {} {
      var x :| x in a;
      SubsetCount(a - {x}, b - {x});
    }
  }

  /** Nothing that lets go of devices, and of nothing else, can break the rule. */
  lemma FewerDevices(s: State, t: State)
    requires TwoLatch(s) && Eligible(t.slots) <= Eligible(s.slots)
    requires (s.latched ==> t.latched) && (Marking(s.descriptor) ==> Marking(t.descriptor))
    ensures TwoLatch(t)
  {
    hide Eligible, Marking;
    SubsetCount(Eligible(t.slots), Eligible(s.slots));
  }

  lemma EligibleAfterUpdate(slots: seq<Slot>, i: nat, d: Slot)
    requires i < |slots|
    ensures Eligible(slots[i := d]) == Eligible(slots) - {i} + (if Counts(d) then {i} else {})
    ensures i in Eligible(slots) <==> Counts(slots[i])
  {
  }

  /** A slot may stop counting. */
  lemma SlotChangeKeepsLatch(s: State, t: State, i: nat, d: Slot)
    requires TwoLatch(s) && i < |s.slots| && t.slots == s.slots[i := d]
    requires Counts(d) ==> Counts(s.slots[i])
    requires t.latched == s.latched && (Marking(s.descriptor) ==> Marking(t.descriptor))
    ensures TwoLatch(t)
  {
    hide Eligible, TwoLatch, Counts, Marking;
    EligibleAfterUpdate(s.slots, i, d);
    FewerDevices(s, t);
  }

  lemma ClientStepKeepsLatch(s: State, step: Step)
    requires SlotsSound(s) && TwoLatch(s) && Enabled(s, step)
    requires step.NewDevice? || step.DeviceGone? || step.CloseBegin? || step.CloseFinish?
    ensures TwoLatch(Apply(s, step))
  {
    hide Eligible, TwoLatch;
    var t := Apply(s, step);
    var i := SlotOf(s, step);
    SlotChangeKeepsLatch(s, t, i, t.slots[i]);
  }

  lemma OpenKeepsLatch(s: State, i: nat, newHandle: nat)
    requires SlotsSound(s) && TwoLatch(s) && Enabled(s, OpenDevice(i, newHandle))
    ensures TwoLatch(Apply(s, OpenDevice(i, newHandle)))
  {
    hide Eligible, TwoLatch;
    var t := Apply(s, OpenDevice(i, newHandle));
    SlotChangeKeepsLatch(s, t, i, t.slots[i]);
  }

  lemma CollectKeepsLatch(s: State, step: Step)
    requires TwoLatch(s) && Enabled(s, step) && (step.CollectScan? || step.CollectTransaction?)
    ensures TwoLatch(Apply(s, step))
  {
    hide Eligible, TwoLatch;
    var t := Apply(s, step);
    var i := (if step.CollectScan? then s.scanResults[0] else s.transactionResults[0]).slot;
    SlotChangeKeepsLatch(s, t, i, t.slots[i]);
  }

  lemma DescribeKeepsLatch(s: State, step: Step)
    requires TwoLatch(s) && Enabled(s, step) && step.Describe?
    ensures TwoLatch(Apply(s, step))
  {
    hide Eligible, TwoLatch;
    var t := Apply(s, step);
    var i := s.descriptor.work.slot;
    SlotChangeKeepsLatch(s, t, i, t.slots[i]);
  }

  /** Each count that ends the marking without the latch has just seen fewer than two devices. */
  lemma CountKeepsLatch(s: State, step: Step)
    requires TwoLatch(s) && Enabled(s, step)
    requires step.MarkEligible? || step.CountDevices? || step.CountAgain? || step.SetLatch? || step.CloseClear?
    ensures TwoLatch(Apply(s, step))
  {
    hide Eligible;
  }

  /** What a dispatch does to the slots. */
  lemma DispatchSlots(s: State, kind: RequestKind) returns (i: nat)
    requires |s.slots| > 0
    ensures var t := ApplyDispatch(s, kind);
            && i < |s.slots| && t.client == ClientIdle
            && (t.slots == s.slots[i := s.slots[i]] || t.slots == s.slots[i := s.slots[i].(scanning := true)])
            && t.latched == s.latched && t.descriptor == s.descriptor
  {
    hide Eligible, Busy;
    i := FirstUsable(s.slots, 0);
    if i == |s.slots| {
      i := 0;
    }
    assert s.slots == s.slots[i := s.slots[i]];
  }

  lemma DispatchKeepsLatch(s: State)
    requires TwoLatch(s) && Enabled(s, DispatchControl)
    ensures TwoLatch(Apply(s, DispatchControl))
  {
    hide ApplyDispatch, TwoLatch, Eligible;
    var t := ApplyDispatch(s, s.client.request);
    if s.slots == [] {
      NoSlots(s);
    } else {
      var i := DispatchSlots(s, s.client.request);
      SlotChangeKeepsLatch(s, t, i, t.slots[i]);
    }
  }

  lemma NoSlots(s: State)
    requires s.slots == [] && Enabled(s, DispatchControl)
    ensures TwoLatch(Apply(s, DispatchControl))
  {
    assert Eligible([]) == {};
  }

  lemma OtherStepKeepsLatch(s: State, step: Step)
    requires TwoLatch(s) && Enabled(s, step)
    requires step.TakeControl? || step.TakeTransaction? || step.CheckTransaction? || step.CheckCount?
             || step.StartTransaction? || step.FinishTransaction? || step.ReportTransaction? || step.Request? || step.TakeScan?
             || step.ReportScan? || step.RejectScan?
    ensures TwoLatch(Apply(s, step))
  {
    hide Eligible, Refuses, TwoLatch;
    var t := Apply(s, step);
    assert t.slots == s.slots && t.latched == s.latched;
    FewerDevices(s, t);
  }

  lemma StepKeepsTwoLatch(s: State, step: Step)
    requires SlotsSound(s) && TwoLatch(s) && Enabled(s, step)
    ensures TwoLatch(Apply(s, step))
  {
    hide Apply, TwoLatch, SlotsSound;
    match step {
      case DispatchControl => DispatchKeepsLatch(s);
      case Describe(_) => DescribeKeepsLatch(s, step);
      case MarkEligible => CountKeepsLatch(s, step);
      case CountDevices => CountKeepsLatch(s, step);
      case CountAgain => CountKeepsLatch(s, step);
      case SetLatch => CountKeepsLatch(s, step);
      case CloseClear => CountKeepsLatch(s, step);
      case NewDevice(_) => ClientStepKeepsLatch(s, step);
      case DeviceGone(_) => ClientStepKeepsLatch(s, step);
      case OpenDevice(i, newHandle) => OpenKeepsLatch(s, i, newHandle);
      case CloseBegin(_) => ClientStepKeepsLatch(s, step);
      case CloseFinish => ClientStepKeepsLatch(s, step);
      case CollectScan => CollectKeepsLatch(s, step);
      case CollectTransaction => CollectKeepsLatch(s, step);
      case _ => OtherStepKeepsLatch(s, step);
    }
  }
}
