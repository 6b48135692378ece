/** The application policy: when an attached device is synchronised without being asked, and how often. */
module Application {
  import opened DeviceService
  import opened SyncCoordinator

  const RETRY_LIMIT: nat := 1

  /** The application's own flags and its retry counter. */
  datatype Flags = Flags(
    autoSyncOnAttach: bool,
    retryUncleanClose: bool,
    previousState: DeviceState,
    autoAttempted: bool,
    preserveAttachment: bool,
    recoveryAttempted: bool,
    disarmedByConflict: bool,
    autoActive: bool,
    retryEligible: bool,
    retryCount: nat)

  datatype App = App(device: DeviceSnapshot, sync: SyncSnapshot, flags: Flags)

  /** What can be seen from outside: requests handed to the transport with its answer, and reported changes. */
  datatype Observed =
    | AutoRequest(accepted: bool)
    | ManualRequest(accepted: bool)
    | RecoveryRequest(accepted: bool)
    | OperationEnded
    | PhysicalChange
    | ConflictReported

  datatype Step = Step(app: App, log: seq<Observed>)

  /** One call into the application; answer is what the transport says if it is asked. */
  datatype Call =
    | OnDevice(deviceEvent: DeviceEvent)
    | OnSync(syncEvent: SyncEvent)
    | RequestSync
    | RetryAutoSync
    | CancelSync
    | SetPolicy(autoSync: bool)

  function Booted(autoSync: bool, retryUncleanClose: bool): App {
    App(NO_DEVICE, NO_SYNC, Flags(autoSync, retryUncleanClose, Stopped, false, false, false, false, false, false, 0))
  }

  // ---- Automatic requests ------------------------------------------------------------

  function RequestAutomatic(app: App, retry: bool, answer: SyncStatus): Step {
    var r := RequestSpec(app.sync, false, answer);
    var counted := app.flags.(retryCount := if retry then app.flags.retryCount + 1 else app.flags.retryCount);
    Step(
      App(app.device, r.snapshot,
          if r.status == SyncOk then
            counted.(autoAttempted := true, autoActive := true, retryEligible := false, recoveryAttempted := false)
          else counted.(retryEligible := !retry)),
      if IsActive(app.sync.state) then [] else [AutoRequest(r.status == SyncOk)])
  }

  /** A fresh attachment forgets what was tried for the last one. */
  function FreshAttachment(flags: Flags): Flags {
    flags.(autoAttempted := false, autoActive := false, retryEligible := false, retryCount := 0)
  }

  predicate ForgetsAttempts(app: App) {
    && (app.device.state == Waiting || (app.device.state == Inspecting && app.flags.previousState == Waiting))
    && !app.flags.preserveAttachment && !app.flags.disarmedByConflict
  }

  function Seen(app: App): App {
    var flags := if ForgetsAttempts(app) then FreshAttachment(app.flags) else app.flags;
    app.(flags := flags.(previousState := app.device.state))
  }

  function EndAttachment(app: App): App {
    app.(flags := app.flags.(preserveAttachment := false))
  }

  /** The device service reports its new snapshot, already stored in app.device. */
  function OnSnapshot(app: App, answer: SyncStatus): Step {
    var seen := Seen(app);
    var arrived := app.device.state == Available && app.flags.previousState == Inspecting;
    var step := if arrived && seen.flags.autoSyncOnAttach && !seen.flags.autoAttempted
                then RequestAutomatic(seen, false, answer) else Step(seen, []);
    if arrived then step.(app := EndAttachment(step.app)) else step
  }

  function OnConflict(app: App, answer: SyncStatus): App {
    App(app.device, CancelSpec(app.sync, answer).snapshot,
        app.flags.(preserveAttachment := false, autoAttempted := true, autoActive := false, retryEligible := false,
                   disarmedByConflict := true))
  }

  function Preserve(app: App, event: DeviceEvent): App {
    if event.kind == Detached || event.kind == Attached 
    then app.(flags := app.flags.(preserveAttachment := event.softwareReenumeration)) else app
  }

  function DeviceStep(app: App, event: DeviceEvent, answer: SyncStatus): Step {
    if Outdated(event, app.device) then Step(app, [])
    else
      var conflicted := if event.kind == MultipleDetected then OnConflict(app, answer) else app;
      var marked := Preserve(conflicted, event);
      var handled := HandleDeviceSpec(marked.device, event);
      var log := if event.kind == MultipleDetected then [ConflictReported] else [];
      if handled.status != CoreOk then Step(marked, log)
      else
        var step := OnSnapshot(marked.(device := handled.snapshot), answer);
        Step(step.app, log + PhysicalLog(event) + step.log)
  }

  function PhysicalLog(event: DeviceEvent): seq<Observed> {
    if (event.kind == Attached || event.kind == Detached) && !event.softwareReenumeration then [PhysicalChange] else []
  }

  // ---- Manual requests, retries, sync events -------------------------------------------

  function ManualStep(app: App, answer: SyncStatus): Step {
    if app.device.state != Available then Step(app, [])
    else
      var r := RequestSpec(app.sync, false, answer);
      Step(
        if r.status == SyncOk then
          App(app.device, r.snapshot,
              app.flags.(autoAttempted := true, autoActive := false, retryEligible := false,
                         disarmedByConflict := false, recoveryAttempted := false))
        else app,
        if IsActive(app.sync.state) then [] else [ManualRequest(r.status == SyncOk)])
  }

  predicate RetryNeeded(app: App) {
    && app.flags.autoSyncOnAttach && !app.flags.disarmedByConflict && app.flags.retryEligible && app.flags.retryCount < RETRY_LIMIT
    && app.device.state == Available && !app.device.conflictRecoveryRequired && !IsActive(app.sync.state)
  }

  /** The failed automatic sync moved no data, so one retry is allowed. */
  predicate RetryEarned(app: App, event: SyncEvent) {
    && event.kind == EventFailed && app.flags.autoActive && !event.report.closeRecoveryAttempt
    && !event.report.dataPhaseCompleted && event.report.downloaded == 0 && event.report.downloadedBytes == 0
    && app.flags.retryCount < RETRY_LIMIT
  }

  function FlagsAfter(app: App, event: SyncEvent): Flags {
    if RetryEarned(app, event) then app.flags.(retryEligible := true)
    else if IsTerminal(event.kind) then app.flags.(autoActive := false, retryEligible := false)
    else app.flags
  }

  predicate RecoverableClose(event: SyncEvent) {
    event.kind == EventFailed && !event.report.closeRecoveryAttempt && event.report.dataPhaseCompleted
    && !event.report.sessionCloseAcknowledged
  }

  predicate WantsRecovery(app: App, event: SyncEvent) {
    && app.flags.retryUncleanClose && RecoverableClose(event) && !app.flags.recoveryAttempted
    && app.device.state == Available && !app.device.conflictRecoveryRequired
  }

  function SyncStep(app: App, event: SyncEvent, answer: SyncStatus): Step {
    var handled := EventSpec(app.sync, event);
    if handled.status != SyncOk then Step(app, [])
    else
      var noted := App(app.device, handled.snapshot, FlagsAfter(app, event));
      var log := if IsTerminal(event.kind) then [OperationEnded] else [];
      if !WantsRecovery(noted, event) then Step(noted, log)
      else
        var r := RequestSpec(noted.sync, true, answer);
        Step(App(noted.device, r.snapshot, noted.flags.(recoveryAttempted := true)), log + [RecoveryRequest(r.status == SyncOk)])
  }

  function CallStep(app: App, call: Call, answer: SyncStatus): Step {
    match call
    case OnDevice(event) => DeviceStep(app, event, answer)
    case OnSync(event) => SyncStep(app, event, answer)
    case RequestSync => ManualStep(app, answer)
    case RetryAutoSync => if RetryNeeded(app) then RequestAutomatic(app, true, answer) else Step(app, [])
    case CancelSync => Step(app.(sync := CancelSpec(app.sync, answer).snapshot), [])
    case SetPolicy(autoSync) =>
      Step(app.(flags := if autoSync then app.flags.(autoSyncOnAttach := true)
                         else app.flags.(autoSyncOnAttach := false, autoActive := false, retryEligible := false)), [])
  }

  datatype Turn = Turn(call: Call, answer: SyncStatus)

  /** A run of calls with the transport's answers; the log grows at the end. */
  function Run(app: App, turns: seq<Turn>): Step {
    if turns == [] then Step(app, [])
    else
      var before := Run(app, turns[..|turns| - 1]);
      var last := turns[|turns| - 1];
      var step := CallStep(before.app, last.call, last.answer);
      Step(step.app, before.log + step.log)
  }

  // ---- Counting over the log ---------------------------------------------------------

  /** Accepted automatic requests since the last physical change. */
  function AutosSinceChange(log: seq<Observed>): nat {
    if log == [] then 0
    else
      match log[|log| - 1]
      case PhysicalChange => 0
      case AutoRequest(accepted) => AutosSinceChange(log[..|log| - 1]) + if accepted then 1 else 0
      case _ => AutosSinceChange(log[..|log| - 1])
  }

  function Autos(log: seq<Observed>): nat {
    if log == [] then 0 else Autos(log[..|log| - 1]) + if log[|log| - 1] == AutoRequest(true) then 1 else 0
  }

  /** The last conflict reported has not been answered by an accepted manual request. */
  predicate Unanswered(log: seq<Observed>) {
    log != [] &&
    match log[|log| - 1]
    case ConflictReported => true
    case ManualRequest(accepted) => !accepted && Unanswered(log[..|log| - 1])
    case _ => Unanswered(log[..|log| - 1])
  }

  function Requests(log: seq<Observed>): nat {
    if log == [] then 0
    else Requests(log[..|log| - 1])
         + if log[|log| - 1] in {AutoRequest(true), ManualRequest(true)} then 1 else 0
  }

  function Recoveries(log: seq<Observed>): nat {
    if log == [] then 0 else Recoveries(log[..|log| - 1]) + if log[|log| - 1].RecoveryRequest? then 1 else 0
  }

  /** Operations the transport took on, less the ends reported: the number still open. */
  function Open(log: seq<Observed>): int {
    if log == [] then 0
    else Open(log[..|log| - 1])
         + match log[|log| - 1]
           case AutoRequest(accepted) => if accepted then 1 else 0
           case ManualRequest(accepted) => if accepted then 1 else 0
           case RecoveryRequest(accepted) => if accepted then 1 else 0
           case OperationEnded => -1
           case _ => 0
  }

  // ---- The invariant tying the state to the log ------------------------------------------

  predicate Consistent(app: App, log: seq<Observed>) {
    && DeviceValid(app.device)
    && app.flags.previousState == app.device.state
    && app.flags.retryCount <= RETRY_LIMIT
    && AutosSinceChange(log) <= (if app.flags.autoAttempted then 1 else 0) + app.flags.retryCount
    && (app.device.state == Stopped ==> AutosSinceChange(log) == 0)
    && (app.flags.disarmedByConflict <==> Unanswered(log))
    && (app.flags.disarmedByConflict ==> app.flags.autoAttempted)
    && Recoveries(log) <= Requests(log)
    && (Requests(log) > 0 && !app.flags.recoveryAttempted ==> Recoveries(log) < Requests(log))
    && (Requests(log) == 0 ==> !app.flags.recoveryAttempted && !IsActive(app.sync.state))
    && Open(log) == (if IsActive(app.sync.state) then 1 else 0)
  }

  /** What must hold before an event may be appended to the log. */
  predicate SafeNext(log: seq<Observed>, o: Observed) {
    match o
    case AutoRequest(accepted) => !Unanswered(log) && (accepted ==> AutosSinceChange(log) <= RETRY_LIMIT && Open(log) == 0)
    case ManualRequest(accepted) => accepted ==> Open(log) == 0
    case RecoveryRequest(accepted) => Recoveries(log) < Requests(log) && (accepted ==> Open(log) == 0)
    case OperationEnded => Open(log) == 1
    case _ => true
  }

  predicate SafeFrom(log: seq<Observed>, tail: seq<Observed>)
    decreases |tail|
  {
    tail == [] || (SafeNext(log, tail[0]) && SafeFrom(log + [tail[0]], tail[1..]))
  }

  lemma SafeOne(log: seq<Observed>, o: Observed)
    requires SafeNext(log, o)
    ensures SafeFrom(log, [o])
  {
    assert SafeFrom(log + [o], []);
  }

  lemma {:induction false} SafeJoin(log: seq<Observed>, first: seq<Observed>, second: seq<Observed>)
    requires SafeFrom(log, first) && SafeFrom(log + first, second)
    ensures SafeFrom(log, first + second)
    decreases |first|
  {
    hide SafeNext;
    if first == [] {
      assert first + second == second && log + first == log;
    } else {
      assert (log + [first[0]]) + first[1..] == log + first;
      assert (first + second)[1..] == first[1..] + second;
      SafeJoin(log + [first[0]], first[1..], second);
    }
  }

  lemma LogOne(log: seq<Observed>, o: Observed)
    ensures var grown := log + [o];
            && AutosSinceChange(grown) == (if o == PhysicalChange then 0
                                           else AutosSinceChange(log) + if o == AutoRequest(true) then 1 else 0)
            && Autos(grown) == Autos(log) + (if o == AutoRequest(true) then 1 else 0)
            && (Unanswered(grown) <==> o == ConflictReported || (o != ManualRequest(true) && Unanswered(log)))
            && Requests(grown) == Requests(log) + (if o in {AutoRequest(true), ManualRequest(true)} then 1 else 0)
            && Recoveries(grown) == Recoveries(log) + (if o.RecoveryRequest? then 1 else 0)
            && Open(grown) == Open(log) + (if o in {AutoRequest(true), ManualRequest(true), RecoveryRequest(true)} then 1
                                           else if o == OperationEnded then -1 else 0)
  {
    assert (log + [o])[..|log|] == log;
  }

  lemma BootConsistent(autoSync: bool, retryUncleanClose: bool)
    ensures Consistent(Booted(autoSync, retryUncleanClose), [])
  {
  }

  /** A step keeps the invariant and appends only what is safe. */
  predicate Keeps(step: Step, log: seq<Observed>) {
    Consistent(step.app, log + step.log) && SafeFrom(log, step.log)
  }

  lemma QuietKeeps(step: Step, log: seq<Observed>)
    requires step.log == [] && Consistent(step.app, log)
    ensures Keeps(step, log)
  {
    assert log + [] == log;
  }

  lemma OneKeeps(step: Step, log: seq<Observed>, o: Observed)
    requires step.log == [o] && SafeNext(log, o) && Consistent(step.app, log + [o])
    ensures Keeps(step, log)
  {
    SafeOne(log, o);
  }

  lemma TwoKeep(first: Step, second: Step, step: Step, log: seq<Observed>)
    requires Keeps(first, log) && Keeps(second, log + first.log)
    requires step.app == second.app && step.log == first.log + second.log
    ensures Keeps(step, log)
  {
    SafeJoin(log, first.log, second.log);
    assert log + (first.log + second.log) == (log + first.log) + second.log;
  }

  lemma AutomaticKeeps(app: App, retry: bool, answer: SyncStatus, log: seq<Observed>)
    requires Consistent(app, log) && !app.flags.disarmedByConflict && app.device.state == Available
    requires if retry then app.flags.retryCount < RETRY_LIMIT else !app.flags.autoAttempted
    ensures Keeps(RequestAutomatic(app, retry, answer), log)
  {
    hide AutosSinceChange, Unanswered, Requests, Recoveries, Open, DeviceValid, SafeFrom, Keeps;
    var step := RequestAutomatic(app, retry, answer);
    if step.log == [] {
      QuietKeeps(step, log);
    } else {
      LogOne(log, step.log[0]);
      OneKeeps(step, log, step.log[0]);
    }
  }

  lemma ManualKeeps(app: App, answer: SyncStatus, log: seq<Observed>)
    requires Consistent(app, log)
    ensures Keeps(ManualStep(app, answer), log)
  {
    hide AutosSinceChange, Unanswered, Requests, Recoveries, Open, DeviceValid, SafeFrom, Keeps;
    var step := ManualStep(app, answer);
    if step.log == [] {
      QuietKeeps(step, log);
    } else {
      LogOne(log, step.log[0]);
      OneKeeps(step, log, step.log[0]);
    }
  }

  /** The event itself, before any close recovery. */
  function NoteEvent(app: App, event: SyncEvent): Step {
    var handled := EventSpec(app.sync, event);
    Step(App(app.device, handled.snapshot, FlagsAfter(app, event)), if IsTerminal(event.kind) then [OperationEnded] else [])
  }

  lemma NoteKeeps(app: App, event: SyncEvent, log: seq<Observed>)
    requires Consistent(app, log) && EventSpec(app.sync, event).status == SyncOk
    ensures Keeps(NoteEvent(app, event), log)
    ensures RecoverableClose(event) ==> !IsActive(NoteEvent(app, event).app.sync.state)
    ensures Requests(log + NoteEvent(app, event).log) > 0
  {
    hide AutosSinceChange, Unanswered, Requests, Recoveries, Open, DeviceValid, SafeFrom, Keeps;
    var step := NoteEvent(app, event);
    if step.log == [] {
      QuietKeeps(step, log);
      EmptyTail(log);
    } else {
      LogOne(log, OperationEnded);
      OneKeeps(step, log, OperationEnded);
    }
  }

  lemma EmptyTail(log: seq<Observed>)
    ensures log + [] == log
  {
  }

  function Recover(app: App, answer: SyncStatus): Step {
    var r := RequestSpec(app.sync, true, answer);
    Step(App(app.device, r.snapshot, app.flags.(recoveryAttempted := true)), [RecoveryRequest(r.status == SyncOk)])
  }

  lemma RecoverKeeps(app: App, answer: SyncStatus, log: seq<Observed>)
    requires Consistent(app, log) && !app.flags.recoveryAttempted && !IsActive(app.sync.state) && Requests(log) > 0
    ensures Keeps(Recover(app, answer), log)
  {
    hide AutosSinceChange, Unanswered, Requests, Recoveries, Open, DeviceValid, SafeFrom, Keeps;
    var step := Recover(app, answer);
    LogOne(log, step.log[0]);
    OneKeeps(step, log, step.log[0]);
  }

  lemma SyncKeeps(app: App, event: SyncEvent, answer: SyncStatus, log: seq<Observed>)
    requires Consistent(app, log)
    ensures Keeps(SyncStep(app, event, answer), log)
  {
    hide Consistent, Keeps, Requests, IsActive, EventSpec;
    var step := SyncStep(app, event, answer);
    if EventSpec(app.sync, event).status != SyncOk {
      QuietKeeps(step, log);
    } else {
      var noted := NoteEvent(app, event);
      NoteKeeps(app, event, log);
      if WantsRecovery(noted.app, event) {
        KeptIsConsistent(noted, log);
        RecoverKeeps(noted.app, answer, log + noted.log);
        TwoKeep(noted, Recover(noted.app, answer), step, log);
      }
    }
  }

  lemma KeptIsConsistent(step: Step, log: seq<Observed>)
    requires Keeps(step, log)
    ensures Consistent(step.app, log + step.log)
  {
  }

  // ---- Device events -------------------------------------------------------------------------

  /** The flags a device event sets before the device service sees it. */
  function MarkStep(app: App, event: DeviceEvent, answer: SyncStatus): Step {
    var conflicted := if event.kind == MultipleDetected then OnConflict(app, answer) else app;
    Step(Preserve(conflicted, event), if event.kind == MultipleDetected then [ConflictReported] else [])
  }

  lemma MarkKeeps(app: App, event: DeviceEvent, answer: SyncStatus, log: seq<Observed>)
    requires Consistent(app, log)
    ensures Keeps(MarkStep(app, event, answer), log)
  {
    hide AutosSinceChange, Unanswered, Requests, Recoveries, Open, DeviceValid, SafeFrom, Keeps;
    var step := MarkStep(app, event, answer);
    if step.log == [] {
      QuietKeeps(step, log);
    } else {
      LogOne(log, ConflictReported);
      OneKeeps(step, log, ConflictReported);
    }
  }

  /** The snapshot's bookkeeping, before an arriving device is synchronised. */
  function SeenStep(app: App, event: DeviceEvent, next: DeviceSnapshot): Step {
    var moved := app.(device := next);
    Step(Seen(moved), PhysicalLog(event))
  }

  /** Attempts are forgotten only at a physical change, or when monitoring starts and nothing was requested yet. */
  lemma SeenKeeps(app: App, event: DeviceEvent, log: seq<Observed>)
    requires Consistent(app, log) && HandleDeviceSpec(app.device, event).status == CoreOk
    requires event.kind in {Attached, Detached} ==> app.flags.preserveAttachment == event.softwareReenumeration
    ensures Keeps(SeenStep(app, event, HandleDeviceSpec(app.device, event).snapshot), log)
  {
    hide AutosSinceChange, Unanswered, Requests, Recoveries, Open, SafeFrom, Keeps;
    var next := HandleDeviceSpec(app.device, event).snapshot;
    var step := SeenStep(app, event, next);
    DeviceEventKeepsValid(app.device, event);
    if step.log == [] {
      QuietKeeps(step, log);
    } else {
      LogOne(log, PhysicalChange);
      OneKeeps(step, log, PhysicalChange);
    }
  }

  lemma ArrivalKeeps(app: App, next: DeviceSnapshot, previous: DeviceState, answer: SyncStatus, log: seq<Observed>)
    requires Consistent(app, log) && app.device == next
    ensures var arrived := next.state == Available && previous == Inspecting;
            var step := if arrived && app.flags.autoSyncOnAttach && !app.flags.autoAttempted
                        then RequestAutomatic(app, false, answer) else Step(app, []);
            Keeps(if arrived then step.(app := EndAttachment(step.app)) else step, log)
  {
    hide AutosSinceChange, Unanswered, Requests, Recoveries, Open, SafeFrom, DeviceValid;
    if next.state == Available && previous == Inspecting && app.flags.autoSyncOnAttach && !app.flags.autoAttempted {
      AutomaticKeeps(app, false, answer, log);
    } else {
      QuietKeeps(Step(app, []), log);
    }
  }

  lemma DeviceKeeps(app: App, event: DeviceEvent, answer: SyncStatus, log: seq<Observed>)
    requires Consistent(app, log)
    ensures Keeps(DeviceStep(app, event, answer), log)
  {
    hide Consistent, Keeps, HandleDeviceSpec, RequestAutomatic, CancelSpec, ForgetsAttempts;
    var step := DeviceStep(app, event, answer);
    if Outdated(event, app.device) {
      QuietKeeps(step, log);
    } else {
      var marked := MarkStep(app, event, answer);
      MarkKeeps(app, event, answer, log);
      KeptIsConsistent(marked, log);
      var handled := HandleDeviceSpec(marked.app.device, event);
      if handled.status == CoreOk {
        var seen := SeenStep(marked.app, event, handled.snapshot);
        SeenKeeps(marked.app, event, log + marked.log);
        KeptIsConsistent(seen, log + marked.log);
        ArrivalKeeps(seen.app, handled.snapshot, marked.app.flags.previousState, answer, (log + marked.log) + seen.log);
        var last := OnSnapshot(marked.app.(device := handled.snapshot), answer);
        TwoKeep(seen, last, Step(last.app, seen.log + last.log), log + marked.log);
        TwoKeep(marked, Step(last.app, seen.log + last.log), step, log);
      }
    }
  }

  // ---- Every run -------------------------------------------------------------------------------

  lemma CallKeeps(app: App, call: Call, answer: SyncStatus, log: seq<Observed>)
    requires Consistent(app, log)
    ensures Keeps(CallStep(app, call, answer), log)
  {
    hide AutosSinceChange, Unanswered, Requests, Recoveries, Open, SafeFrom, DeviceValid, Keeps, DeviceStep, SyncStep, ManualStep,
         RequestAutomatic;
    match call {
      case OnDevice(event) => DeviceKeeps(app, event, answer, log);
      case OnSync(event) => SyncKeeps(app, event, answer, log);
      case RequestSync => ManualKeeps(app, answer, log);
      case RetryAutoSync =>
        if RetryNeeded(app) {
          AutomaticKeeps(app, true, answer, log);
        } else {
          QuietKeeps(CallStep(app, call, answer), log);
        }
      case CancelSync => QuietKeeps(CallStep(app, call, answer), log);
      case SetPolicy(_) => QuietKeeps(CallStep(app, call, answer), log);
    }
  }

  lemma {:induction false} RunKeeps(autoSync: bool, retryUncleanClose: bool, turns: seq<Turn>)
    ensures var r := Run(Booted(autoSync, retryUncleanClose), turns);
            Consistent(r.app, r.log) && SafeFrom([], r.log)
  {
    hide CallStep, Consistent;
    if turns == [] {
      BootConsistent(autoSync, retryUncleanClose);
    } else {
      RunKeeps(autoSync, retryUncleanClose, turns[..|turns| - 1]);
      var before := Run(Booted(autoSync, retryUncleanClose), turns[..|turns| - 1]);
      var last := turns[|turns| - 1];
      CallKeeps(before.app, last.call, last.answer, before.log);
      assert [] + before.log == before.log;
      SafeJoin([], before.log, CallStep(before.app, last.call, last.answer).log);
    }
  }

  function LogOf(autoSync: bool, retryUncleanClose: bool, turns: seq<Turn>): seq<Observed> {
    Run(Booted(autoSync, retryUncleanClose), turns).log
  }

  lemma {:induction false} SafeAt(log: seq<Observed>, tail: seq<Observed>, k: nat)
    requires SafeFrom(log, tail) && k < |tail|
    ensures SafeNext(log + tail[..k], tail[k])
    decreases k
  {
    hide SafeNext;
    if k == 0 {
      assert log + tail[..0] == log;
    } else {
      SafeAt(log + [tail[0]], tail[1..], k - 1);
      assert (log + [tail[0]]) + tail[1..][..k - 1] == log + tail[..k];
    }
  }

  lemma PrefixStep(log: seq<Observed>, k: nat)
    requires SafeFrom([], log) && k < |log|
    ensures SafeNext(log[..k], log[k]) && log[..k + 1] == log[..k] + [log[k]]
  {
    hide *;
    SafeAt([], log, k);
    OneMore(log, k);
  }

  lemma OneMore(log: seq<Observed>, k: nat)
    requires k < |log|
    ensures log[..k + 1] == log[..k] + [log[k]] && [] + log[..k] == log[..k]
  {
    assert forall i | 0 <= i < k :: log[..k + 1][i] == log[i];
  }

  lemma {:induction false} PrefixBounds(log: seq<Observed>, k: nat)
    requires SafeFrom([], log) && k <= |log|
    ensures AutosSinceChange(log[..k]) <= 1 + RETRY_LIMIT
    ensures Recoveries(log[..k]) <= Requests(log[..k])
    ensures 0 <= Open(log[..k]) <= 1
  {
    hide AutosSinceChange, Unanswered, Requests, Recoveries, Open, SafeFrom;
    if k == 0 {
      EmptyLog();
      assert log[..0] == [];
    } else {
      PrefixBounds(log, k - 1);
      PrefixStep(log, k - 1);
      LogOne(log[..k - 1], log[k - 1]);
    }
  }

  lemma EmptyLog()
    ensures AutosSinceChange([]) == 0 && Recoveries([]) == 0 && Requests([]) == 0 && Open([]) == 0
  {
  }

  lemma {:induction false} SegmentAutos(log: seq<Observed>, i: nat, j: nat)
    requires i <= j <= |log|
    requires forall k | i <= k < j :: log[k] != PhysicalChange
    ensures Autos(log[i..j]) <= AutosSinceChange(log[..j])
    decreases j
  {
    if i < j {
      SegmentAutos(log, i, j - 1);
      LogOne(log[i..j - 1], log[j - 1]);
      LogOne(log[..j - 1], log[j - 1]);
      assert log[i..j] == log[i..j - 1] + [log[j - 1]];
      assert log[..j] == log[..j - 1] + [log[j - 1]];
    }
  }

  /** Over every run: between two physical changes the transport accepts at most two automatic requests. */
  lemma AutomaticBudget(autoSync: bool, retryUncleanClose: bool, turns: seq<Turn>, i: nat, j: nat)
    requires i <= j <= |LogOf(autoSync, retryUncleanClose, turns)|
    requires forall k | i <= k < j :: LogOf(autoSync, retryUncleanClose, turns)[k] != PhysicalChange
    ensures Autos(LogOf(autoSync, retryUncleanClose, turns)[i..j]) <= 2
  {
    hide AutosSinceChange, Run, SafeFrom, Autos;
    var log := LogOf(autoSync, retryUncleanClose, turns);
    RunKeeps(autoSync, retryUncleanClose, turns);
    SegmentAutos(log, i, j);
    PrefixBounds(log, j);
  }

  lemma {:induction false} StaysUnanswered(log: seq<Observed>, i: nat, j: nat)
    requires i < j <= |log| && log[i] == ConflictReported
    requires forall k | i < k < j :: log[k] != ManualRequest(true)
    ensures Unanswered(log[..j])
    decreases j
  {
    hide Unanswered;
    LogOne(log[..j - 1], log[j - 1]);
    assert log[..j] == log[..j - 1] + [log[j - 1]];
    if i < j - 1 {
      StaysUnanswered(log, i, j - 1);
    }
  }

  /**
   * Over every run: after several devices were reported, nothing automatic is even offered to the transport until
   * it has accepted a manual request.
   */
  lemma ConflictDisarms(autoSync: bool, retryUncleanClose: bool, turns: seq<Turn>, i: nat, j: nat)
    requires i < j < |LogOf(autoSync, retryUncleanClose, turns)|
    requires LogOf(autoSync, retryUncleanClose, turns)[i] == ConflictReported
    requires LogOf(autoSync, retryUncleanClose, turns)[j].AutoRequest?
    ensures exists k :: i < k < j && LogOf(autoSync, retryUncleanClose, turns)[k] == ManualRequest(true)
  {
    hide Run, SafeFrom, Unanswered;
    var log := LogOf(autoSync, retryUncleanClose, turns);
    RunKeeps(autoSync, retryUncleanClose, turns);
    PrefixStep(log, j);
    assert !Unanswered(log[..j]);
    if forall k | i < k < j :: log[k] != ManualRequest(true) {
      StaysUnanswered(log, i, j);
    }
  }

  /** Over every run, at every moment: session-close recoveries never outnumber the accepted sync requests. */
  lemma RecoveriesNeverOutnumberRequests(autoSync: bool, retryUncleanClose: bool, turns: seq<Turn>, k: nat)
    requires k <= |LogOf(autoSync, retryUncleanClose, turns)|
    ensures Recoveries(LogOf(autoSync, retryUncleanClose, turns)[..k]) <= Requests(LogOf(autoSync, retryUncleanClose, turns)[..k])
  {
    hide Run, SafeFrom;
    RunKeeps(autoSync, retryUncleanClose, turns);
    PrefixBounds(LogOf(autoSync, retryUncleanClose, turns), k);
  }

  predicate Opens(o: Observed) {
    o in {AutoRequest(true), ManualRequest(true), RecoveryRequest(true)}
  }

  lemma {:induction false} OpenUnchanged(log: seq<Observed>, i: nat, j: nat)
    requires i <= j <= |log|
    requires forall k | i <= k < j :: !Opens(log[k]) && log[k] != OperationEnded
    ensures Open(log[..j]) == Open(log[..i])
    decreases j
  {
    if i < j {
      OpenUnchanged(log, i, j - 1);
      LogOne(log[..j - 1], log[j - 1]);
      assert log[..j] == log[..j - 1] + [log[j - 1]];
    }
  }

  /**
   * Over every run, accepted operations and accepted ends alternate, starting with an operation; and an operation is
   * open exactly while the coordinator is active.
   */
  lemma OperationsAlternate(autoSync: bool, retryUncleanClose: bool, turns: seq<Turn>, i: nat, j: nat)
    requires i < j < |LogOf(autoSync, retryUncleanClose, turns)|
    requires forall k | i < k < j :: !Opens(LogOf(autoSync, retryUncleanClose, turns)[k])
                                     && LogOf(autoSync, retryUncleanClose, turns)[k] != OperationEnded
    ensures var log := LogOf(autoSync, retryUncleanClose, turns);
            && !(Opens(log[i]) && Opens(log[j]))
            && !(log[i] == OperationEnded && log[j] == OperationEnded)
  {
    hide Run, SafeFrom, Open;
    var log := LogOf(autoSync, retryUncleanClose, turns);
    RunKeeps(autoSync, retryUncleanClose, turns);
    PrefixStep(log, i);
    PrefixStep(log, j);
    PrefixBounds(log, i);
    LogOne(log[..i], log[i]);
    OpenUnchanged(log, i + 1, j);
  }

  lemma OpenWhileActive(autoSync: bool, retryUncleanClose: bool, turns: seq<Turn>)
    ensures var r := Run(Booted(autoSync, retryUncleanClose), turns);
            Open(r.log) == if IsActive(r.app.sync.state) then 1 else 0
  {
    hide Run;
    RunKeeps(autoSync, retryUncleanClose, turns);
  }

  predicate Asks(log: seq<Observed>) {
    exists i | 0 <= i < |log| :: log[i].AutoRequest? || log[i].ManualRequest? || log[i].RecoveryRequest?
  }

  /** Whatever is handed to the transport is handed over while exactly one eligible device is there and idle. */
  lemma RequestsOnlyWhenAvailable(autoSync: bool, retryUncleanClose: bool, turns: seq<Turn>, call: Call, answer: SyncStatus)
    ensures var app := Run(Booted(autoSync, retryUncleanClose), turns).app;
            var step := CallStep(app, call, answer);
            Asks(step.log) ==>
              step.app.device.state == Available && step.app.device.eligibleDevices == 1
              && !step.app.device.conflictRecoveryRequired
  {
    hide Run, SafeFrom, Consistent;
    RunKeeps(autoSync, retryUncleanClose, turns);
    var r := Run(Booted(autoSync, retryUncleanClose), turns);
    CallKeeps(r.app, call, answer, r.log);
    KeptIsConsistent(CallStep(r.app, call, answer), r.log);
    ConsistentDevice(CallStep(r.app, call, answer).app, r.log + CallStep(r.app, call, answer).log);
    RequestNeedsAvailable(r.app, call, answer);
  }

  lemma ConsistentDevice(app: App, log: seq<Observed>)
    requires Consistent(app, log)
    ensures DeviceValid(app.device)
  {
  }

  lemma SnapshotAsks(app: App, answer: SyncStatus)
    ensures Asks(OnSnapshot(app, answer).log) ==> app.device.state == Available
    ensures OnSnapshot(app, answer).app.device == app.device
  {
    hide RequestSpec;
  }

  lemma DeviceAsks(app: App, event: DeviceEvent, answer: SyncStatus)
    ensures var step := DeviceStep(app, event, answer);
            Asks(step.log) ==> step.app.device.state == Available
  {
    hide HandleDeviceSpec, CancelSpec, OnSnapshot, Outdated, Preserve;
    var step := DeviceStep(app, event, answer);
    if Asks(step.log) {
      var conflicted := if event.kind == MultipleDetected then OnConflict(app, answer) else app;
      var marked := Preserve(conflicted, event);
      var moved := marked.(device := HandleDeviceSpec(marked.device, event).snapshot);
      SnapshotAsks(moved, answer);
      var last := OnSnapshot(moved, answer).log;
      var i :| 0 <= i < |step.log| && (step.log[i].AutoRequest? || step.log[i].ManualRequest? || step.log[i].RecoveryRequest?);
      assert i >= |step.log| - |last| ==> last[i - (|step.log| - |last|)] == step.log[i];
    }
  }

  lemma RequestNeedsAvailable(app: App, call: Call, answer: SyncStatus)
    ensures var step := CallStep(app, call, answer);
            Asks(step.log) ==> step.app.device.state == Available
  {
    hide DeviceStep, RequestSpec, CancelSpec, EventSpec, DeviceValid;
    if call.OnDevice? {
      DeviceAsks(app, call.deviceEvent, answer);
    }
  }

  // ---- The application object -----------------------------------------------------------------

  class Controller {
    const service: Service
    const coordinator: Coordinator
    var flags: Flags
    ghost var log: seq<Observed>

    function State(): App
      reads this, service, coordinator
    {
      App(service.Current(), coordinator.Current(), flags)
    }

    ghost predicate Valid()
      reads this, service, coordinator
    {
      Consistent(State(), log)
    }

    constructor (autoSync: bool, retryClose: bool)
      ensures fresh(service) && fresh(coordinator)
      ensures State() == Booted(autoSync, retryClose) && log == [] && Valid()
    {
      service := new Service();
      coordinator := new Coordinator();
      flags := Flags(autoSync, retryClose, Stopped, false, false, false, false, false, false, 0);
      log := [];
    }

    method RequestAutomaticSync(retry: bool, answer: SyncStatus) returns (status: SyncStatus)
      modifies this, coordinator
      ensures State() == RequestAutomatic(old(State()), retry, answer).app
      ensures log == old(log) + RequestAutomatic(old(State()), retry, answer).log
      ensures status == RequestSpec(old(State()).sync, false, answer).status
    {
      AutomaticParts(State(), retry, answer);
      hide RequestAutomatic, RequestSpec, Counted, AfterAnswer;
      ghost var asked := !IsActive(coordinator.state);
      CountRequest(retry);
      status := coordinator.Request(false, answer);
      NoteAnswer(retry, status == SyncOk);
      log := log + if asked then [AutoRequest(status == SyncOk)] else [];
    }

    /** A request counts as a retry if it is one, and uses up the permission to retry. */
    method CountRequest(retry: bool)
      modifies this`flags
      ensures flags == Counted(old(flags), retry)
    {
      flags := flags.(retryCount := if retry then flags.retryCount + 1 else flags.retryCount, retryEligible := false);
    }

    method NoteAnswer(retry: bool, accepted: bool)
      modifies this`flags
      ensures flags == AfterAnswer(old(flags), retry, accepted)
    {
      if accepted {
        flags := flags.(autoAttempted := true, autoActive := true, recoveryAttempted := false);
      } else if !retry {
        flags := flags.(retryEligible := true);
      }
    }

    /** A fresh attachment starts without the attempts of the last one. */
    method NoteSnapshot()
      modifies this`flags
      ensures State() == Seen(old(State()))
    {
      var state := service.state;
      var forget := !flags.preserveAttachment && !flags.disarmedByConflict
                    && (state == Waiting || (state == Inspecting && flags.previousState == Waiting));
      if forget {
        flags := flags.(previousState := state, autoAttempted := false, autoActive := false, retryEligible := false,
                        retryCount := 0);
      } else {
        flags := flags.(previousState := state);
      }
    }

    /** Called by the device service with its new snapshot. */
    method HandleDeviceSnapshot(answer: SyncStatus)
      modifies this, coordinator
      ensures State() == OnSnapshot(old(State()), answer).app
      ensures log == old(log) + OnSnapshot(old(State()), answer).log
    {
      hide RequestAutomatic, RequestSpec;
      var previous := flags.previousState;
      NoteSnapshot();
      hide Seen;
      assert log + [] == log;
      if service.state == Available && previous == Inspecting {
        if flags.autoSyncOnAttach && !flags.autoAttempted {
          var status := RequestAutomaticSync(false, answer);
        }
        flags := flags.(preserveAttachment := false);
      }
    }

    /** The flags an event sets before the device service sees it. */
    method MarkEvent(event: DeviceEvent, answer: SyncStatus)
      modifies this, coordinator
      ensures State() == MarkStep(old(State()), event, answer).app
      ensures log == old(log) + MarkStep(old(State()), event, answer).log
    {
      hide CancelSpec;
      assert log + [] == log;
      if event.kind == MultipleDetected {
        flags := flags.(preserveAttachment := false, autoAttempted := true, autoActive := false, retryEligible := false);
        flags := flags.(disarmedByConflict := true);
        CancelWhenRunning(coordinator.Current(), answer);
        if coordinator.state == Queued || coordinator.state == Running {
          var cancelled := coordinator.Cancel(answer);
        }
        log := log + [ConflictReported];
      }
      if event.kind == Detached && event.softwareReenumeration {
        flags := flags.(preserveAttachment := true);
      } else if event.kind == Attached {
        flags := flags.(preserveAttachment := event.softwareReenumeration);
      } else if event.kind == Detached {
        flags := flags.(preserveAttachment := false);
      }
    }

    /** The device service takes the event and, if it accepts it, reports its new snapshot. */
    method DeliverEvent(event: DeviceEvent, answer: SyncStatus) returns (status: CoreStatus)
      modifies this, service, coordinator
      ensures State() == Deliver(old(State()), event, answer).app
      ensures log == old(log) + Deliver(old(State()), event, answer).log
    {
      hide OnSnapshot, HandleDeviceSpec, PhysicalLog;
      RefusedChangesNothing(service.Current(), event);
      assert log + [] == log;
      status := service.HandleEvent(event);
      if status == CoreOk {
        log := log + PhysicalLog(event);
        HandleDeviceSnapshot(answer);
      }
    }

    method HandleDeviceEvent(event: DeviceEvent, answer: SyncStatus) returns (status: CoreStatus)
      modifies this, service, coordinator
      ensures State() == DeviceStep(old(State()), event, answer).app
      ensures log == old(log) + DeviceStep(old(State()), event, answer).log
      ensures old(Valid()) ==> Valid()
    {
      DeviceStepParts(State(), event, answer);
      hide Deliver, MarkStep, DeviceStep, Consistent, Keeps;
      if Consistent(State(), log) {
        DeviceKeeps(State(), event, answer, log);
        KeptIsConsistent(DeviceStep(State(), event, answer), log);
      }
      assert log + [] == log;
      if event.revision != 0 && event.revision < service.revision {
        return CoreInvalidTransition;
      }
      MarkEvent(event, answer);
      status := DeliverEvent(event, answer);
    }

    method RequestSync(answer: SyncStatus) returns (status: SyncStatus)
      modifies this, coordinator
      ensures State() == ManualStep(old(State()), answer).app
      ensures log == old(log) + ManualStep(old(State()), answer).log
      ensures status == SyncOk <==> old(State()).device.state == Available && !IsActive(old(State()).sync.state) && answer == SyncOk
      ensures old(Valid()) ==> Valid()
    {
      hide Consistent, Keeps, RequestSpec, CallStep;
      RequestAcceptedIff(coordinator.Current(), answer);
      if Consistent(State(), log) {
        ManualKeeps(State(), answer, log);
        KeptIsConsistent(ManualStep(State(), answer), log);
      }
      assert log + [] == log;
      if service.state != Available {
        return SyncInvalidState;
      }
      ghost var asked := !IsActive(coordinator.state);
      status := coordinator.Request(false, answer);
      if status == SyncOk {
        flags := flags.(autoAttempted := true, autoActive := false, retryEligible := false);
        flags := flags.(disarmedByConflict := false, recoveryAttempted := false);
      }
      log := log + if asked then [ManualRequest(status == SyncOk)] else [];
    }

    method RetryAutoSync(answer: SyncStatus) returns (status: SyncStatus)
      modifies this, coordinator
      ensures State() == CallStep(old(State()), Call.RetryAutoSync, answer).app
      ensures log == old(log) + CallStep(old(State()), Call.RetryAutoSync, answer).log
      ensures old(Valid()) ==> Valid()
    {
      hide Consistent, Keeps, RequestSpec;
      if Consistent(State(), log) {
        CallKeeps(State(), Call.RetryAutoSync, answer, log);
        KeptIsConsistent(CallStep(State(), Call.RetryAutoSync, answer), log);
      }
      assert log + [] == log;
      if !RetryNeeded(State()) {
        return SyncInvalidState;
      }
      status := RequestAutomaticSync(true, answer);
    }

    method CancelSync(answer: SyncStatus) returns (status: SyncStatus)
      modifies this, coordinator
      ensures State() == CallStep(old(State()), Call.CancelSync, answer).app
      ensures log == old(log) + CallStep(old(State()), Call.CancelSync, answer).log
      ensures old(Valid()) ==> Valid()
    {
      hide Consistent, Keeps, CancelSpec;
      if Consistent(State(), log) {
        CallKeeps(State(), Call.CancelSync, answer, log);
        KeptIsConsistent(CallStep(State(), Call.CancelSync, answer), log);
      }
      assert log + [] == log;
      status := coordinator.Cancel(answer);
    }

    method SetSyncPolicy(autoSync: bool)
      modifies this
      ensures State() == CallStep(old(State()), SetPolicy(autoSync), SyncOk).app
      ensures log == old(log) + CallStep(old(State()), SetPolicy(autoSync), SyncOk).log
      ensures old(Valid()) ==> Valid()
    {
      hide Consistent, Keeps;
      if Consistent(State(), log) {
        CallKeeps(State(), SetPolicy(autoSync), SyncOk, log);
        KeptIsConsistent(CallStep(State(), SetPolicy(autoSync), SyncOk), log);
      }
      assert log + [] == log;
      flags := flags.(autoSyncOnAttach := autoSync);
      if !autoSync {
        flags := flags.(autoActive := false, retryEligible := false);
      }
    }

    method NoteSyncEvent(event: SyncEvent) returns (status: SyncStatus)
      modifies this, coordinator
      ensures status == EventSpec(old(State()).sync, event).status
      ensures State() == if status == SyncOk then NoteEvent(old(State()), event).app else old(State())
      ensures log == if status == SyncOk then old(log) + NoteEvent(old(State()), event).log else old(log)
    {
      NothingActiveAfterFailure(coordinator.Current(), event);
      hide EventSpec;
      assert log + [] == log;
      status := coordinator.HandleEvent(event);
      if status != SyncOk {
        return;
      }
      if event.kind == EventFailed && flags.autoActive && !event.report.closeRecoveryAttempt && !event.report.dataPhaseCompleted
         && event.report.downloaded == 0 && event.report.downloadedBytes == 0 && flags.retryCount < RETRY_LIMIT {
        flags := flags.(retryEligible := true);
      } else if event.kind == EventCompleted || event.kind == EventCancelled || event.kind == EventFailed {
        flags := flags.(autoActive := false, retryEligible := false);
      }
      log := log + if IsTerminal(event.kind) then [OperationEnded] else [];
    }

    method HandleSyncEvent(event: SyncEvent, answer: SyncStatus) returns (status: SyncStatus)
      modifies this, coordinator
      ensures State() == SyncStep(old(State()), event, answer).app
      ensures log == old(log) + SyncStep(old(State()), event, answer).log
      ensures old(Valid()) ==> Valid()
    {
      hide Consistent, Keeps, EventSpec, SyncStep, NoteEvent, WantsRecovery, Recover;
      SyncStepParts(State(), event, answer);
      if Consistent(State(), log) {
        SyncKeeps(State(), event, answer, log);
        KeptIsConsistent(SyncStep(State(), event, answer), log);
      }
      ghost var before := log;
      assert before + [] == before;
      status := NoteSyncEvent(event);
      if status != SyncOk {
        return;
      }
      var wanted := RecoveryWanted(event);
      if !wanted {
        return SyncOk;
      }
      ghost var noted := log;
      status := RecoverClose(answer);
      assert log == before + (noted[|before|..] + log[|noted|..]);
    }

    method RecoveryWanted(event: SyncEvent) returns (wanted: bool)
      ensures wanted == WantsRecovery(State(), event)
    {
      if !flags.retryUncleanClose || !RecoverableClose(event) || flags.recoveryAttempted {
        return false;
      }
      return service.state == Available && !service.conflictRecoveryRequired;
    }

    /** One further session, only to close cleanly. */
    method RecoverClose(answer: SyncStatus) returns (status: SyncStatus)
      modifies this`flags, this`log, coordinator
      ensures State() == Recover(old(State()), answer).app
      ensures log == old(log) + Recover(old(State()), answer).log
    {
      hide RequestSpec;
      flags := flags.(recoveryAttempted := true);
      status := coordinator.Request(true, answer);
      log := log + [RecoveryRequest(status == SyncOk)];
    }
  }

  function Counted(f: Flags, retry: bool): Flags {
    f.(retryCount := if retry then f.retryCount + 1 else f.retryCount, retryEligible := false)
  }

  function AfterAnswer(f: Flags, retry: bool, accepted: bool): Flags {
    if accepted then f.(autoAttempted := true, autoActive := true, recoveryAttempted := false)
    else if !retry then f.(retryEligible := true)
    else f
  }

  lemma SyncStepParts(app: App, event: SyncEvent, answer: SyncStatus)
    ensures var noted := NoteEvent(app, event);
            var recovered := Recover(noted.app, answer);
            SyncStep(app, event, answer)
            == if EventSpec(app.sync, event).status != SyncOk then Step(app, [])
               else if WantsRecovery(noted.app, event) then Step(recovered.app, noted.log + recovered.log)
               else noted
  {
    hide EventSpec, RequestSpec, WantsRecovery, FlagsAfter;
  }

  lemma AutomaticParts(app: App, retry: bool, answer: SyncStatus)
    ensures var r := RequestSpec(app.sync, false, answer);
            RequestAutomatic(app, retry, answer).app
            == App(app.device, r.snapshot, AfterAnswer(Counted(app.flags, retry), retry, r.status == SyncOk))
    ensures RequestAutomatic(app, retry, answer).log ==
            if IsActive(app.sync.state) then [] else [AutoRequest(RequestSpec(app.sync, false, answer).status == SyncOk)]
  {
    hide RequestSpec;
  }

  lemma RequestAcceptedIff(s: SyncSnapshot, answer: SyncStatus)
    ensures RequestSpec(s, false, answer).status == SyncOk <==> !IsActive(s.state) && answer == SyncOk
    ensures RequestSpec(s, false, answer).status != SyncOk ==> RequestSpec(s, false, answer).snapshot == s
  {
  }

  function Deliver(app: App, event: DeviceEvent, answer: SyncStatus): Step {
    var handled := HandleDeviceSpec(app.device, event);
    if handled.status != CoreOk then Step(app, [])
    else
      var last := OnSnapshot(app.(device := handled.snapshot), answer);
      Step(last.app, PhysicalLog(event) + last.log)
  }

  lemma DeviceStepParts(app: App, event: DeviceEvent, answer: SyncStatus)
    ensures var marked := MarkStep(app, event, answer);
            var last := Deliver(marked.app, event, answer);
            DeviceStep(app, event, answer)
            == if Outdated(event, app.device) then Step(app, []) else Step(last.app, marked.log + last.log)
  {
    hide OnSnapshot, HandleDeviceSpec, CancelSpec;
  }

  lemma RefusedChangesNothing(d: DeviceSnapshot, event: DeviceEvent)
    ensures HandleDeviceSpec(d, event).status != CoreOk ==> HandleDeviceSpec(d, event).snapshot == d
  {
  }

  lemma CancelWhenRunning(s: SyncSnapshot, answer: SyncStatus)
    ensures s.state != Queued && s.state != Running ==> CancelSpec(s, answer).snapshot == s
  {
  }

  lemma NothingActiveAfterFailure(s: SyncSnapshot, event: SyncEvent)
    ensures EventSpec(s, event).status == SyncOk && event.kind == EventFailed ==> !IsActive(EventSpec(s, event).snapshot.state)
    ensures EventSpec(s, event).status != SyncOk ==> EventSpec(s, event).snapshot == s
  {
  }
}
