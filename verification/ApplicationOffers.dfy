/** What the application offers the transport, told from what was seen outside: exactly when, not only how often. */
module ApplicationOffers {
  import opened DeviceService
  import opened SyncCoordinator
  import opened Application

  // ---- What the log says -----------------------------------------------------------------

  /**
   * For this attachment a request was accepted, or a conflict was reported; a physical change wipes that out, unless a
   * conflict is unanswered.
   */
  predicate Tried(log: seq<Observed>) {
    log != [] &&
    match log[|log| - 1]
    case AutoRequest(accepted) => accepted || Tried(log[..|log| - 1])
    case ManualRequest(accepted) => accepted || Tried(log[..|log| - 1])
    case ConflictReported => true
    case PhysicalChange => Unanswered(log)
    case _ => Tried(log[..|log| - 1])
  }

  /** Since the last accepted sync request a close recovery was offered. */
  predicate Recovered(log: seq<Observed>) {
    log != [] &&
    match log[|log| - 1]
    case AutoRequest(accepted) => !accepted && Recovered(log[..|log| - 1])
    case ManualRequest(accepted) => !accepted && Recovered(log[..|log| - 1])
    case RecoveryRequest(_) => true
    case _ => Recovered(log[..|log| - 1])
  }

  /** Nothing automatic was offered for this attachment. */
  predicate NoneOffered(log: seq<Observed>) {
    log == [] ||
    match log[|log| - 1]
    case AutoRequest(_) => false
    case PhysicalChange => !Unanswered(log) || NoneOffered(log[..|log| - 1])
    case _ => NoneOffered(log[..|log| - 1])
  }

  lemma HistoryOne(log: seq<Observed>, o: Observed)
    ensures var grown := log + [o];
            && (Tried(grown) <==> o in {AutoRequest(true), ManualRequest(true), ConflictReported}
                                  || (if o == PhysicalChange then Unanswered(log) else Tried(log)))
            && (Recovered(grown) <==> o.RecoveryRequest?
                                      || (o !in {AutoRequest(true), ManualRequest(true)} && Recovered(log)))
            && (NoneOffered(grown) <==> !o.AutoRequest? && (NoneOffered(log) || (o == PhysicalChange && !Unanswered(log))))
  {
    assert (log + [o])[..|log|] == log;
  }

  /** The flags say what the log says. */
  predicate Told(app: App, log: seq<Observed>) {
    && (app.flags.autoAttempted <==> Tried(log))
    && (app.flags.recoveryAttempted <==> Recovered(log))
    && (NoneOffered(log) ==> app.flags.retryCount == 0)
    && (app.device.state == Conflict ==> Unanswered(log))
    && (app.device.state == Stopped && Tried(log) ==> Unanswered(log))
  }

  /** The policy last set. */
  function Policy(autoSync: bool, turns: seq<Turn>): bool {
    if turns == [] then autoSync
    else if turns[|turns| - 1].call.SetPolicy? then turns[|turns| - 1].call.autoSync
    else Policy(autoSync, turns[..|turns| - 1])
  }

  // ---- Each part of a step ------------------------------------------------------------------

  predicate TellsOn(step: Step, log: seq<Observed>) {
    Consistent(step.app, log + step.log) && Told(step.app, log + step.log)
  }

  lemma QuietTells(step: Step, log: seq<Observed>)
    requires step.log == [] && Consistent(step.app, log) && Told(step.app, log)
    ensures TellsOn(step, log)
  {
    assert log + [] == log;
  }

  lemma OneTells(step: Step, log: seq<Observed>, o: Observed)
    requires step.log == [o] && Consistent(step.app, log + [o]) && Told(step.app, log + [o])
    ensures TellsOn(step, log)
  {
  }

  lemma AutomaticTold(app: App, retry: bool, answer: SyncStatus, log: seq<Observed>)
    requires Told(app, log) && app.device.state == Available && (retry ==> !IsActive(app.sync.state))
    ensures var step := RequestAutomatic(app, retry, answer); Told(step.app, log + step.log)
  {
    hide Unanswered, Tried, Recovered, NoneOffered;
    var step := RequestAutomatic(app, retry, answer);
    EmptyTail(log);
    HistoryOne(log, AutoRequest(answer == SyncOk));
  }

  lemma AutomaticTells(app: App, retry: bool, answer: SyncStatus, log: seq<Observed>)
    requires Consistent(app, log) && Told(app, log) && !app.flags.disarmedByConflict && app.device.state == Available
    requires if retry then app.flags.retryCount < RETRY_LIMIT && !IsActive(app.sync.state) else !app.flags.autoAttempted
    ensures TellsOn(RequestAutomatic(app, retry, answer), log)
  {
    hide Told, RequestAutomatic, Consistent, Keeps;
    AutomaticKeeps(app, retry, answer, log);
    KeptIsConsistent(RequestAutomatic(app, retry, answer), log);
    AutomaticTold(app, retry, answer, log);
  }

  lemma ManualTells(app: App, answer: SyncStatus, log: seq<Observed>)
    requires Consistent(app, log) && Told(app, log)
    ensures TellsOn(ManualStep(app, answer), log)
  {
    var step := ManualStep(app, answer);
    ManualKeeps(app, answer, log);
    KeptIsConsistent(step, log);
    hide Consistent, Keeps, Unanswered, Tried, Recovered, NoneOffered;
    if step.log == [] {
      EmptyTail(log);
      QuietTells(step, log);
    } else {
      HistoryOne(log, step.log[0]);
      LogOne(log, step.log[0]);
      OneTells(step, log, step.log[0]);
    }
  }

  lemma NoteTells(app: App, event: SyncEvent, log: seq<Observed>)
    requires Consistent(app, log) && Told(app, log) && EventSpec(app.sync, event).status == SyncOk
    ensures TellsOn(NoteEvent(app, event), log)
  {
    var step := NoteEvent(app, event);
    NoteKeeps(app, event, log);
    KeptIsConsistent(step, log);
    hide Consistent, Keeps, Unanswered, Tried, Recovered, NoneOffered, EventSpec;
    if step.log == [] {
      EmptyTail(log);
      QuietTells(step, log);
    } else {
      HistoryOne(log, OperationEnded);
      LogOne(log, OperationEnded);
      OneTells(step, log, OperationEnded);
    }
  }

  lemma RecoverTells(app: App, answer: SyncStatus, log: seq<Observed>)
    requires Consistent(app, log) && Told(app, log)
    requires !app.flags.recoveryAttempted && !IsActive(app.sync.state) && Requests(log) > 0
    ensures TellsOn(Recover(app, answer), log)
  {
    var step := Recover(app, answer);
    RecoverKeeps(app, answer, log);
    KeptIsConsistent(step, log);
    hide Consistent, Keeps, Unanswered, Tried, Recovered, NoneOffered, RequestSpec;
    HistoryOne(log, step.log[0]);
    LogOne(log, step.log[0]);
    OneTells(step, log, step.log[0]);
  }

  lemma TwoTell(first: Step, second: Step, step: Step, log: seq<Observed>)
    requires TellsOn(second, log + first.log)
    requires step.app == second.app && step.log == first.log + second.log
    ensures TellsOn(step, log)
  {
    hide Consistent, Told;
    assert log + (first.log + second.log) == (log + first.log) + second.log;
  }

  lemma SyncTells(app: App, event: SyncEvent, answer: SyncStatus, log: seq<Observed>)
    requires Consistent(app, log) && Told(app, log)
    ensures TellsOn(SyncStep(app, event, answer), log)
  {
    var step := SyncStep(app, event, answer);
    if EventSpec(app.sync, event).status != SyncOk {
      QuietTells(step, log);
    } else {
      var noted := NoteEvent(app, event);
      NoteKeeps(app, event, log);
      NoteTells(app, event, log);
      hide Consistent, Keeps, Told, Requests, IsActive, EventSpec, RequestSpec;
      if WantsRecovery(noted.app, event) {
        RecoverTells(noted.app, answer, log + noted.log);
        TwoTell(noted, Recover(noted.app, answer), step, log);
      }
    }
  }

  lemma MarkTells(app: App, event: DeviceEvent, answer: SyncStatus, log: seq<Observed>)
    requires Consistent(app, log) && Told(app, log)
    ensures TellsOn(MarkStep(app, event, answer), log)
  {
    var step := MarkStep(app, event, answer);
    MarkKeeps(app, event, answer, log);
    KeptIsConsistent(step, log);
    hide Consistent, Keeps, Unanswered, Tried, Recovered, NoneOffered, CancelSpec;
    if step.log == [] {
      EmptyTail(log);
      QuietTells(step, log);
    } else {
      HistoryOne(log, ConflictReported);
      LogOne(log, ConflictReported);
      OneTells(step, log, ConflictReported);
    }
  }

  /** Attempts are forgotten at physical changes that do not leave a conflict standing, and when monitoring starts. */
  lemma ForgetsIff(app: App, event: DeviceEvent)
    requires HandleDeviceSpec(app.device, event).status == CoreOk && app.flags.previousState == app.device.state
    requires event.kind in {Attached, Detached} ==> app.flags.preserveAttachment == event.softwareReenumeration
    ensures var next := HandleDeviceSpec(app.device, event).snapshot;
            && (next.state == Conflict ==> app.device.state == Conflict || event.kind == MultipleDetected)
            && (ForgetsAttempts(app.(device := next)) ==>
                  !app.flags.disarmedByConflict && (PhysicalLog(event) == [PhysicalChange] || app.device.state == Stopped))
            && (PhysicalLog(event) == [PhysicalChange] && !app.flags.disarmedByConflict && app.device.state != Conflict ==>
                  ForgetsAttempts(app.(device := next)))
  {
  }

  lemma SeenTold(app: App, event: DeviceEvent, next: DeviceSnapshot, log: seq<Observed>)
    requires Told(app, log)
    requires (app.flags.disarmedByConflict <==> Unanswered(log)) && (app.flags.disarmedByConflict ==> app.flags.autoAttempted)
    requires next.state == Conflict ==> Unanswered(log)
    requires next.state != Stopped
    requires ForgetsAttempts(app.(device := next)) ==>
               !Unanswered(log) && (PhysicalLog(event) == [PhysicalChange] || app.device.state == Stopped)
    requires PhysicalLog(event) == [PhysicalChange] && !Unanswered(log) ==> ForgetsAttempts(app.(device := next))
    ensures var step := SeenStep(app, event, next); Told(step.app, log + step.log)
  {
    hide Unanswered, Tried, Recovered, NoneOffered, ForgetsAttempts;
    EmptyTail(log);
    HistoryOne(log, PhysicalChange);
    LogOne(log, PhysicalChange);
  }

  /** What is forgotten is what the log no longer counts. */
  lemma SeenTells(app: App, event: DeviceEvent, log: seq<Observed>)
    requires Consistent(app, log) && Told(app, log) && HandleDeviceSpec(app.device, event).status == CoreOk
    requires event.kind in {Attached, Detached} ==> app.flags.preserveAttachment == event.softwareReenumeration
    requires event.kind == MultipleDetected ==> app.flags.disarmedByConflict
    ensures TellsOn(SeenStep(app, event, HandleDeviceSpec(app.device, event).snapshot), log)
  {
    hide AutosSinceChange, Unanswered, Requests, Recoveries, Open, DeviceValid, SafeFrom, Keeps, Tried, Recovered, NoneOffered,
         HandleDeviceSpec, ForgetsAttempts, PhysicalLog, SeenStep;
    var next := HandleDeviceSpec(app.device, event).snapshot;
    NeverStopsAgain(app.device, event);
    ForgetsIff(app, event);
    SeenTold(app, event, next, log);
    SeenKeeps(app, event, log);
    KeptIsConsistent(SeenStep(app, event, next), log);
  }

  lemma NeverStopsAgain(s: DeviceSnapshot, event: DeviceEvent)
    requires HandleDeviceSpec(s, event).status == CoreOk
    ensures HandleDeviceSpec(s, event).snapshot.state != Stopped
  {
  }

  lemma ArrivalTells(app: App, next: DeviceSnapshot, previous: DeviceState, answer: SyncStatus, log: seq<Observed>)
    requires Consistent(app, log) && Told(app, log) && app.device == next
    ensures var arrived := next.state == Available && previous == Inspecting;
            var step := if arrived && app.flags.autoSyncOnAttach && !app.flags.autoAttempted
                        then RequestAutomatic(app, false, answer) else Step(app, []);
            TellsOn(if arrived then step.(app := EndAttachment(step.app)) else step, log)
  {
    ArrivalKeeps(app, next, previous, answer, log);
    if next.state == Available && previous == Inspecting && app.flags.autoSyncOnAttach && !app.flags.autoAttempted {
      assert app.flags.disarmedByConflict ==> app.flags.autoAttempted;
      AutomaticTells(app, false, answer, log);
      hide Unanswered, Tried, Recovered, NoneOffered, AutosSinceChange, Requests, Recoveries, Open, DeviceValid, RequestAutomatic;
    } else {
      hide Unanswered, Tried, Recovered, NoneOffered, AutosSinceChange, Requests, Recoveries, Open, DeviceValid;
      EmptyTail(log);
    }
  }

  lemma DeviceTells(app: App, event: DeviceEvent, answer: SyncStatus, log: seq<Observed>)
    requires Consistent(app, log) && Told(app, log)
    ensures TellsOn(DeviceStep(app, event, answer), log)
  {
    hide Consistent, Told, HandleDeviceSpec, RequestAutomatic, CancelSpec, ForgetsAttempts;
    var step := DeviceStep(app, event, answer);
    if Outdated(event, app.device) {
      QuietTells(step, log);
    } else {
      var marked := MarkStep(app, event, answer);
      MarkTells(app, event, answer, log);
      var handled := HandleDeviceSpec(marked.app.device, event);
      if handled.status == CoreOk {
        var seen := SeenStep(marked.app, event, handled.snapshot);
        SeenTells(marked.app, event, log + marked.log);
        ArrivalTells(seen.app, handled.snapshot, marked.app.flags.previousState, answer, (log + marked.log) + seen.log);
        var last := OnSnapshot(marked.app.(device := handled.snapshot), answer);
        TwoTell(seen, last, Step(last.app, seen.log + last.log), log + marked.log);
        TwoTell(marked, Step(last.app, seen.log + last.log), step, log);
      }
    }
  }

  lemma CallTells(app: App, call: Call, answer: SyncStatus, log: seq<Observed>)
    requires Consistent(app, log) && Told(app, log)
    ensures TellsOn(CallStep(app, call, answer), log)
  {
    hide DeviceStep, SyncStep, ManualStep, RequestAutomatic, TellsOn;
    match call {
      case OnDevice(event) => DeviceTells(app, event, answer, log);
      case OnSync(event) => SyncTells(app, event, answer, log);
      case RequestSync => ManualTells(app, answer, log);
      case RetryAutoSync =>
        if RetryNeeded(app) {
          AutomaticTells(app, true, answer, log);
        } else {
          QuietTells(CallStep(app, call, answer), log);
        }
      case CancelSync => CancelTells(app, answer, log);
      case SetPolicy(_) => PolicyTells(app, call, answer, log);
    }
  }

  lemma CancelTells(app: App, answer: SyncStatus, log: seq<Observed>)
    requires Consistent(app, log) && Told(app, log)
    ensures TellsOn(CallStep(app, CancelSync, answer), log)
  {
    hide Unanswered, Tried, Recovered, NoneOffered, AutosSinceChange, Requests, Recoveries, Open, DeviceValid;
    QuietTells(CallStep(app, CancelSync, answer), log);
  }

  lemma PolicyTells(app: App, call: Call, answer: SyncStatus, log: seq<Observed>)
    requires Consistent(app, log) && Told(app, log) && call.SetPolicy?
    ensures TellsOn(CallStep(app, call, answer), log)
  {
    hide Unanswered, Tried, Recovered, NoneOffered, AutosSinceChange, Requests, Recoveries, Open, DeviceValid;
    QuietTells(CallStep(app, call, answer), log);
  }

  // ---- The policy ------------------------------------------------------------------------------

  /** The two settings stay as they are. */
  predicate SameSettings(was: Flags, now: Flags) {
    now.retryUncleanClose == was.retryUncleanClose && now.autoSyncOnAttach == was.autoSyncOnAttach
  }

  lemma AutomaticKeepsPolicy(app: App, answer: SyncStatus)
    ensures SameSettings(app.flags, RequestAutomatic(app, false, answer).app.flags)
  {
    hide RequestSpec;
  }

  lemma SnapshotKeepsPolicy(app: App, answer: SyncStatus)
    ensures SameSettings(app.flags, OnSnapshot(app, answer).app.flags)
  {
    hide RequestAutomatic, ForgetsAttempts;
    AutomaticKeepsPolicy(Seen(app), answer);
  }

  lemma DeviceKeepsPolicy(app: App, event: DeviceEvent, answer: SyncStatus)
    ensures SameSettings(app.flags, DeviceStep(app, event, answer).app.flags)
  {
    hide HandleDeviceSpec, OnSnapshot, CancelSpec, Outdated;
    var marked := MarkStep(app, event, answer).app;
    SnapshotKeepsPolicy(marked.(device := HandleDeviceSpec(marked.device, event).snapshot), answer);
  }

  lemma CallKeepsPolicy(app: App, call: Call, answer: SyncStatus)
    ensures var next := CallStep(app, call, answer).app.flags;
            && next.retryUncleanClose == app.flags.retryUncleanClose
            && next.autoSyncOnAttach == if call.SetPolicy? then call.autoSync else app.flags.autoSyncOnAttach
  {
    hide DeviceStep, RequestSpec, CancelSpec, EventSpec, WantsRecovery, RetryEarned, RetryNeeded;
    if call.OnDevice? {
      DeviceKeepsPolicy(app, call.deviceEvent, answer);
    }
  }

  lemma {:induction false} RunTells(autoSync: bool, retryUncleanClose: bool, turns: seq<Turn>)
    ensures var r := Run(Booted(autoSync, retryUncleanClose), turns);
            && Consistent(r.app, r.log) && Told(r.app, r.log)
            && r.app.flags.autoSyncOnAttach == Policy(autoSync, turns) && r.app.flags.retryUncleanClose == retryUncleanClose
  {
    hide CallStep, Consistent;
    if turns == [] {
      BootConsistent(autoSync, retryUncleanClose);
    } else {
      hide Told;
      RunTells(autoSync, retryUncleanClose, turns[..|turns| - 1]);
      var before := Run(Booted(autoSync, retryUncleanClose), turns[..|turns| - 1]);
      var last := turns[|turns| - 1];
      CallTells(before.app, last.call, last.answer, before.log);
      CallKeepsPolicy(before.app, last.call, last.answer);
    }
  }

  // ---- Exactly when ------------------------------------------------------------------------------

  /** The event ends the inspection of a device by accepting it. */
  predicate Accepts(app: App, event: DeviceEvent) {
    event.kind == Accepted && HandleDeviceSpec(app.device, event).status == CoreOk
  }

  lemma ArrivesIff(app: App, event: DeviceEvent, answer: SyncStatus, log: seq<Observed>)
    requires Consistent(app, log)
    ensures var step := DeviceStep(app, event, answer);
            Accepts(app, event) ==>
              step.log == (if app.flags.autoSyncOnAttach && !app.flags.autoAttempted && !IsActive(app.sync.state)
                           then [AutoRequest(answer == SyncOk)] else [])
  {
    hide AutosSinceChange, Unanswered, Requests, Recoveries, Open, CancelSpec;
  }

  lemma OthersOfferNothing(app: App, event: DeviceEvent, answer: SyncStatus, log: seq<Observed>)
    requires Consistent(app, log) && !Accepts(app, event)
    ensures forall o | o in DeviceStep(app, event, answer).log :: !o.AutoRequest?
  {
    hide AutosSinceChange, Unanswered, Requests, Recoveries, Open, CancelSpec;
  }

  /**
   * After any run, an accepted device is offered to the transport, once, exactly when the policy last set is on, nothing
   * was tried for this attachment, and no operation is open; and no other device event offers anything.
   */
  lemma OfferedIff(autoSync: bool, retryUncleanClose: bool, turns: seq<Turn>, event: DeviceEvent, answer: SyncStatus)
    ensures var r := Run(Booted(autoSync, retryUncleanClose), turns);
            var log := DeviceStep(r.app, event, answer).log;
            if Accepts(r.app, event) then
              log == (if Policy(autoSync, turns) && !Tried(r.log) && Open(r.log) == 0 then [AutoRequest(answer == SyncOk)] else [])
            else forall o | o in log :: !o.AutoRequest?
  {
    hide Run, DeviceStep, Accepts;
    var r := Run(Booted(autoSync, retryUncleanClose), turns);
    RunTells(autoSync, retryUncleanClose, turns);
    OpenWhileActive(autoSync, retryUncleanClose, turns);
    if Accepts(r.app, event) {
      ArrivesIff(r.app, event, answer, r.log);
    } else {
      OthersOfferNothing(r.app, event, answer, r.log);
    }
  }

  predicate Wipes(log: seq<Observed>, k: nat)
    requires k < |log|
  {
    log[k] == PhysicalChange && !Unanswered(log[..k])
  }

  predicate Trial(o: Observed) {
    o in {AutoRequest(true), ManualRequest(true), ConflictReported}
  }

  /** A trial with nothing behind it that wipes it out. */
  predicate Counts(log: seq<Observed>, i: nat)
    requires i < |log|
  {
    Trial(log[i]) && forall k | i < k < |log| :: !Wipes(log, k)
  }

  lemma WipesBefore(log: seq<Observed>, k: nat)
    requires k + 1 < |log|
    ensures Wipes(log, k) <==> Wipes(log[..|log| - 1], k)
  {
    assert log[..|log| - 1][..k] == log[..k];
  }

  lemma CountsBefore(log: seq<Observed>, i: nat)
    requires i + 1 < |log|
    ensures Counts(log, i) <==> Counts(log[..|log| - 1], i) && !Wipes(log, |log| - 1)
  {
    hide Wipes, Trial;
    var front := log[..|log| - 1];
    if Counts(log, i) {
      forall k | i < k < |front|
        ensures !Wipes(front, k)
      {
        WipesBefore(log, k);
      }
    }
    if Counts(front, i) && !Wipes(log, |log| - 1) {
      forall k | i < k < |log|
        ensures !Wipes(log, k)
      {
        if k < |front| {
          WipesBefore(log, k);
        }
      }
    }
  }

  lemma UnansweredIsTried(log: seq<Observed>)
    ensures Unanswered(log) ==> Tried(log)
    decreases |log|
  {
    if log != [] {
      UnansweredIsTried(log[..|log| - 1]);
    }
  }

  /** Something was tried, exactly when there is a trial behind the last physical change with no conflict unanswered. */
  lemma {:induction false} TriedIff(log: seq<Observed>)
    ensures Tried(log) <==> exists i :: 0 <= i < |log| && Counts(log, i)
    decreases |log|
  {
    hide Tried, Unanswered, Counts;
    if log == [] {
      assert !Tried(log) by {
        NothingTried();
      }
    } else {
      var last := |log| - 1;
      var front := log[..last];
      TriedIff(front);
      assert log == front + [log[last]];
      HistoryOne(front, log[last]);
      UnansweredIsTried(front);
      LastCounts(log);
      if Trial(log[last]) {
        assert Counts(log, last);
      } else if Tried(log) {
        var i :| 0 <= i < |front| && Counts(front, i);
        CountsBefore(log, i);
      } else if i :| 0 <= i < |log| && Counts(log, i) {
        CountsBefore(log, i);
        assert false;
      }
    }
  }

  lemma NothingTried()
    ensures !Tried([])
  {
  }

  lemma LastCounts(log: seq<Observed>)
    requires log != []
    ensures Counts(log, |log| - 1) <==> Trial(log[|log| - 1])
    ensures Wipes(log, |log| - 1) <==> log[|log| - 1] == PhysicalChange && !Unanswered(log[..|log| - 1])
  {
  }

  /** A device physically attached, with no conflict unanswered and nothing tried since, is offered once it is accepted. */
  lemma AttachedIsOffered(autoSync: bool, retryUncleanClose: bool, turns: seq<Turn>, event: DeviceEvent, answer: SyncStatus, i: nat)
    requires var r := Run(Booted(autoSync, retryUncleanClose), turns);
             && i < |r.log| && Wipes(r.log, i)
             && (forall k | i < k < |r.log| :: !Trial(r.log[k]))
             && Policy(autoSync, turns) && Open(r.log) == 0 && Accepts(r.app, event)
    ensures DeviceStep(Run(Booted(autoSync, retryUncleanClose), turns).app, event, answer).log == [AutoRequest(answer == SyncOk)]
  {
    hide Run, DeviceStep, Accepts, Tried, Unanswered, Open;
    var log := Run(Booted(autoSync, retryUncleanClose), turns).log;
    OfferedIff(autoSync, retryUncleanClose, turns, event, answer);
    WipedOut(log, i);
  }

  lemma WipedOut(log: seq<Observed>, i: nat)
    requires i < |log| && Wipes(log, i) && forall k | i < k < |log| :: !Trial(log[k])
    ensures !Tried(log)
  {
    hide Tried, Unanswered;
    TriedIff(log);
    forall k | 0 <= k < |log|
      ensures !Counts(log, k)
    {
    }
  }

  /** Nothing automatic is ever offered, by whatever call, while the policy last set is off. */
  lemma OffersFollowPolicy(autoSync: bool, retryUncleanClose: bool, turns: seq<Turn>, call: Call, answer: SyncStatus)
    ensures var step := CallStep(Run(Booted(autoSync, retryUncleanClose), turns).app, call, answer);
            (exists o :: o in step.log && o.AutoRequest?) ==> Policy(autoSync, turns)
  {
    var r := Run(Booted(autoSync, retryUncleanClose), turns);
    RunTells(autoSync, retryUncleanClose, turns);
    hide Run, DeviceStep, Accepts, Tried, Policy, Told, Consistent;
    if call.OnDevice? {
      OfferedIff(autoSync, retryUncleanClose, turns, call.deviceEvent, answer);
    }
  }

  /**
   * After any run, a failed operation that moved its data but was not closed is followed by a close recovery, exactly
   * when those are allowed, none was offered since the last accepted request, and the device is there.
   */
  lemma RecoveryOfferedIff(autoSync: bool, retryUncleanClose: bool, turns: seq<Turn>, event: SyncEvent, answer: SyncStatus)
    ensures var r := Run(Booted(autoSync, retryUncleanClose), turns);
            var log := SyncStep(r.app, event, answer).log;
            if Open(r.log) == 1 && event.kind == EventFailed && !event.report.closeRecoveryAttempt
               && event.report.dataPhaseCompleted && !event.report.sessionCloseAcknowledged
               && retryUncleanClose && !Recovered(r.log) && r.app.device.state == Available
            then log == [OperationEnded, RecoveryRequest(answer == SyncOk)]
            else forall o | o in log :: o == OperationEnded
  {
    var r := Run(Booted(autoSync, retryUncleanClose), turns);
    RunTells(autoSync, retryUncleanClose, turns);
    OpenWhileActive(autoSync, retryUncleanClose, turns);
    ConsistentDevice(r.app, r.log);
    hide Run, Consistent, Recovered, Tried, NoneOffered, Open, Policy;
  }

  // ---- The one retry ---------------------------------------------------------------------------

  /** What an offer leaves behind. */
  lemma AfterOffer(app: App, event: DeviceEvent, answer: SyncStatus, log: seq<Observed>)
    requires Consistent(app, log) && Accepts(app, event)
    requires app.flags.autoSyncOnAttach && !app.flags.autoAttempted && !IsActive(app.sync.state) && app.flags.retryCount == 0
    ensures var t := DeviceStep(app, event, answer).app;
            && t.device.state == Available && !t.device.conflictRecoveryRequired
            && t.flags.autoSyncOnAttach && !t.flags.disarmedByConflict && t.flags.retryCount == 0
            && (if answer == SyncOk then t.flags.autoActive && t.sync.state == Queued
                else t.flags.retryEligible && !IsActive(t.sync.state))
  {
    hide AutosSinceChange, Unanswered, Requests, Recoveries, Open, CancelSpec;
  }

  /** A retry that is needed is offered, and uses up the permission. */
  lemma RetryOffers(app: App, second: SyncStatus, third: SyncStatus)
    requires RetryNeeded(app)
    ensures var retried := CallStep(app, RetryAutoSync, second);
            && retried.log == [AutoRequest(second == SyncOk)]
            && CallStep(retried.app, RetryAutoSync, third).log == []
  {
  }

  lemma EmptyFailureEarns(app: App, failure: SyncEvent)
    requires app.sync.state == Queued && app.flags.autoActive && app.flags.retryCount == 0
    requires failure.kind == EventFailed && !failure.report.closeRecoveryAttempt && !failure.report.dataPhaseCompleted
             && failure.report.downloaded == 0 && failure.report.downloadedBytes == 0
    ensures var failed := SyncStep(app, failure, SyncOk);
            && failed.log == [OperationEnded] && failed.app.device == app.device && !IsActive(failed.app.sync.state)
            && failed.app.flags == app.flags.(retryEligible := true)
  {
  }

  /** An offer the transport refused is made once more, and not again; if none was made before for this attachment. */
  lemma RetryAfterRefusal(autoSync: bool, retryUncleanClose: bool, turns: seq<Turn>, event: DeviceEvent, first: SyncStatus,
                          second: SyncStatus, third: SyncStatus)
    requires var r := Run(Booted(autoSync, retryUncleanClose), turns);
             && Accepts(r.app, event) && Policy(autoSync, turns) && !Tried(r.log) && Open(r.log) == 0 && NoneOffered(r.log)
             && first != SyncOk
    ensures var r := Run(Booted(autoSync, retryUncleanClose), turns);
            var refused := DeviceStep(r.app, event, first);
            var retried := CallStep(refused.app, RetryAutoSync, second);
            && refused.log == [AutoRequest(false)] && retried.log == [AutoRequest(second == SyncOk)]
            && CallStep(retried.app, RetryAutoSync, third).log == []
  {
    var r := Run(Booted(autoSync, retryUncleanClose), turns);
    RunTells(autoSync, retryUncleanClose, turns);
    OpenWhileActive(autoSync, retryUncleanClose, turns);
    hide Run, Consistent, Recovered, Tried, NoneOffered, Open, Policy, DeviceStep, CallStep;
    ArrivesIff(r.app, event, first, r.log);
    AfterOffer(r.app, event, first, r.log);
    RetryOffers(DeviceStep(r.app, event, first).app, second, third);
  }

  /** An automatic operation that failed without having moved any data is tried once more. */
  lemma RetryAfterEmptyFailure(autoSync: bool, retryUncleanClose: bool, turns: seq<Turn>, event: DeviceEvent, failure: SyncEvent,
                               second: SyncStatus)
    requires var r := Run(Booted(autoSync, retryUncleanClose), turns);
             && Accepts(r.app, event) && Policy(autoSync, turns) && !Tried(r.log) && Open(r.log) == 0 && NoneOffered(r.log)
    requires failure.kind == EventFailed && !failure.report.closeRecoveryAttempt && !failure.report.dataPhaseCompleted
             && failure.report.downloaded == 0 && failure.report.downloadedBytes == 0
    ensures var r := Run(Booted(autoSync, retryUncleanClose), turns);
            var started := DeviceStep(r.app, event, SyncOk);
            var failed := SyncStep(started.app, failure, SyncOk);
            && started.log == [AutoRequest(true)] && failed.log == [OperationEnded]
            && CallStep(failed.app, RetryAutoSync, second).log == [AutoRequest(second == SyncOk)]
  {
    var r := Run(Booted(autoSync, retryUncleanClose), turns);
    RunTells(autoSync, retryUncleanClose, turns);
    OpenWhileActive(autoSync, retryUncleanClose, turns);
    hide Run, Consistent, Recovered, Tried, NoneOffered, Open, Policy, DeviceStep, SyncStep, CallStep;
    ArrivesIff(r.app, event, SyncOk, r.log);
    AfterOffer(r.app, event, SyncOk, r.log);
    EmptyFailureEarns(DeviceStep(r.app, event, SyncOk).app, failure);
    RetryOffers(SyncStep(DeviceStep(r.app, event, SyncOk).app, failure, SyncOk).app, second, second);
  }

  // ---- Cancelling --------------------------------------------------------------------------------

  /** What a cancellation makes of the operation: it is cancelling exactly if it was queued or running and could be told. */
  function CancelledIf(s: SyncSnapshot, answer: SyncStatus): SyncSnapshot {
    SyncSnapshot(if s.state in {Queued, Running} && answer == SyncOk then Cancelling else s.state, s.report)
  }

  /** A call to cancel, and the report of several devices, cancel what is queued or running; neither asks for anything. */
  lemma ConflictCancels(app: App, event: DeviceEvent, answer: SyncStatus)
    ensures CallStep(app, CancelSync, answer) == Step(app.(sync := CancelledIf(app.sync, answer)), [])
    ensures event.kind == MultipleDetected && !Outdated(event, app.device) ==>
              var step := DeviceStep(app, event, answer);
              step.log == [ConflictReported] && step.app.sync == CancelledIf(app.sync, answer)
  {
    assert [ConflictReported] + PhysicalLog(event.(kind := MultipleDetected)) + [] == [ConflictReported];
  }
}
