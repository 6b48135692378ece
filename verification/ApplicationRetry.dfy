/** The one retry of an automatic request, told from what happened: exactly when it is made. */
module ApplicationRetry {
  import opened DeviceService
  import opened SyncCoordinator
  import opened Application
  import opened ApplicationOffers

  // ---- What happened ----------------------------------------------------------------------

  /** An accepted device is offered, or not because an operation is open; the rest is as in the log. */
  datatype Fact =
    | Offered(accepted: bool)
    | Missed
    | Retried(accepted: bool)
    | Asked
    | Conflicted
    | Changed
    | Ended(event: SyncEvent)
    | PolicySet(on: bool)

  function FactsOf(before: Step, policy: bool, call: Call, answer: SyncStatus): seq<Fact> {
    var log := CallStep(before.app, call, answer).log;
    match call
    case OnDevice(event) =>
      if Accepts(before.app, event) then
        if !policy || Tried(before.log) then []
        else if Open(before.log) == 0 then [Offered(answer == SyncOk)] else [Missed]
      else if ConflictReported in log then [Conflicted]
      else if PhysicalChange in log then [Changed]
      else []
    case OnSync(event) => if OperationEnded in log then [Ended(event)] else []
    case RequestSync => if ManualRequest(true) in log then [Asked] else []
    case RetryAutoSync => if log != [] then [Retried(answer == SyncOk)] else []
    case CancelSync => []
    case SetPolicy(on) => [PolicySet(on)]
  }

  function Facts(autoSync: bool, retryUncleanClose: bool, turns: seq<Turn>): seq<Fact> {
    if turns == [] then []
    else
      var front, last := turns[..|turns| - 1], turns[|turns| - 1];
      Facts(autoSync, retryUncleanClose, front)
      + FactsOf(Run(Booted(autoSync, retryUncleanClose), front), Policy(autoSync, front), last.call, last.answer)
  }

  /** A conflict was reported and no manual request accepted since. */
  predicate Standing(f: seq<Fact>) {
    f != [] &&
    match f[|f| - 1]
    case Conflicted => true
    case Asked => false
    case _ => Standing(f[..|f| - 1])
  }

  /** The device is another one, physically, and nobody is asked to look into a conflict. */
  predicate Anew(f: seq<Fact>) {
    f != [] && f[|f| - 1] == Changed && !Standing(f[..|f| - 1])
  }

  /** Retries made for this attachment. */
  function Retries(f: seq<Fact>): nat {
    if f == [] || Anew(f) then 0 else Retries(f[..|f| - 1]) + if f[|f| - 1].Retried? then 1 else 0
  }

  /** It failed before it had moved any data, and was no attempt at closing a session. */
  predicate EmptyFailure(event: SyncEvent) {
    event.kind == EventFailed && !event.report.closeRecoveryAttempt && !event.report.dataPhaseCompleted
    && event.report.downloaded == 0 && event.report.downloadedBytes == 0
  }

  /** The operation under way, or that last failed without having moved data, was asked for automatically. */
  predicate Automatic(f: seq<Fact>) {
    f != [] && !Anew(f) &&
    match f[|f| - 1]
    case Offered(accepted) => accepted || Automatic(f[..|f| - 1])
    case Retried(accepted) => accepted || Automatic(f[..|f| - 1])
    case Asked => false
    case Conflicted => false
    case Ended(event) => EmptyFailure(event) && Retries(f[..|f| - 1]) == 0 && Automatic(f[..|f| - 1])
    case PolicySet(on) => on && Automatic(f[..|f| - 1])
    case _ => Automatic(f[..|f| - 1])
  }

  /** What a retry is for: an offer that was refused or missed, or an automatic operation that moved no data. */
  predicate Due(f: seq<Fact>) {
    f != [] && !Anew(f) &&
    match f[|f| - 1]
    case Offered(accepted) => !accepted
    case Missed => true
    case Retried(_) => false
    case Asked => false
    case Conflicted => false
    case Ended(event) => EmptyFailure(event) && Retries(f[..|f| - 1]) == 0 && Automatic(f[..|f| - 1])
    case PolicySet(on) => on && Due(f[..|f| - 1])
    case Changed => Due(f[..|f| - 1])
  }

  lemma FactOne(f: seq<Fact>, fact: Fact)
    ensures var grown := f + [fact];
            && (Standing(grown) <==> fact == Conflicted || (fact != Asked && Standing(f)))
            && (Anew(grown) <==> fact == Changed && !Standing(f))
            && Retries(grown) == (if Anew(grown) then 0 else Retries(f) + if fact.Retried? then 1 else 0)
            && (Automatic(grown) <==>
                 && !Anew(grown)
                 && match fact
                    case Offered(accepted) => accepted || Automatic(f)
                    case Retried(accepted) => accepted || Automatic(f)
                    case Asked => false
                    case Conflicted => false
                    case Ended(event) => EmptyFailure(event) && Retries(f) == 0 && Automatic(f)
                    case PolicySet(on) => on && Automatic(f)
                    case _ => Automatic(f))
            && (Due(grown) <==>
                 && !Anew(grown)
                 && match fact
                    case Offered(accepted) => !accepted
                    case Missed => true
                    case Retried(_) => false
                    case Asked => false
                    case Conflicted => false
                    case Ended(event) => EmptyFailure(event) && Retries(f) == 0 && Automatic(f)
                    case PolicySet(on) => on && Due(f)
                    case Changed => Due(f))
  {
    hide EmptyFailure;
    assert (f + [fact])[..|f|] == f;
  }

  // ---- The flags say so ------------------------------------------------------------------------

  predicate Counted(flags: Flags, f: seq<Fact>) {
    && (flags.disarmedByConflict <==> Standing(f))
    && (flags.autoActive <==> Automatic(f)) && (flags.retryEligible <==> Due(f)) && flags.retryCount == Retries(f)
  }

  /** Before monitoring starts there is nothing to forget. */
  predicate Untouched(app: App) {
    app.device.state == Stopped ==> !app.flags.autoActive && !app.flags.retryEligible && app.flags.retryCount == 0
  }

  /** The flags a retry depends on. */
  predicate SameRetry(was: Flags, now: Flags) {
    now.disarmedByConflict == was.disarmedByConflict && now.autoActive == was.autoActive
    && now.retryEligible == was.retryEligible && now.retryCount == was.retryCount
  }

  predicate CanOffer(app: App, event: DeviceEvent) {
    Accepts(app, event) && app.flags.autoSyncOnAttach && !app.flags.autoAttempted
  }

  /** The application with the snapshot the device service makes of an event. */
  function Moved(app: App, event: DeviceEvent): App {
    Preserve(app, event).(device := HandleDeviceSpec(app.device, event).snapshot)
  }

  lemma StepIsSnapshot(app: App, event: DeviceEvent, answer: SyncStatus)
    requires event.kind != MultipleDetected && !Outdated(event, app.device) && HandleDeviceSpec(app.device, event).status == CoreOk
    ensures DeviceStep(app, event, answer)
            == Step(OnSnapshot(Moved(app, event), answer).app, PhysicalLog(event) + OnSnapshot(Moved(app, event), answer).log)
  {
    hide HandleDeviceSpec, OnSnapshot, PhysicalLog, Outdated;
    var log := PhysicalLog(event) + OnSnapshot(Moved(app, event), answer).log;
    assert [] + PhysicalLog(event) + OnSnapshot(Moved(app, event), answer).log == log;
  }

  lemma AcceptMoves(app: App, event: DeviceEvent, log: seq<Observed>)
    requires Consistent(app, log) && Accepts(app, event)
    ensures event.kind != MultipleDetected && !Outdated(event, app.device)
    ensures Moved(app, event).device.state == Available && Moved(app, event).flags == app.flags && Moved(app, event).sync == app.sync
    ensures app.flags.previousState == Inspecting
  {
    hide AutosSinceChange, Unanswered, Requests, Recoveries, Open, DeviceValid;
  }

  lemma AutomaticFlags(app: App, answer: SyncStatus)
    ensures var now := RequestAutomatic(app, false, answer).app;
            && now.device == app.device
            && if IsActive(app.sync.state) || answer != SyncOk then SameRetry(app.flags.(retryEligible := true), now.flags)
               else SameRetry(app.flags.(autoActive := true, retryEligible := false), now.flags)
  {
  }

  lemma SeenAvailable(app: App)
    requires app.device.state == Available
    ensures Seen(app) == app.(flags := app.flags.(previousState := Available))
  {
  }

  lemma ArrivalFlags(app: App, answer: SyncStatus)
    requires app.device.state == Available && app.flags.previousState == Inspecting
    ensures var now := OnSnapshot(app, answer).app;
            && now.device == app.device
            && if !app.flags.autoSyncOnAttach || app.flags.autoAttempted then SameRetry(app.flags, now.flags)
               else if IsActive(app.sync.state) || answer != SyncOk then SameRetry(app.flags.(retryEligible := true), now.flags)
               else SameRetry(app.flags.(autoActive := true, retryEligible := false), now.flags)
  {
    hide Seen, RequestAutomatic;
    SeenAvailable(app);
    AutomaticFlags(Seen(app), answer);
  }

  lemma AcceptFlags(app: App, event: DeviceEvent, answer: SyncStatus, log: seq<Observed>)
    requires Consistent(app, log) && Accepts(app, event)
    ensures var now := DeviceStep(app, event, answer).app.flags;
            if !CanOffer(app, event) then SameRetry(app.flags, now)
            else if IsActive(app.sync.state) || answer != SyncOk then SameRetry(app.flags.(retryEligible := true), now)
            else SameRetry(app.flags.(autoActive := true, retryEligible := false), now)
    ensures DeviceStep(app, event, answer).app.device.state == Available
  {
    hide Consistent, OnSnapshot, DeviceStep, Moved, Outdated, HandleDeviceSpec, PhysicalLog;
    AcceptMoves(app, event, log);
    StepIsSnapshot(app, event, answer);
    ArrivalFlags(Moved(app, event), answer);
  }

  lemma ConflictFlags(app: App, event: DeviceEvent, answer: SyncStatus, log: seq<Observed>)
    requires Consistent(app, log) && event.kind == MultipleDetected && !Outdated(event, app.device)
    ensures var step := DeviceStep(app, event, answer);
            && ConflictReported in step.log
            && SameRetry(app.flags.(disarmedByConflict := true, autoActive := false, retryEligible := false), step.app.flags)
            && (step.app.device.state == Stopped ==> app.device.state == Stopped)
  {
    hide AutosSinceChange, Unanswered, Requests, Recoveries, Open, CancelSpec, DeviceValid;
    assert [ConflictReported] + PhysicalLog(event) + [] == [ConflictReported];
  }

  lemma QuietSnapshot(app: App, answer: SyncStatus)
    requires !(app.device.state == Available && app.flags.previousState == Inspecting)
    ensures OnSnapshot(app, answer) == Step(Seen(app), [])
  {
  }

  lemma OtherArrival(app: App, event: DeviceEvent)
    requires HandleDeviceSpec(app.device, event).status == CoreOk && !Accepts(app, event) && event.kind != MultipleDetected
    requires app.flags.previousState == app.device.state
    ensures !(HandleDeviceSpec(app.device, event).snapshot.state == Available && app.flags.previousState == Inspecting)
  {
  }

  lemma OtherMoves(app: App, event: DeviceEvent)
    requires HandleDeviceSpec(app.device, event).status == CoreOk && !Accepts(app, event) && event.kind != MultipleDetected
    requires app.flags.previousState == app.device.state && (app.device.state == Conflict ==> app.flags.disarmedByConflict)
    ensures var m := Moved(app, event);
            && !(m.device.state == Available && m.flags.previousState == Inspecting) && m.device.state != Stopped
            && SameRetry(app.flags, m.flags)
            && (ForgetsAttempts(m) ==>
                  !app.flags.disarmedByConflict && (PhysicalLog(event) == [PhysicalChange] || app.device.state == Stopped))
            && (PhysicalLog(event) == [PhysicalChange] && !app.flags.disarmedByConflict ==> ForgetsAttempts(m))
            && PhysicalLog(event) in {[], [PhysicalChange]}
  {
    OtherArrival(app, event);
    hide ForgetsAttempts, HandleDeviceSpec, Accepts;
    ForgetsIff(Preserve(app, event), event);
    NeverStopsAgain(app.device, event);
  }

  lemma SeenFlags(app: App)
    ensures SameRetry(if ForgetsAttempts(app) then app.flags.(autoActive := false, retryEligible := false, retryCount := 0)
                      else app.flags, Seen(app).flags)
    ensures Seen(app).device == app.device
  {
    hide ForgetsAttempts;
  }

  /** Any other event forgets, at a physical change without a conflict standing, or leaves these flags alone. */
  lemma OtherFlags(app: App, event: DeviceEvent, answer: SyncStatus, log: seq<Observed>)
    requires Consistent(app, log) && Told(app, log) && Untouched(app) && !Accepts(app, event) && event.kind != MultipleDetected
    ensures var step := DeviceStep(app, event, answer);
            && ConflictReported !in step.log
            && (if PhysicalChange in step.log && !app.flags.disarmedByConflict
                then SameRetry(app.flags.(autoActive := false, retryEligible := false, retryCount := 0), step.app.flags)
                else SameRetry(app.flags, step.app.flags))
            && (step.app.device.state == Stopped ==> app.device.state == Stopped)
  {
    assert app.flags.previousState == app.device.state && (app.device.state == Conflict ==> app.flags.disarmedByConflict);
    hide Consistent, Told, Moved, OnSnapshot, DeviceStep, Outdated, HandleDeviceSpec, PhysicalLog, ForgetsAttempts, Accepts, Seen;
    if Outdated(event, app.device) || HandleDeviceSpec(app.device, event).status != CoreOk {
      RefusedStep(app, event, answer);
    } else {
      var m := Moved(app, event);
      OtherMoves(app, event);
      StepIsSnapshot(app, event, answer);
      QuietSnapshot(m, answer);
      SeenFlags(m);
    }
  }

  lemma RefusedStep(app: App, event: DeviceEvent, answer: SyncStatus)
    requires event.kind != MultipleDetected
    requires Outdated(event, app.device) || HandleDeviceSpec(app.device, event).status != CoreOk
    ensures var step := DeviceStep(app, event, answer);
            step.log == [] && SameRetry(app.flags, step.app.flags) && step.app.device == app.device
  {
    hide HandleDeviceSpec, Outdated, OnSnapshot;
  }

  lemma AcceptCounted(before: Step, event: DeviceEvent, answer: SyncStatus, policy: bool, f: seq<Fact>)
    requires Consistent(before.app, before.log) && Told(before.app, before.log) && Accepts(before.app, event)
    requires Counted(before.app.flags, f) && before.app.flags.autoSyncOnAttach == policy
    requires Open(before.log) == if IsActive(before.app.sync.state) then 1 else 0
    ensures var now := DeviceStep(before.app, event, answer).app;
            Counted(now.flags, f + FactsOf(before, policy, OnDevice(event), answer)) && Untouched(now)
  {
    hide Consistent, DeviceStep, Standing, Anew, Automatic, Due, Retries, Tried, Recovered, NoneOffered, Open, Accepts, Unanswered;
    var facts := FactsOf(before, policy, OnDevice(event), answer);
    NoMore(f);
    AcceptFlags(before.app, event, answer, before.log);
    if facts != [] {
      FactOne(f, facts[0]);
    }
  }

  lemma OtherCounted(before: Step, event: DeviceEvent, answer: SyncStatus, policy: bool, f: seq<Fact>)
    requires Consistent(before.app, before.log) && Told(before.app, before.log) && Untouched(before.app)
    requires !Accepts(before.app, event) && Counted(before.app.flags, f)
    ensures var now := DeviceStep(before.app, event, answer).app;
            Counted(now.flags, f + FactsOf(before, policy, OnDevice(event), answer)) && Untouched(now)
  {
    hide Consistent, DeviceStep, Standing, Anew, Automatic, Due, Retries, Told, Accepts;
    var app := before.app;
    var facts := FactsOf(before, policy, OnDevice(event), answer);
    NoMore(f);
    if event.kind != MultipleDetected {
      OtherFlags(app, event, answer, before.log);
    } else if Outdated(event, app.device) {
      OutdatedNothing(app, event, answer);
    } else {
      ConflictFlags(app, event, answer, before.log);
    }
    if facts != [] {
      FactOne(f, facts[0]);
    }
  }

  lemma DeviceCounted(before: Step, event: DeviceEvent, answer: SyncStatus, policy: bool, f: seq<Fact>)
    requires Consistent(before.app, before.log) && Told(before.app, before.log) && Untouched(before.app)
    requires Counted(before.app.flags, f) && before.app.flags.autoSyncOnAttach == policy
    requires Open(before.log) == if IsActive(before.app.sync.state) then 1 else 0
    ensures var now := DeviceStep(before.app, event, answer).app;
            Counted(now.flags, f + FactsOf(before, policy, OnDevice(event), answer)) && Untouched(now)
  {
    hide Consistent, Told, Untouched, Counted, DeviceStep, FactsOf, Open, Accepts;
    if Accepts(before.app, event) {
      AcceptCounted(before, event, answer, policy, f);
    } else {
      OtherCounted(before, event, answer, policy, f);
    }
  }

  lemma NoMore(f: seq<Fact>)
    ensures f + [] == f
  {
  }

  lemma OutdatedNothing(app: App, event: DeviceEvent, answer: SyncStatus)
    requires Outdated(event, app.device)
    ensures DeviceStep(app, event, answer) == Step(app, [])
  {
  }

  lemma SyncCounted(before: Step, event: SyncEvent, answer: SyncStatus, policy: bool, f: seq<Fact>)
    requires Counted(before.app.flags, f) && Untouched(before.app) && before.app.flags.retryCount <= RETRY_LIMIT
    ensures var now := SyncStep(before.app, event, answer).app;
            Counted(now.flags, f + FactsOf(before, policy, OnSync(event), answer)) && Untouched(now)
  {
    hide Standing, Anew, Automatic, Due, Retries, RequestSpec;
    NoMore(f);
    FactOne(f, Ended(event));
  }

  lemma AskCounted(before: Step, answer: SyncStatus, policy: bool, f: seq<Fact>)
    requires Counted(before.app.flags, f) && Untouched(before.app)
    ensures var now := ManualStep(before.app, answer).app;
            Counted(now.flags, f + FactsOf(before, policy, RequestSync, answer)) && Untouched(now)
  {
    hide Standing, Anew, Automatic, Due, Retries;
    NoMore(f);
    FactOne(f, Asked);
  }

  lemma RetryCounted(before: Step, answer: SyncStatus, policy: bool, f: seq<Fact>)
    requires Counted(before.app.flags, f) && Untouched(before.app)
    ensures var now := CallStep(before.app, RetryAutoSync, answer).app;
            Counted(now.flags, f + FactsOf(before, policy, RetryAutoSync, answer)) && Untouched(now)
  {
    hide Standing, Anew, Automatic, Due, Retries;
    NoMore(f);
    FactOne(f, Retried(answer == SyncOk));
  }

  lemma PolicyCounted(before: Step, on: bool, answer: SyncStatus, policy: bool, f: seq<Fact>)
    requires Counted(before.app.flags, f) && Untouched(before.app)
    ensures var now := CallStep(before.app, SetPolicy(on), answer).app;
            Counted(now.flags, f + FactsOf(before, policy, SetPolicy(on), answer)) && Untouched(now)
  {
    hide Standing, Anew, Automatic, Due, Retries;
    FactOne(f, PolicySet(on));
  }

  lemma CallCounted(before: Step, call: Call, answer: SyncStatus, policy: bool, f: seq<Fact>)
    requires Consistent(before.app, before.log) && Told(before.app, before.log) && Untouched(before.app)
    requires Counted(before.app.flags, f) && before.app.flags.autoSyncOnAttach == policy
    ensures var now := CallStep(before.app, call, answer).app;
            Counted(now.flags, f + FactsOf(before, policy, call, answer)) && Untouched(now)
  {
    ActiveNeedsMonitor(before.app, before.log);
    hide Consistent, Told, Counted, Untouched, DeviceStep, SyncStep, ManualStep, RequestAutomatic, FactsOf;
    match call {
      case OnDevice(event) => DeviceCounted(before, event, answer, policy, f);
      case OnSync(event) => SyncCounted(before, event, answer, policy, f);
      case RequestSync => AskCounted(before, answer, policy, f);
      case RetryAutoSync => RetryCounted(before, answer, policy, f);
      case SetPolicy(on) => PolicyCounted(before, on, answer, policy, f);
      case CancelSync => CancelCounted(before, answer, policy, f);
    }
  }

  lemma CancelCounted(before: Step, answer: SyncStatus, policy: bool, f: seq<Fact>)
    requires Counted(before.app.flags, f) && Untouched(before.app)
    ensures var now := CallStep(before.app, CancelSync, answer).app;
            Counted(now.flags, f + FactsOf(before, policy, CancelSync, answer)) && Untouched(now)
  {
    hide Standing, Anew, Automatic, Due, Retries;
    NoMore(f);
  }

  lemma ActiveNeedsMonitor(app: App, log: seq<Observed>)
    requires Consistent(app, log)
    ensures app.flags.retryCount <= RETRY_LIMIT
    ensures Open(log) == if IsActive(app.sync.state) then 1 else 0
  {
  }

  lemma {:induction false} RunCounted(autoSync: bool, retryUncleanClose: bool, turns: seq<Turn>)
    ensures var r := Run(Booted(autoSync, retryUncleanClose), turns);
            Counted(r.app.flags, Facts(autoSync, retryUncleanClose, turns)) && Untouched(r.app)
  {
    hide CallStep, Consistent, Told, Policy, FactsOf;
    if turns != [] {
      hide Counted, Untouched;
      var front, last := turns[..|turns| - 1], turns[|turns| - 1];
      RunCounted(autoSync, retryUncleanClose, front);
      RunTells(autoSync, retryUncleanClose, front);
      CallCounted(Run(Booted(autoSync, retryUncleanClose), front), last.call, last.answer, Policy(autoSync, front),
                  Facts(autoSync, retryUncleanClose, front));
    }
  }

  /**
   * After any run, a retry is offered exactly when the policy last set is on, an offer was refused or missed or an
   * automatic operation failed without having moved data, none was retried for this attachment, no conflict is
   * unanswered, the device is there and no operation is open.
   */
  lemma RetryOfferedIff(autoSync: bool, retryUncleanClose: bool, turns: seq<Turn>, answer: SyncStatus)
    ensures var r := Run(Booted(autoSync, retryUncleanClose), turns);
            var f := Facts(autoSync, retryUncleanClose, turns);
            CallStep(r.app, RetryAutoSync, answer).log ==
            if Policy(autoSync, turns) && Due(f) && Retries(f) == 0 && !Standing(f) && r.app.device.state == Available
               && Open(r.log) == 0
            then [AutoRequest(answer == SyncOk)] else []
  {
    var r := Run(Booted(autoSync, retryUncleanClose), turns);
    RunCounted(autoSync, retryUncleanClose, turns);
    RunTells(autoSync, retryUncleanClose, turns);
    OpenWhileActive(autoSync, retryUncleanClose, turns);
    ConsistentDevice(r.app, r.log);
    hide Run, Facts, Standing, Due, Retries, Automatic, Open, Policy, Consistent, Told;
  }

  /** What an accepted request starts: a queued operation with a blank report, marked only if it is a close recovery. */
  lemma AcceptedStartsAfresh(app: App, call: Call, answer: SyncStatus, log: seq<Observed>)
    requires Consistent(app, log)
    ensures var step := CallStep(app, call, answer);
            && (AutoRequest(true) in step.log || ManualRequest(true) in step.log ==>
                  step.app.sync == SyncSnapshot(Queued, NO_REPORT))
            && (RecoveryRequest(true) in step.log ==>
                  step.app.sync == SyncSnapshot(Queued, NO_REPORT.(closeRecoveryAttempt := true)))
  {
    hide DeviceStep, AutosSinceChange, Unanswered, Requests, Recoveries, Open;
    if call.OnDevice? {
      DeviceStartsAfresh(app, call.deviceEvent, answer, log);
    }
  }

  lemma AcceptStartsAfresh(app: App, event: DeviceEvent, answer: SyncStatus, log: seq<Observed>)
    requires Consistent(app, log) && Accepts(app, event)
    ensures var step := DeviceStep(app, event, answer);
            AutoRequest(true) in step.log ==> step.app.sync == SyncSnapshot(Queued, NO_REPORT)
  {
    hide AutosSinceChange, Unanswered, Requests, Recoveries, Open, CancelSpec, ForgetsAttempts, DeviceValid;
  }

  lemma SnapshotAsksOnly(app: App, answer: SyncStatus)
    ensures forall o | o in OnSnapshot(app, answer).log :: o.AutoRequest?
  {
    hide RequestSpec, ForgetsAttempts;
  }

  lemma DeviceAsksOnly(app: App, event: DeviceEvent, answer: SyncStatus)
    ensures forall o | o in DeviceStep(app, event, answer).log :: !o.ManualRequest? && !o.RecoveryRequest?
  {
    hide HandleDeviceSpec, OnSnapshot, CancelSpec, Outdated;
    var marked := MarkStep(app, event, answer).app;
    SnapshotAsksOnly(marked.(device := HandleDeviceSpec(marked.device, event).snapshot), answer);
  }

  lemma DeviceStartsAfresh(app: App, event: DeviceEvent, answer: SyncStatus, log: seq<Observed>)
    requires Consistent(app, log)
    ensures var step := DeviceStep(app, event, answer);
            && (AutoRequest(true) in step.log ==> step.app.sync == SyncSnapshot(Queued, NO_REPORT))
            && ManualRequest(true) !in step.log && RecoveryRequest(true) !in step.log
  {
    hide DeviceStep, Accepts, Consistent;
    DeviceAsksOnly(app, event, answer);
    if Accepts(app, event) {
      AcceptStartsAfresh(app, event, answer, log);
    } else {
      OthersOfferNothing(app, event, answer, log);
    }
  }
}
