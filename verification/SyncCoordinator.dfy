/** One sync operation at a time: requests, cancellation and the events the transport reports. */
module SyncCoordinator {
  import opened Bytes

  datatype SyncState = Idle | Queued | Running | Cancelling | Completed | Failed | Cancelled

  datatype SyncStatus = SyncOk | SyncInvalidArgument | SyncInvalidState | SyncTransportError

  datatype SyncEventKind = EventStarted | EventProgress | EventCompleted | EventFailed | EventCancelled

  datatype SyncReport = SyncReport(
    candidates: nat,
    downloaded: nat,
    skipped: nat,
    downloadedBytes: u32,
    pending: nat,
    closeRecoveryAttempt: bool,
    dataPhaseCompleted: bool,
    sessionCloseSent: bool,
    sessionCloseAcknowledged: bool,
    platformError: int)

  datatype SyncEvent = SyncEvent(kind: SyncEventKind, report: SyncReport)

  datatype SyncSnapshot = SyncSnapshot(state: SyncState, report: SyncReport)

  datatype Answered = Answered(status: SyncStatus, snapshot: SyncSnapshot)

  const NO_REPORT: SyncReport := SyncReport(0, 0, 0, 0, 0, false, false, false, false, 0)
  const NO_SYNC: SyncSnapshot := SyncSnapshot(Idle, NO_REPORT)

  predicate IsActive(state: SyncState) {
    state == Queued || state == Running || state == Cancelling
  }

  predicate IsTerminal(kind: SyncEventKind) {
    kind == EventCompleted || kind == EventFailed || kind == EventCancelled
  }

  /** A request goes to the transport only while no operation is active; answer is the transport's own. */
  function RequestSpec(s: SyncSnapshot, recovery: bool, answer: SyncStatus): Answered {
    if IsActive(s.state) then Answered(SyncInvalidState, s)
    else if answer != SyncOk then Answered(answer, s)
    else Answered(SyncOk, SyncSnapshot(Queued, NO_REPORT.(closeRecoveryAttempt := recovery)))
  }

  function CancelSpec(s: SyncSnapshot, answer: SyncStatus): Answered {
    if s.state != Queued && s.state != Running then Answered(SyncInvalidState, s)
    else if answer != SyncOk then Answered(answer, s)
    else Answered(SyncOk, s.(state := Cancelling))
  }

  function EventSpec(s: SyncSnapshot, event: SyncEvent): Answered {
    match event.kind
    case EventStarted =>
      if s.state == Cancelling then Answered(SyncOk, SyncSnapshot(Cancelling, event.report))
      else if s.state != Queued then Answered(SyncInvalidState, s)
      else Answered(SyncOk, SyncSnapshot(Running, event.report))
    case EventProgress =>
      if s.state != Running && s.state != Cancelling then Answered(SyncInvalidState, s)
      else Answered(SyncOk, SyncSnapshot(s.state, event.report))
    case EventCompleted =>
      if s.state != Running then Answered(SyncInvalidState, s)
      else Answered(SyncOk, SyncSnapshot(Completed, event.report))
    case EventFailed =>
      if !IsActive(s.state) then Answered(SyncInvalidState, s)
      else Answered(SyncOk, SyncSnapshot(Failed, event.report))
    case EventCancelled =>
      if !IsActive(s.state) then Answered(SyncInvalidState, s)
      else Answered(SyncOk, SyncSnapshot(Cancelled, event.report))
  }

  // ---- Cancelling ----------------------------------------------------------------------

  function RunEvents(s: SyncSnapshot, events: seq<SyncEvent>): SyncSnapshot
    decreases |events|
  {
    if events == [] then s else RunEvents(EventSpec(s, events[0]).snapshot, events[1..])
  }

  /**
   * A cancellation under way ends exactly when a failure or a cancellation is reported. An operation that completes
   * just then is refused, so its completion alone leaves the machine cancelling, where no request is accepted.
   */
  lemma {:induction false} CancellingEndsIff(s: SyncSnapshot, events: seq<SyncEvent>)
    requires s.state == Cancelling
    ensures RunEvents(s, events).state == Cancelling
            <==> forall i | 0 <= i < |events| :: events[i].kind != EventFailed && events[i].kind != EventCancelled
    ensures RunEvents(s, events).state in {Cancelling, Failed, Cancelled}
    decreases |events|
  {
    if events != [] {
      var next := EventSpec(s, events[0]).snapshot;
      if next.state == Cancelling {
        CancellingEndsIff(next, events[1..]);
        assert forall i | 0 < i < |events| :: events[i] == events[1..][i - 1];
        assert forall i | 0 <= i < |events[1..]| :: events[1..][i] == events[i + 1];
      } else {
        InactiveIgnoresEvents(next, events[1..]);
      }
    }
  }

  lemma {:induction false} InactiveIgnoresEvents(s: SyncSnapshot, events: seq<SyncEvent>)
    requires !IsActive(s.state)
    ensures RunEvents(s, events) == s
    decreases |events|
  {
    if events != [] {
      InactiveIgnoresEvents(s, events[1..]);
    }
  }

  // ---- The coordinator object ------------------------------------------------------------

  class Coordinator {
    var state: SyncState
    var report: SyncReport

    function Current(): SyncSnapshot
      reads this
    {
      SyncSnapshot(state, report)
    }

    constructor ()
      ensures Current() == NO_SYNC
    {
      state, report := Idle, NO_REPORT;
    }

    method Request(recovery: bool, answer: SyncStatus) returns (status: SyncStatus)
      modifies this
      ensures Answered(status, Current()) == RequestSpec(old(Current()), recovery, answer)
    {
      if IsActive(state) {
        return SyncInvalidState;
      }
      if answer != SyncOk {
        return answer;
      }
      report := NO_REPORT;
      state := Queued;
      report := report.(closeRecoveryAttempt := recovery);
      return SyncOk;
    }

    method Cancel(answer: SyncStatus) returns (status: SyncStatus)
      modifies this
      ensures Answered(status, Current()) == CancelSpec(old(Current()), answer)
    {
      if state != Queued && state != Running {
        return SyncInvalidState;
      }
      if answer != SyncOk {
        return answer;
      }
      state := Cancelling;
      return SyncOk;
    }

    method HandleEvent(event: SyncEvent) returns (status: SyncStatus)
      modifies this
      ensures Answered(status, Current()) == EventSpec(old(Current()), event)
    {
      var next := state;
      match event.kind {
        case EventStarted =>
          if next != Cancelling {
            if next != Queued {
              return SyncInvalidState;
            }
            next := Running;
          }
        case EventProgress =>
          if next != Running && next != Cancelling {
            return SyncInvalidState;
          }
        case EventCompleted =>
          if next != Running {
            return SyncInvalidState;
          }
          next := Completed;
        case EventFailed =>
          if !IsActive(next) {
            return SyncInvalidState;
          }
          next := Failed;
        case EventCancelled =>
          if !IsActive(next) {
            return SyncInvalidState;
          }
          next := Cancelled;
      }
      state := next;
      report := event.report;
      return SyncOk;
    }
  }
}
