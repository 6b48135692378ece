/** The state of the attached device, driven by transport events. */
module DeviceService {
  import opened Bytes

  datatype DeviceState = Stopped | Waiting | Inspecting | Available | SessionActive | Conflict | Faulted

  datatype CoreStatus = CoreOk | CoreInvalidArgument | CoreInvalidTransition

  datatype Identity = Identity(
    vendorId: u16,
    productId: u16,
    address: byte,
    configurationCount: byte,
    matchingConfigurationCount: byte,
    interfaceNumber: byte,
    bulkOutEndpoint: byte,
    bulkInEndpoint: byte,
    bulkMaxPacketSize: u16,
    attachmentGeneration: u32,
    highSpeed: bool)

  const NO_IDENTITY: Identity := Identity(0, 0, 0, 0, 0, 0, 0, 0, 0, 0, false)

  datatype DeviceEventKind =
    | MonitorStarted | Attached | Accepted | SessionOpened | SessionClosed | Detached | MultipleDetected | Failure

  datatype DeviceEvent = DeviceEvent(
    kind: DeviceEventKind,
    identity: Identity,
    platformError: int,
    eligibleDevices: byte,
    revision: u32,
    softwareReenumeration: bool)

  datatype DeviceSnapshot = DeviceSnapshot(
    state: DeviceState,
    identity: Identity,
    lastPlatformError: int,
    eligibleDevices: byte,
    revision: u32,
    conflictRecoveryRequired: bool)

  datatype Handled = Handled(status: CoreStatus, snapshot: DeviceSnapshot)

  const NO_DEVICE: DeviceSnapshot := DeviceSnapshot(Stopped, NO_IDENTITY, 0, 0, 0, false)

  predicate SameDevice(a: Identity, b: Identity) {
    a.vendorId == b.vendorId && a.productId == b.productId && a.address == b.address
    && a.attachmentGeneration == b.attachmentGeneration
  }

  predicate HasRevision(event: DeviceEvent) {
    event.kind in {Attached, Accepted, Detached, MultipleDetected}
  }

  predicate Outdated(event: DeviceEvent, s: DeviceSnapshot) {
    event.revision != 0 && event.revision < s.revision
  }

  /** Whether the event is accepted in this state. */
  predicate Admissible(s: DeviceSnapshot, event: DeviceEvent) {
    && !(HasRevision(event) && Outdated(event, s))
    && match event.kind
       case MonitorStarted => s.state == Stopped
       case Attached => s.state == Waiting
       case Accepted => s.state == Inspecting && SameDevice(s.identity, event.identity)
       case SessionOpened => s.state == Available
       case SessionClosed => s.state == Conflict || s.state == SessionActive
       case Detached => s.state != Stopped && s.state != Waiting
       case MultipleDetected => s.state != Stopped && event.eligibleDevices >= 2
       case Failure => true
  }

  /** The fields an accepted event sets, apart from the revision. */
  function Apply(s: DeviceSnapshot, event: DeviceEvent): DeviceSnapshot {
    match event.kind
    case MonitorStarted => s.(state := Waiting)
    case Attached => s.(state := Inspecting, identity := event.identity, eligibleDevices := 0)
    case Accepted => s.(state := Available, identity := event.identity, eligibleDevices := 1)
    case SessionOpened => s.(state := SessionActive)
    case SessionClosed => if s.state == Conflict then s else s.(state := Available)
    case Detached =>
      if s.state == Conflict && event.eligibleDevices != 0 then s.(eligibleDevices := event.eligibleDevices)
      else s.(state := Waiting, identity := NO_IDENTITY, eligibleDevices := 0,
              conflictRecoveryRequired := if s.state == Conflict then false else s.conflictRecoveryRequired)
    case MultipleDetected =>
      s.(state := Conflict, identity := NO_IDENTITY, eligibleDevices := event.eligibleDevices, conflictRecoveryRequired := true)
    case Failure =>
      s.(lastPlatformError := event.platformError, state := if s.state == Conflict then Conflict else Faulted)
  }

  function HandleDeviceSpec(s: DeviceSnapshot, event: DeviceEvent): Handled {
    if !Admissible(s, event) then Handled(CoreInvalidTransition, s)
    else
      var next := Apply(s, event);
      Handled(CoreOk, if HasRevision(event) && event.revision != 0 then next.(revision := event.revision) else next)
  }

  // ---- Invariant -------------------------------------------------------------------

  predicate DeviceValid(s: DeviceSnapshot) {
    && (s.conflictRecoveryRequired <==> s.state == Conflict)
    && (s.state in {Stopped, Waiting, Conflict} ==> s.identity == NO_IDENTITY)
    && (match s.state
        case Available => s.eligibleDevices == 1
        case SessionActive => s.eligibleDevices == 1
        case Conflict => s.eligibleDevices >= 1
        case Faulted => s.eligibleDevices <= 1
        case _ => s.eligibleDevices == 0)
  }

  lemma DeviceEventKeepsValid(s: DeviceSnapshot, event: DeviceEvent)
    requires DeviceValid(s)
    ensures DeviceValid(HandleDeviceSpec(s, event).snapshot)
    ensures s.revision <= HandleDeviceSpec(s, event).snapshot.revision
  {
  }

  function RunDevice(s: DeviceSnapshot, events: seq<DeviceEvent>): DeviceSnapshot
    decreases |events|
  {
    if events == [] then s else RunDevice(HandleDeviceSpec(s, events[0]).snapshot, events[1..])
  }

  /** A conflict ends only with an accepted detach that leaves no eligible device. */
  lemma {:induction false} ConflictHoldsUntilEmpty(s: DeviceSnapshot, events: seq<DeviceEvent>)
    requires DeviceValid(s) && s.state == Conflict
    requires forall i | 0 <= i < |events| :: events[i].kind == Detached ==> events[i].eligibleDevices != 0
    ensures RunDevice(s, events).state == Conflict && RunDevice(s, events).conflictRecoveryRequired
    decreases |events|
  {
    if events != [] {
      DeviceEventKeepsValid(s, events[0]);
      ConflictHoldsUntilEmpty(HandleDeviceSpec(s, events[0]).snapshot, events[1..]);
    }
  }

  /** Over every run the topology revision only grows, and the invariant holds. */
  lemma {:induction false} RevisionsGrow(s: DeviceSnapshot, events: seq<DeviceEvent>)
    requires DeviceValid(s)
    ensures s.revision <= RunDevice(s, events).revision && DeviceValid(RunDevice(s, events))
    decreases |events|
  {
    hide HandleDeviceSpec, DeviceValid;
    if events != [] {
      DeviceEventKeepsValid(s, events[0]);
      RevisionsGrow(HandleDeviceSpec(s, events[0]).snapshot, events[1..]);
    }
  }

  // ---- The service object ------------------------------------------------------------

  class Service {
    var state: DeviceState
    var identity: Identity
    var lastPlatformError: int
    var eligibleDevices: byte
    var revision: u32
    var conflictRecoveryRequired: bool

    function Current(): DeviceSnapshot
      reads this
    {
      DeviceSnapshot(state, identity, lastPlatformError, eligibleDevices, revision, conflictRecoveryRequired)
    }

    constructor ()
      ensures Current() == NO_DEVICE && DeviceValid(Current())
    {
      state, identity, lastPlatformError := Stopped, NO_IDENTITY, 0;
      eligibleDevices, revision, conflictRecoveryRequired := 0, 0, false;
    }

    method HandleEvent(event: DeviceEvent) returns (status: CoreStatus)
      modifies this
      ensures Handled(status, Current()) == HandleDeviceSpec(old(Current()), event)
      ensures old(DeviceValid(Current())) ==> DeviceValid(Current())
    {
      if HasRevision(event) && event.revision != 0 && event.revision < revision {
        return CoreInvalidTransition;
      }
      var next := state;
      match event.kind {
        case MonitorStarted =>
          if state != Stopped {
            return CoreInvalidTransition;
          }
          next := Waiting;
        case Attached =>
          if state != Waiting {
            return CoreInvalidTransition;
          }
          identity, eligibleDevices := event.identity, 0;
          next := Inspecting;
        case Accepted =>
          if state != Inspecting || !SameDevice(identity, event.identity) {
            return CoreInvalidTransition;
          }
          identity, eligibleDevices := event.identity, 1;
          next := Available;
        case SessionOpened =>
          if state != Available {
            return CoreInvalidTransition;
          }
          next := SessionActive;
        case SessionClosed =>
          if state != Conflict {
            if state != SessionActive {
              return CoreInvalidTransition;
            }
            next := Available;
          }
        case Detached =>
          if state == Stopped || state == Waiting {
            return CoreInvalidTransition;
          }
          eligibleDevices := if state == Conflict then event.eligibleDevices else 0;
          if state != Conflict || event.eligibleDevices == 0 {
            if state == Conflict {
              conflictRecoveryRequired := false;
            }
            identity := NO_IDENTITY;
            next := Waiting;
          }
        case MultipleDetected =>
          if state == Stopped || event.eligibleDevices < 2 {
            return CoreInvalidTransition;
          }
          identity, eligibleDevices, conflictRecoveryRequired := NO_IDENTITY, event.eligibleDevices, true;
          next := Conflict;
        case Failure =>
          lastPlatformError := event.platformError;
          if state != Conflict {
            next := Faulted;
          }
      }
      state := next;
      if HasRevision(event) && event.revision != 0 {
        revision := event.revision;
      }
      return CoreOk;
    }
  }
}
