/** The Wi-Fi policy machine: which network to try, how often, and when to fall back to the hotspot. */
module NetworkCoordinator {
  import opened Bytes

  datatype State = Stopped | Searching | Connecting | ClientReady | Reconnecting | HotspotStarting | HotspotReady | Faulted

  datatype Event =
    | Start
    | ScanSelected(networkId: u32)
    | ScanEmpty
    | ClientConnected
    | ClientFailed(error: int)
    | ClientLost(error: int)
    | ClientHealthy
    | ClientUnhealthy(error: int)
    | HotspotStarted
    | HotspotFailed(error: int)
    | RetrySaved
    | ForceHotspot
    | TransferStarted
    | TransferFinished
    | Tick(elapsed: u32)
    | Stop
  {
    predicate IsFromRadio() {
      ScanSelected? || ScanEmpty? || ClientConnected? || ClientFailed? || ClientLost? || ClientHealthy? || ClientUnhealthy?
      || HotspotStarted? || HotspotFailed?
    }
  }

  datatype Action =
    | NoAction
    | ScanSaved
    | ConnectSaved(networkId: u32)
    | RecoverSaved(networkId: u32)
    | ProbeClient(networkId: u32)
    | StartHotspot
    | StopRadio

  datatype Status = Ok | InvalidArgument | InvalidState | TransferLocked

  datatype Config = Config(
    startupTimeout: u32,
    attemptLimit: u32,
    reconnectTimeout: u32,
    probeInterval: u32,
    failureThreshold: u32)

  datatype Snapshot = Snapshot(
    state: State,
    selected: u32,
    elapsed: u32,
    timeout: u32,
    attempts: u32,
    healthElapsed: u32,
    failures: u32,
    lastError: int,
    transferActive: bool)

  datatype Outcome = Outcome(status: Status, snapshot: Snapshot, action: Action)

  const UINT32_MAX: u32 := 0xffff_ffff

  function SaturatedAdd(value: u32, increment: u32): u32 {
    if value + increment > UINT32_MAX then UINT32_MAX else value + increment
  }

  predicate ConfigValid(c: Config) {
    c.startupTimeout != 0 && c.attemptLimit != 0 && c.reconnectTimeout != 0 && c.probeInterval != 0 && c.failureThreshold != 0
  }

  const INITIAL: Snapshot := Snapshot(Stopped, 0, 0, 0, 0, 0, 0, 0, false)

  function TimeoutOf(c: Config, state: State): u32 {
    match state
    case Searching => c.startupTimeout
    case Connecting => c.startupTimeout
    case Reconnecting => c.reconnectTimeout
    case _ => 0
  }

  /** Entering a state restarts its clock; the health clock survives only into the ready state. */
  function Enter(c: Config, s: Snapshot, state: State): Snapshot {
    s.(state := state, elapsed := 0, timeout := TimeoutOf(c, state),
       healthElapsed := if state == ClientReady then s.healthElapsed else 0)
  }

  function ToHotspot(c: Config, s: Snapshot): Outcome {
    Outcome(Ok, Enter(c, s, HotspotStarting).(selected := 0), StartHotspot)
  }

  function Reject(status: Status, s: Snapshot): Outcome {
    Outcome(status, s, NoAction)
  }

  predicate IsReady(state: State) {
    state == ClientReady || state == HotspotReady
  }

  predicate IsTimed(state: State) {
    state == Searching || state == Connecting || state == Reconnecting
  }

  function HandleTick(c: Config, s: Snapshot, elapsed: u32): Outcome {
    if elapsed == 0 then Reject(InvalidArgument, s)
    else if s.state == ClientReady then
      if s.transferActive then Outcome(Ok, s.(healthElapsed := 0), NoAction)
      else
        var health := SaturatedAdd(s.healthElapsed, elapsed);
        if health >= c.probeInterval then Outcome(Ok, s.(healthElapsed := 0), ProbeClient(s.selected))
        else Outcome(Ok, s.(healthElapsed := health), NoAction)
    else if !IsTimed(s.state) then Outcome(Ok, s, NoAction)
    else
      var phase := s.(elapsed := SaturatedAdd(s.elapsed, elapsed));
      if phase.elapsed >= phase.timeout then ToHotspot(c, phase) else Outcome(Ok, phase, NoAction)
  }

  function HandleFailure(c: Config, s: Snapshot, error: int): Outcome {
    var t := s.(lastError := error);
    if s.state != Connecting && s.state != Reconnecting then Reject(InvalidState, s)
    else if s.state == Reconnecting then Outcome(Ok, t, NoAction)
    else if s.attempts < c.attemptLimit then
      Outcome(Ok, Enter(c, t.(attempts := s.attempts + 1), Connecting), RecoverSaved(s.selected))
    else ToHotspot(c, t)
  }

  function HandleUnhealthy(c: Config, s: Snapshot, error: int): Outcome {
    if s.state != ClientReady then Reject(InvalidState, s)
    else if s.transferActive then Reject(TransferLocked, s)
    else
      var t := s.(lastError := error, failures := SaturatedAdd(s.failures, 1));
      if t.failures >= c.failureThreshold then Outcome(Ok, Enter(c, t, Reconnecting), RecoverSaved(s.selected))
      else Outcome(Ok, t, NoAction)
  }

  function HandleSpec(c: Config, s: Snapshot, event: Event): Outcome {
    match event
    case Start =>
      if s.state != Stopped && s.state != Faulted then Reject(InvalidState, s)
      else Outcome(Ok, Enter(c, s.(lastError := 0, selected := 0, attempts := 0, transferActive := false), Searching), ScanSaved)
    case ScanSelected(networkId) =>
      if networkId == 0 then Reject(InvalidArgument, s)
      else if s.state != Searching then Reject(InvalidState, s)
      else Outcome(Ok, Enter(c, s.(selected := networkId, attempts := 1), Connecting), ConnectSaved(networkId))
    case ScanEmpty =>
      if s.state != Searching then Reject(InvalidState, s) else ToHotspot(c, s)
    case ClientConnected =>
      if s.state != Connecting && s.state != Reconnecting then Reject(InvalidState, s)
      else Outcome(Ok, Enter(c, s.(lastError := 0, healthElapsed := 0, failures := 0), ClientReady), NoAction)
    case ClientFailed(error) => HandleFailure(c, s, error)
    case ClientLost(error) =>
      if s.state != ClientReady || s.selected == 0 then Reject(InvalidState, s)
      else Outcome(Ok, Enter(c, s.(lastError := error), Reconnecting), ConnectSaved(s.selected))
    case ClientHealthy =>
      if s.state != ClientReady then Reject(InvalidState, s)
      else Outcome(Ok, s.(lastError := 0, failures := 0), NoAction)
    case ClientUnhealthy(error) => HandleUnhealthy(c, s, error)
    case HotspotStarted =>
      if s.state != HotspotStarting then Reject(InvalidState, s)
      else Outcome(Ok, Enter(c, s.(lastError := 0), HotspotReady), NoAction)
    case HotspotFailed(error) =>
      if s.state != HotspotStarting then Reject(InvalidState, s)
      else Outcome(Ok, Enter(c, s.(lastError := error), Faulted), NoAction)
    case RetrySaved =>
      if !IsReady(s.state) then Reject(InvalidState, s)
      else if s.transferActive then Reject(TransferLocked, s)
      else Outcome(Ok, Enter(c, s.(lastError := 0, selected := 0), Searching), ScanSaved)
    case ForceHotspot =>
      if s.state == Stopped || s.state == HotspotStarting || s.state == HotspotReady then Reject(InvalidState, s)
      else if s.transferActive then Reject(TransferLocked, s)
      else ToHotspot(c, s)
    case TransferStarted =>
      if !IsReady(s.state) || s.transferActive then Reject(InvalidState, s)
      else Outcome(Ok, s.(transferActive := true), NoAction)
    case TransferFinished =>
      if !s.transferActive then Reject(InvalidState, s)
      else Outcome(Ok, s.(transferActive := false), NoAction)
    case Tick(elapsed) => HandleTick(c, s, elapsed)
    case Stop => Outcome(Ok, INITIAL, StopRadio)
  }

  // ---- The invariant ---------------------------------------------------------------

  predicate Valid(c: Config, s: Snapshot) {
    && ConfigValid(c)
    && s.timeout == TimeoutOf(c, s.state)
    && (if IsTimed(s.state) then s.elapsed < s.timeout else s.elapsed == 0)
    && s.attempts <= c.attemptLimit
    && (s.state == Connecting ==> s.attempts >= 1)
    && (s.selected != 0 <==> s.state == Connecting || s.state == ClientReady || s.state == Reconnecting)
    && (s.state == ClientReady ==> s.failures < c.failureThreshold)
    && (if s.state == ClientReady then s.healthElapsed < c.probeInterval else s.healthElapsed == 0)
    && (s.transferActive ==> s.state != Stopped && s.state != Searching && s.state != Connecting)
  }

  predicate KeepsValid(c: Config, s: Snapshot, r: Outcome) {
    Valid(c, r.snapshot) && (r.status != Ok ==> r.snapshot == s && r.action == NoAction)
  }

  lemma TickKeepsValid(c: Config, s: Snapshot, elapsed: u32)
    requires Valid(c, s)
    ensures KeepsValid(c, s, HandleTick(c, s, elapsed))
  {
  }

  lemma FailureKeepsValid(c: Config, s: Snapshot, error: int)
    requires Valid(c, s)
    ensures KeepsValid(c, s, HandleFailure(c, s, error)) && KeepsValid(c, s, HandleUnhealthy(c, s, error))
  {
  }

  /** Every event, accepted or not, keeps the invariant; a rejected event changes nothing and asks for nothing. */
  lemma HandleKeepsValid(c: Config, s: Snapshot, event: Event)
    requires Valid(c, s)
    ensures Valid(c, HandleSpec(c, s, event).snapshot)
    ensures HandleSpec(c, s, event).status != Ok ==>
              HandleSpec(c, s, event).snapshot == s && HandleSpec(c, s, event).action == NoAction
  {
    hide HandleTick, HandleFailure, HandleUnhealthy;
    match event {
      case Tick(elapsed) => TickKeepsValid(c, s, elapsed);
      case ClientFailed(error) => FailureKeepsValid(c, s, error);
      case ClientUnhealthy(error) => FailureKeepsValid(c, s, error);
      case _ =>
    }
  }

  function Run(c: Config, s: Snapshot, events: seq<Event>): Snapshot {
    if events == [] then s
    else HandleSpec(c, Run(c, s, events[..|events| - 1]), events[|events| - 1]).snapshot
  }

  lemma {:induction false} RunKeepsValid(c: Config, s: Snapshot, events: seq<Event>)
    requires Valid(c, s)
    ensures Valid(c, Run(c, s, events))
  {
    hide HandleSpec, Valid;
    if events != [] {
      RunKeepsValid(c, s, events[..|events| - 1]);
      HandleKeepsValid(c, Run(c, s, events[..|events| - 1]), events[|events| - 1]);
    }
  }

  // ---- The action always fits the state ----------------------------------------------

  /** The action a state may be waiting on. */
  predicate Fits(s: Snapshot, action: Action) {
    match action
    case NoAction => true
    case ScanSaved => s.state == Searching
    case ConnectSaved(id) => (s.state == Connecting || s.state == Reconnecting) && id == s.selected
    case RecoverSaved(id) => (s.state == Connecting || s.state == Reconnecting) && id == s.selected
    case ProbeClient(id) => s.state == ClientReady && !s.transferActive && id == s.selected
    case StartHotspot => s.state == HotspotStarting
    case StopRadio => s.state == Stopped
  }

  lemma ActionFits(c: Config, s: Snapshot, event: Event)
    requires Valid(c, s)
    ensures Fits(HandleSpec(c, s, event).snapshot, HandleSpec(c, s, event).action)
  {
  }

  // ---- Time bound ----------------------------------------------------------------------

  /** Milliseconds of ticks taken in since the machine last left an untimed state. */
  function Waited(c: Config, s: Snapshot, events: seq<Event>): nat {
    if events == [] then 0
    else
      var before := Run(c, s, events[..|events| - 1]);
      var event := events[|events| - 1];
      var after := HandleSpec(c, before, event).snapshot;
      if !IsTimed(before.state) || !IsTimed(after.state) then 0
      else Waited(c, s, events[..|events| - 1]) + if event.Tick? then event.elapsed else 0
  }

  function WaitBound(c: Config, state: State): int {
    match state
    case Searching => c.startupTimeout
    case Connecting => (c.attemptLimit + 1) * c.startupTimeout
    case Reconnecting => c.reconnectTimeout
    case _ => 1
  }

  /** The wait so far is accounted for by the finished attempts and the clock of the current one. */
  predicate Accounted(c: Config, s: Snapshot, waited: nat) {
    match s.state
    case Searching => waited == s.elapsed
    case Connecting => waited <= s.attempts * c.startupTimeout + s.elapsed
    case Reconnecting => waited == s.elapsed
    case _ => waited == 0
  }

  lemma StepAccounted(c: Config, s: Snapshot, event: Event, waited: nat)
    requires Valid(c, s) && Accounted(c, s, waited)
    ensures var after := HandleSpec(c, s, event).snapshot;
            Accounted(c, after, if !IsTimed(s.state) || !IsTimed(after.state) then 0
                                else waited + if event.Tick? then event.elapsed else 0)
  {
    var after := HandleSpec(c, s, event).snapshot;
    if s.state == Connecting && after.state == Connecting && event.ClientFailed? {
      assert after.attempts * c.startupTimeout == s.attempts * c.startupTimeout + c.startupTimeout;
    }
  }

  lemma {:induction false} RunAccounted(c: Config, s: Snapshot, events: seq<Event>)
    requires Valid(c, s) && !IsTimed(s.state)
    ensures Accounted(c, Run(c, s, events), Waited(c, s, events))
  {
    hide HandleSpec, Valid, Accounted;
    if events != [] {
      var before := Run(c, s, events[..|events| - 1]);
      RunAccounted(c, s, events[..|events| - 1]);
      RunKeepsValid(c, s, events[..|events| - 1]);
      StepAccounted(c, before, events[|events| - 1], Waited(c, s, events[..|events| - 1]));
    } else {
      AtRestAccounted(c, s);
    }
  }

  lemma AtRestAccounted(c: Config, s: Snapshot)
    requires !IsTimed(s.state)
    ensures Accounted(c, s, 0)
  {
  }

  /**
   * However the ticks fall, and in spite of the saturating clock: a machine still searching or connecting has waited
   * less than attempt limit + 1 startup timeouts since it was last at rest, and one reconnecting less than one
   * reconnect timeout.
   */
  lemma WaitIsBounded(c: Config, s: Snapshot, events: seq<Event>)
    requires Valid(c, s) && !IsTimed(s.state)
    ensures Waited(c, s, events) < WaitBound(c, Run(c, s, events).state)
  {
    hide *;
    RunAccounted(c, s, events);
    RunKeepsValid(c, s, events);
    AccountedIsBounded(c, Run(c, s, events), Waited(c, s, events));
  }

  lemma AccountedIsBounded(c: Config, s: Snapshot, waited: nat)
    requires Valid(c, s) && Accounted(c, s, waited)
    ensures waited < WaitBound(c, s.state)
  {
    if s.state == Connecting {
      MulMonotone(s.attempts, c.attemptLimit, c.startupTimeout);
      assert (c.attemptLimit + 1) * c.startupTimeout == c.attemptLimit * c.startupTimeout + c.startupTimeout;
    }
  }

  lemma MulMonotone(a: nat, b: nat, m: nat)
    requires a <= b
    ensures a * m <= b * m
  {
  }

  /** What happens to a machine that is reconnecting, without a connection or a call from outside. */
  predicate OnlyWaiting(events: seq<Event>) {
    forall i | 0 <= i < |events| :: events[i].Tick? || events[i].ClientFailed?
  }

  function Ticked(events: seq<Event>): nat {
    if events == [] then 0
    else Ticked(events[..|events| - 1]) + if events[|events| - 1].Tick? then events[|events| - 1].elapsed else 0
  }

  /** The one step: on time the machine keeps waiting, late it drops the network; the transfer flag is carried along. */
  lemma WaitingStep(c: Config, s: Snapshot, event: Event, waited: nat, active: bool)
    requires event.Tick? || event.ClientFailed?
    requires s.state == HotspotStarting || (s.state == Reconnecting && s.elapsed == waited < s.timeout == c.reconnectTimeout)
    ensures var r := HandleSpec(c, s, event);
            var now := waited + if event.Tick? then event.elapsed else 0;
            && HandleSpec(c, s.(transferActive := active), event) == r.(snapshot := r.snapshot.(transferActive := active))
            && (if s.state == Reconnecting && now < c.reconnectTimeout
                then r.snapshot.state == Reconnecting && r.snapshot.elapsed == now && r.snapshot.timeout == s.timeout
                else r.snapshot.state == HotspotStarting)
  {
  }

  /**
   * A transfer does not hold off the reconnect timeout: however ticks and failures fall, the machine reconnects for
   * exactly as long as the ticks have not used up the timeout, and with the transfer flag the other way round the
   * whole run is the same but for that flag.
   */
  lemma {:induction false} TransferDoesNotHoldReconnect(c: Config, s: Snapshot, events: seq<Event>, active: bool)
    requires Valid(c, s) && s.state == Reconnecting && OnlyWaiting(events)
    ensures Run(c, s.(transferActive := active), events) == Run(c, s, events).(transferActive := active)
    ensures if s.elapsed + Ticked(events) < c.reconnectTimeout
            then Run(c, s, events).state == Reconnecting && Run(c, s, events).elapsed == s.elapsed + Ticked(events)
                 && Run(c, s, events).timeout == c.reconnectTimeout
            else Run(c, s, events).state == HotspotStarting
    decreases |events|
  {
    hide HandleSpec;
    if events != [] {
      var front, event := events[..|events| - 1], events[|events| - 1];
      TransferDoesNotHoldReconnect(c, s, front, active);
      WaitingStep(c, Run(c, s, front), event, s.elapsed + Ticked(front), active);
    }
  }

  // ---- The coordinator object ------------------------------------------------------------

  class Coordinator {
    const config: Config
    var state: State
    var selected: u32
    var elapsed: u32
    var timeout: u32
    var attempts: u32
    var healthElapsed: u32
    var failures: u32
    var lastError: int
    var transferActive: bool

    function Current(): Snapshot
      reads this
    {
      Snapshot(state, selected, elapsed, timeout, attempts, healthElapsed, failures, lastError, transferActive)
    }

    constructor (c: Config)
      requires ConfigValid(c)
      ensures config == c && Current() == INITIAL && Valid(c, Current())
    {
      config := c;
      state, selected, elapsed, timeout, attempts := Stopped, 0, 0, 0, 0;
      healthElapsed, failures, lastError, transferActive := 0, 0, 0, false;
    }

    method Transition(next: State)
      modifies this
      ensures Current() == Enter(config, old(Current()), next)
    {
      state := next;
      elapsed := 0;
      if next != ClientReady {
        healthElapsed := 0;
      }
      match next {
        case Searching => timeout := config.startupTimeout;
        case Connecting => timeout := config.startupTimeout;
        case Reconnecting => timeout := config.reconnectTimeout;
        case _ => timeout := 0;
      }
    }

    method RequestHotspot() returns (action: Action)
      modifies this
      ensures Outcome(Ok, Current(), action) == ToHotspot(config, old(Current()))
    {
      Transition(HotspotStarting);
      selected := 0;
      action := StartHotspot;
    }

    method OnTick(increment: u32) returns (status: Status, action: Action)
      modifies this
      ensures Outcome(status, Current(), action) == HandleTick(config, old(Current()), increment)
    {
      if increment == 0 {
        return InvalidArgument, NoAction;
      }
      status, action := Ok, NoAction;
      if state == ClientReady {
        if transferActive {
          healthElapsed := 0;
          return;
        }
        healthElapsed := SaturatedAdd(healthElapsed, increment);
        if healthElapsed >= config.probeInterval {
          healthElapsed := 0;
          action := ProbeClient(selected);
        }
        return;
      }
      if state != Searching && state != Connecting && state != Reconnecting {
        return;
      }
      elapsed := SaturatedAdd(elapsed, increment);
      if elapsed >= timeout {
        action := RequestHotspot();
      }
    }

    method OnFailure(error: int) returns (status: Status, action: Action)
      modifies this
      ensures Outcome(status, Current(), action) == HandleFailure(config, old(Current()), error)
    {
      if state != Connecting && state != Reconnecting {
        return InvalidState, NoAction;
      }
      lastError := error;
      status, action := Ok, NoAction;
      if state == Reconnecting {
        return;
      }
      if attempts < config.attemptLimit {
        attempts := attempts + 1;
        Transition(Connecting);
        return Ok, RecoverSaved(selected);
      }
      action := RequestHotspot();
    }

    method OnUnhealthy(error: int) returns (status: Status, action: Action)
      modifies this
      ensures Outcome(status, Current(), action) == HandleUnhealthy(config, old(Current()), error)
    {
      if state != ClientReady {
        return InvalidState, NoAction;
      }
      if transferActive {
        return TransferLocked, NoAction;
      }
      lastError := error;
      failures := SaturatedAdd(failures, 1);
      if failures >= config.failureThreshold {
        Transition(Reconnecting);
        return Ok, RecoverSaved(selected);
      }
      return Ok, NoAction;
    }

    method Handle(event: Event) returns (status: Status, action: Action)
      modifies this
      ensures Outcome(status, Current(), action) == HandleSpec(config, old(Current()), event)
      ensures old(Valid(config, Current())) ==> Valid(config, Current()) && Fits(Current(), action)
    {
      if Valid(config, Current()) {
        HandleKeepsValid(config, Current(), event);
        ActionFits(config, Current(), event);
      }
      hide Valid, Fits, HandleSpec;
      if event.IsFromRadio() {
        status, action := HandleRadio(event);
      } else {
        status, action := HandleCall(event);
      }
    }

    /** Reports of the radio and of its scans. */
    method HandleRadio(event: Event) returns (status: Status, action: Action)
      requires event.IsFromRadio()
      modifies this
      ensures Outcome(status, Current(), action) == HandleSpec(config, old(Current()), event)
    {
      status, action := Ok, NoAction;
      match event {
        case ScanSelected(networkId) =>
          if state != Searching || networkId == 0 {
            return if networkId == 0 then InvalidArgument else InvalidState, NoAction;
          }
          selected, attempts := networkId, 1;
          Transition(Connecting);
          action := ConnectSaved(networkId);
        case ScanEmpty =>
          if state != Searching {
            return InvalidState, NoAction;
          }
          action := RequestHotspot();
        case ClientConnected =>
          if state != Connecting && state != Reconnecting {
            return InvalidState, NoAction;
          }
          lastError, healthElapsed, failures := 0, 0, 0;
          Transition(ClientReady);
        case ClientFailed(error) => status, action := OnFailure(error);
        case ClientLost(error) =>
          if state != ClientReady || selected == 0 {
            return InvalidState, NoAction;
          }
          lastError := error;
          Transition(Reconnecting);
          action := ConnectSaved(selected);
        case ClientHealthy =>
          if state != ClientReady {
            return InvalidState, NoAction;
          }
          lastError, failures := 0, 0;
        case ClientUnhealthy(error) => status, action := OnUnhealthy(error);
        case HotspotStarted =>
          if state != HotspotStarting {
            return InvalidState, NoAction;
          }
          lastError := 0;
          Transition(HotspotReady);
        case HotspotFailed(error) =>
          if state != HotspotStarting {
            return InvalidState, NoAction;
          }
          lastError := error;
          Transition(Faulted);
      }
    }

    /** Calls from outside and the passing of time. */
    method HandleCall(event: Event) returns (status: Status, action: Action)
      requires !event.IsFromRadio()
      modifies this
      ensures Outcome(status, Current(), action) == HandleSpec(config, old(Current()), event)
    {
      status, action := Ok, NoAction;
      match event {
        case Start =>
          if state != Stopped && state != Faulted {
            return InvalidState, NoAction;
          }
          lastError, selected, attempts, transferActive := 0, 0, 0, false;
          Transition(Searching);
          action := ScanSaved;
        case RetrySaved =>
          if !IsReady(state) {
            return InvalidState, NoAction;
          }
          if transferActive {
            return TransferLocked, NoAction;
          }
          lastError, selected := 0, 0;
          Transition(Searching);
          action := ScanSaved;
        case ForceHotspot =>
          if state == Stopped || state == HotspotStarting || state == HotspotReady {
            return InvalidState, NoAction;
          }
          if transferActive {
            return TransferLocked, NoAction;
          }
          action := RequestHotspot();
        case TransferStarted =>
          if !IsReady(state) || transferActive {
            return InvalidState, NoAction;
          }
          transferActive := true;
        case TransferFinished =>
          if !transferActive {
            return InvalidState, NoAction;
          }
          transferActive := false;
        case Tick(increment) => status, action := OnTick(increment);
        case Stop =>
          state, selected, elapsed, timeout, attempts := Stopped, 0, 0, 0, 0;
          healthElapsed, failures, lastError, transferActive := 0, 0, 0, false;
          action := StopRadio;
      }
    }
  }
}
