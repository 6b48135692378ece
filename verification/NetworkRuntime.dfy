/** The runtime that drives the network policy: it carries out each action and feeds the radio's answer back. */
module NetworkRuntime {
  import opened Bytes
  import Crc32
  import opened NetworkCoordinator

  const ACTION_LIMIT: nat := 8
  const TICK_MS: u32 := 500
  const POLICY: Config := Config(20000, 2, 30000, 15000, 3)

  const ESP_OK: int := 0
  const ESP_ERR_INVALID_STATE: int := 0x103
  const ESP_ERR_NOT_FOUND: int := 0x105

  // ---- Network handles ---------------------------------------------------------------

  const FNV_OFFSET: u32 := 2166136261
  const FNV_PRIME: nat := 16777619

  function Fnv(value: u32, ssid: seq<byte>): u32
    decreases |ssid|
  {
    if ssid == [] then value else Fnv(FnvStep(value, ssid[0]), ssid[1..])
  }

  function FnvStep(value: u32, b: byte): u32 {
    Crc32.Xor(value, b) * FNV_PRIME % 0x1_0000_0000
  }

  /** Zero stands for "no network", so the hash avoids it. */
  function NetworkId(ssid: seq<byte>): (id: u32)
    ensures id != 0
  {
    var value := Fnv(FNV_OFFSET, ssid);
    if value == 0 then 1 else value
  }

  method ComputeNetworkId(ssid: seq<byte>) returns (id: u32)
    ensures id == NetworkId(ssid)
  {
    var value: u32 := FNV_OFFSET;
    for cursor := 0 to |ssid|
      invariant Fnv(value, ssid[cursor..]) == Fnv(FNV_OFFSET, ssid)
    {
      assert ssid[cursor..][1..] == ssid[cursor + 1..];
      value := FnvStep(value, ssid[cursor]);
    }
    return if value == 0 then 1 else value;
  }

  // ---- The runtime state ---------------------------------------------------------------

  /** calls counts the radio operations so far; the environment answers the next one. */
  datatype Runtime = Runtime(
    net: Snapshot,
    stationConfigured: bool,
    stationId: u32,
    hotspotConfigured: bool,
    awaiting: bool,
    lastStationError: int,
    calls: nat)

  /** The status each radio operation returns, zero for success. */
  type Radio = nat -> int

  const AT_BOOT: Runtime := Runtime(INITIAL, false, 0, false, false, ESP_OK, 0)

  datatype Response = Halt(status: int, rt: Runtime) | Emit(event: Event, rt: Runtime)

  function Join(rt: Runtime, networkId: u32, radio: Radio): Response {
    var reachable := rt.stationConfigured && networkId == rt.stationId;
    var status := if reachable then radio(rt.calls) else ESP_ERR_NOT_FOUND;
    Emit(if status == ESP_OK then ClientConnected else ClientFailed(status),
         rt.(lastStationError := status, calls := if reachable then rt.calls + 1 else rt.calls))
  }

  function Respond(rt: Runtime, action: Action, radio: Radio): Response {
    match action
    case NoAction => Halt(ESP_OK, rt)
    case ScanSaved => Emit(if rt.stationConfigured then ScanSelected(rt.stationId) else ScanEmpty, rt)
    case ConnectSaved(networkId) => Join(rt, networkId, radio)
    case RecoverSaved(networkId) => Join(rt, networkId, radio)
    case ProbeClient(_) =>
      var status := radio(rt.calls);
      Emit(if status == ESP_OK then ClientHealthy else ClientUnhealthy(status), rt.(calls := rt.calls + 1))
    case StartHotspot =>
      if !rt.hotspotConfigured then Halt(ESP_OK, rt.(awaiting := true))
      else
        var status := radio(rt.calls);
        Emit(if status == ESP_OK then HotspotStarted else HotspotFailed(status),
             rt.(awaiting := false, calls := rt.calls + 1))
    case StopRadio => Halt(radio(rt.calls), rt.(calls := rt.calls + 1))
  }

  /** How a chain of actions ended: on an action that needs no event, on a refused event, or out of iterations. */
  datatype End = Settled(action: Action) | Refused | Exhausted

  datatype Result = Result(status: int, rt: Runtime, end: End, left: nat)

  function Chain(c: Config, rt: Runtime, action: Action, radio: Radio, budget: nat): Result
    decreases budget
  {
    if budget == 0 then Result(ESP_ERR_INVALID_STATE, rt, Exhausted, 0)
    else
      match Respond(rt, action, radio)
      case Halt(status, after) => Result(status, after, Settled(action), budget - 1)
      case Emit(event, after) =>
        var o := HandleSpec(c, after.net, event);
        var next := after.(net := o.snapshot);
        if o.status != Ok then Result(ESP_ERR_INVALID_STATE, next, Refused, budget - 1)
        else Chain(c, next, o.action, radio, budget - 1)
  }

  function HandleEventSpec(c: Config, rt: Runtime, event: Event, radio: Radio): Result {
    var o := HandleSpec(c, rt.net, event);
    var next := rt.(net := o.snapshot);
    if o.status != Ok then Result(ESP_ERR_INVALID_STATE, next, Refused, ACTION_LIMIT)
    else Chain(c, next, o.action, radio, ACTION_LIMIT)
  }

  // ---- Settling ------------------------------------------------------------------------

  /** What the state still owes: while searching, connecting or starting a hotspot some action must be under way. */
  predicate Owed(rt: Runtime, action: Action) {
    && Fits(rt.net, action)
    && (rt.net.state == Searching ==> action == ScanSaved)
    && (rt.net.state == Connecting ==> action.ConnectSaved? || action.RecoverSaved?)
    && (rt.net.state == HotspotStarting ==>
          action == StartHotspot || (action == NoAction && rt.awaiting && !rt.hotspotConfigured))
  }

  predicate Sound(c: Config, rt: Runtime) {
    Valid(c, rt.net) && (rt.stationConfigured ==> rt.stationId != 0)
  }

  /** Between calls nothing is under way. */
  predicate Resting(c: Config, rt: Runtime) {
    Sound(c, rt) && Owed(rt, NoAction)
  }

  /** Iterations a chain needs at most, counting the one that ends it. */
  function Rank(c: Config, s: Snapshot, action: Action): int {
    match action
    case NoAction => 1
    case StopRadio => 1
    case StartHotspot => 2
    case ProbeClient(_) => 3
    case ScanSaved => c.attemptLimit + 3
    case _ => if s.state == Reconnecting then 2 else c.attemptLimit - s.attempts + 3
  }

  /** An event the runtime generates is accepted, and the chain gets shorter. */
  lemma ResponseAccepted(c: Config, rt: Runtime, action: Action, radio: Radio)
    requires Sound(c, rt) && Owed(rt, action) && Respond(rt, action, radio).Emit?
    ensures var r := Respond(rt, action, radio);
            var o := HandleSpec(c, r.rt.net, r.event);
            var next := r.rt.(net := o.snapshot);
            && o.status == Ok
            && Sound(c, next) && Owed(next, o.action)
            && 1 <= Rank(c, next.net, o.action) < Rank(c, rt.net, action) <= c.attemptLimit + 3
  {
    var r := Respond(rt, action, radio);
    HandleKeepsValid(c, r.rt.net, r.event);
    ActionFits(c, r.rt.net, r.event);
  }

  /** An action that ends the chain leaves the runtime at rest. */
  lemma HaltRests(c: Config, rt: Runtime, action: Action, radio: Radio)
    requires Sound(c, rt) && Owed(rt, action) && Respond(rt, action, radio).Halt?
    ensures Resting(c, Respond(rt, action, radio).rt)
    ensures action == NoAction || action == StopRadio || (action == StartHotspot && !rt.hotspotConfigured)
    ensures action != StopRadio ==> Respond(rt, action, radio).status == ESP_OK
    ensures Rank(c, rt.net, action) >= 1
  {
  }

  /** How a settled chain looks: no action left, a hotspot waiting for its credential, or the radio stopped. */
  predicate WellSettled(c: Config, r: Result) {
    && Resting(c, r.rt)
    && (|| r.end == Settled(NoAction)
        || (r.end == Settled(StartHotspot) && r.rt.net.state == HotspotStarting && r.rt.awaiting && !r.rt.hotspotConfigured)
        || (r.end == Settled(StopRadio) && r.rt.net.state == Stopped))
    && (r.end != Settled(StopRadio) ==> r.status == ESP_OK)
  }

  /**
   * For every sequence of radio outcomes the chain settles within its rank, which is at most the attempt limit
   * plus three; no generated event is refused.
   */
  lemma {:induction false} ChainSettles(c: Config, rt: Runtime, action: Action, radio: Radio, budget: nat)
    requires Sound(c, rt) && Owed(rt, action) && Rank(c, rt.net, action) <= budget
    ensures var r := Chain(c, rt, action, radio, budget);
            WellSettled(c, r) && budget - r.left <= Rank(c, rt.net, action)
    ensures 1 <= Rank(c, rt.net, action) <= c.attemptLimit + 3
    decreases budget
  {
    hide HandleSpec, Valid, Respond, Owed, Rank, Resting, Sound;
    RankBounded(c, rt, action);
    var r := Respond(rt, action, radio);
    match r {
      case Halt(status, after) =>
        HaltRests(c, rt, action, radio);
        HaltKeeps(rt, action, radio);
        RestingFits(rt, action);
      case Emit(event, after) =>
        ResponseAccepted(c, rt, action, radio);
        var o := HandleSpec(c, after.net, event);
        ChainSettles(c, after.(net := o.snapshot), o.action, radio, budget - 1);
    }
  }

  lemma RankBounded(c: Config, rt: Runtime, action: Action)
    requires Sound(c, rt) && Owed(rt, action)
    ensures 1 <= Rank(c, rt.net, action) <= c.attemptLimit + 3
  {
  }

  lemma HaltKeeps(rt: Runtime, action: Action, radio: Radio)
    requires Respond(rt, action, radio).Halt?
    ensures var after := Respond(rt, action, radio).rt;
            && after.net == rt.net && after.hotspotConfigured == rt.hotspotConfigured
            && (action == StartHotspot ==> after.awaiting)
  {
  }

  lemma RestingFits(rt: Runtime, action: Action)
    requires Owed(rt, action)
    ensures action == StartHotspot ==> rt.net.state == HotspotStarting
    ensures action == StopRadio ==> rt.net.state == Stopped
  {
  }

  /** An event from outside, arriving at rest, leaves exactly the action it returned owing. */
  lemma OutsideEventOwes(c: Config, rt: Runtime, event: Event)
    requires Resting(c, rt)
    ensures var o := HandleSpec(c, rt.net, event);
            Sound(c, rt.(net := o.snapshot)) && Owed(rt.(net := o.snapshot), o.action)
  {
    HandleKeepsValid(c, rt.net, event);
    ActionFits(c, rt.net, event);
  }

  /** Every coordinator event, at rest, for every radio: refused with nothing changed, or settled in time. */
  lemma EventSettles(c: Config, rt: Runtime, event: Event, radio: Radio)
    requires Resting(c, rt) && c.attemptLimit + 3 <= ACTION_LIMIT
    ensures var r := HandleEventSpec(c, rt, event, radio);
            && Resting(c, r.rt)
            && (r.end == Refused <==> HandleSpec(c, rt.net, event).status != Ok)
            && (r.end == Refused ==> r.rt == rt && r.status == ESP_ERR_INVALID_STATE)
            && (r.end != Refused ==> WellSettled(c, r) && ACTION_LIMIT - r.left <= c.attemptLimit + 3)
  {
    hide HandleSpec, Valid, Owed, Rank, Sound, Chain;
    var o := HandleSpec(c, rt.net, event);
    var next := rt.(net := o.snapshot);
    OutsideEventOwes(c, rt, event);
    SoundIsValid(c, rt);
    HandleKeepsValid(c, rt.net, event);
    RankBounded(c, next, o.action);
    ChainSettles(c, next, o.action, radio, ACTION_LIMIT);
  }

  lemma SoundIsValid(c: Config, rt: Runtime)
    requires Resting(c, rt)
    ensures Valid(c, rt.net) && Sound(c, rt)
  {
  }

  // ---- The calls into the runtime ----------------------------------------------------------

  datatype Call =
    | Begin
    | Poll(radioFailed: bool, error: int)
    | ConfigureStation(ssid: seq<byte>)
    | ForgetStation
    | ConfigureHotspot
    | TryHotspot
    | SetTransfer(active: bool)

  function RestartSpec(c: Config, rt: Runtime, radio: Radio): Result {
    var stopped := HandleEventSpec(c, rt, Stop, radio);
    if stopped.status != ESP_OK then stopped
    else HandleEventSpec(c, stopped.rt.(awaiting := false), Start, radio)
  }

  function AssignStation(rt: Runtime, ssid: seq<byte>): Runtime {
    rt.(stationConfigured := true, stationId := NetworkId(ssid))
  }

  /** The requested join's own result is reported even when the hotspot came back instead. */
  function JoinReport(r: Result): int {
    if r.status == ESP_OK && r.rt.net.state != ClientReady && r.rt.lastStationError != ESP_OK then r.rt.lastStationError
    else r.status
  }

  function ConfigureStationSpec(c: Config, rt: Runtime, ssid: seq<byte>, radio: Radio): Result {
    var configured := AssignStation(rt, ssid);
    var r := if rt.net.state == HotspotStarting && rt.awaiting then RestartSpec(c, configured, radio)
             else HandleEventSpec(c, configured, RetrySaved, radio);
    r.(status := JoinReport(r))
  }

  function CallSpec(c: Config, rt: Runtime, call: Call, radio: Radio): Runtime {
    match call
    case Begin => HandleEventSpec(c, rt, Start, radio).rt
    case Poll(radioFailed, error) =>
      var first := if rt.net.state == ClientReady && radioFailed
                   then HandleEventSpec(c, rt, ClientLost(error), radio).rt else rt;
      HandleEventSpec(c, first, Tick(TICK_MS), radio).rt
    case ConfigureStation(ssid) => ConfigureStationSpec(c, rt, ssid, radio).rt
    case ForgetStation => RestartSpec(c, rt.(stationConfigured := false, stationId := 0), radio).rt
    case ConfigureHotspot =>
      var armed := rt.(hotspotConfigured := true);
      if rt.net.state == HotspotStarting && rt.awaiting then Chain(c, armed, StartHotspot, radio, ACTION_LIMIT).rt
      else armed
    case TryHotspot => HandleEventSpec(c, rt, NetworkCoordinator.ForceHotspot, radio).rt
    case SetTransfer(active) =>
      if rt.net.transferActive == active then rt
      else HandleEventSpec(c, rt, if active then TransferStarted else TransferFinished, radio).rt
  }

  lemma RestartRests(c: Config, rt: Runtime, radio: Radio)
    requires Resting(c, rt) && c.attemptLimit + 3 <= ACTION_LIMIT
    ensures Resting(c, RestartSpec(c, rt, radio).rt)
    ensures HandleEventSpec(c, rt, Stop, radio).rt == rt.(net := INITIAL, calls := rt.calls + 1)
    ensures HandleEventSpec(c, rt, Stop, radio).status == radio(rt.calls)
    ensures Resting(c, rt.(net := INITIAL, calls := rt.calls + 1, awaiting := false))
  {
    hide HandleEventSpec;
    EventSettles(c, rt, Stop, radio);
    StopHalts(c, rt, radio);
    var stopped := HandleEventSpec(c, rt, Stop, radio);
    EventSettles(c, stopped.rt.(awaiting := false), Start, radio);
  }

  lemma StopHalts(c: Config, rt: Runtime, radio: Radio)
    ensures HandleEventSpec(c, rt, Stop, radio).rt == rt.(net := INITIAL, calls := rt.calls + 1)
    ensures HandleEventSpec(c, rt, Stop, radio).status == radio(rt.calls)
  {
  }

  lemma CallRests(c: Config, rt: Runtime, call: Call, radio: Radio)
    requires Resting(c, rt) && c.attemptLimit + 3 <= ACTION_LIMIT
    ensures Resting(c, CallSpec(c, rt, call, radio))
  {
    hide HandleEventSpec, RestartSpec, Chain, HandleSpec, Valid, Rank;
    match call {
      case Begin => EventSettles(c, rt, Start, radio);
      case Poll(radioFailed, error) =>
        EventSettles(c, rt, ClientLost(error), radio);
        EventSettles(c, rt, Tick(TICK_MS), radio);
        EventSettles(c, HandleEventSpec(c, rt, ClientLost(error), radio).rt, Tick(TICK_MS), radio);
      case ConfigureStation(ssid) =>
        var configured := AssignStation(rt, ssid);
        RestartRests(c, configured, radio);
        EventSettles(c, configured, RetrySaved, radio);
      case ForgetStation => RestartRests(c, rt.(stationConfigured := false, stationId := 0), radio);
      case ConfigureHotspot =>
        if rt.net.state == HotspotStarting && rt.awaiting {
          RankBounded(c, rt.(hotspotConfigured := true), StartHotspot);
          ChainSettles(c, rt.(hotspotConfigured := true), StartHotspot, radio, ACTION_LIMIT);
        }
      case TryHotspot => EventSettles(c, rt, NetworkCoordinator.ForceHotspot, radio);
      case SetTransfer(active) => EventSettles(c, rt, if active then TransferStarted else TransferFinished, radio);
    }
  }

  function RunCalls(c: Config, rt: Runtime, calls: seq<Call>, radio: Radio): Runtime
    decreases |calls|
  {
    if calls == [] then rt else RunCalls(c, CallSpec(c, rt, calls[0], radio), calls[1..], radio)
  }

  /**
   * Every run of calls, for every radio: between calls the shipped policy is never searching or connecting, and a
   * hotspot still starting is waiting for a credential that is not there.
   */
  lemma {:induction false} RunRests(rt: Runtime, calls: seq<Call>, radio: Radio)
    requires Resting(POLICY, rt)
    ensures Resting(POLICY, RunCalls(POLICY, rt, calls, radio))
    ensures RunCalls(POLICY, rt, calls, radio).net.state !in {Searching, Connecting}
    ensures RunCalls(POLICY, rt, calls, radio).net.state == HotspotStarting ==>
              RunCalls(POLICY, rt, calls, radio).awaiting && !RunCalls(POLICY, rt, calls, radio).hotspotConfigured
    decreases |calls|
  {
    hide CallSpec, Valid;
    if calls != [] {
      CallRests(POLICY, rt, calls[0], radio);
      RunRests(CallSpec(POLICY, rt, calls[0], radio), calls[1..], radio);
    }
  }

  lemma BootRests()
    ensures Resting(POLICY, AT_BOOT)
  {
  }

  // ---- Joining a network ------------------------------------------------------------------

  /** The chain is trying to join the configured station. */
  predicate Joining(rt: Runtime, action: Action) {
    && rt.stationConfigured
    && (|| action == ScanSaved
        || (rt.net.state == Connecting && (action == ConnectSaved(rt.stationId) || action == RecoverSaved(rt.stationId))))
  }

  /** After a failed join, only the hotspot is left to start. */
  predicate FallenBack(rt: Runtime, action: Action) {
    rt.lastStationError != ESP_OK && rt.net.state != ClientReady && rt.net.state != Stopped
    && (action == StartHotspot || action == NoAction)
    && (action == StartHotspot ==> rt.net.state == HotspotStarting)
  }

  predicate JoinDecided(r: Result, stationId: u32) {
    r.rt.net.state != Stopped &&
    if r.rt.lastStationError == ESP_OK then r.rt.net.state == ClientReady && r.rt.net.selected == stationId
    else r.rt.net.state != ClientReady
  }

  lemma {:induction false} FallBackEnds(c: Config, rt: Runtime, action: Action, radio: Radio, budget: nat)
    requires FallenBack(rt, action)
    ensures JoinDecided(Chain(c, rt, action, radio, budget), rt.stationId)
    decreases budget
  {
    hide Valid;
    if budget > 0 {
      match Respond(rt, action, radio) {
        case Halt(_, _) =>
        case Emit(event, after) =>
          var o := HandleSpec(c, after.net, event);
          assert o.status == Ok;
          FallBackEnds(c, after.(net := o.snapshot), o.action, radio, budget - 1);
      }
    }
  }

  lemma {:induction false} JoinEnds(c: Config, rt: Runtime, action: Action, radio: Radio, budget: nat)
    requires Sound(c, rt) && Owed(rt, action) && Joining(rt, action) && Rank(c, rt.net, action) <= budget
    ensures JoinDecided(Chain(c, rt, action, radio, budget), rt.stationId)
    decreases budget
  {
    hide Valid, HandleSpec, Owed, Sound, Rank;
    RankBounded(c, rt, action);
    var r := Respond(rt, action, radio);
    ResponseAccepted(c, rt, action, radio);
    var o := HandleSpec(c, r.rt.net, r.event);
    var next := r.rt.(net := o.snapshot);
    JoinStep(c, rt, action, radio);
    if Joining(next, o.action) {
      JoinEnds(c, next, o.action, radio, budget - 1);
    } else if FallenBack(next, o.action) {
      FallBackEnds(c, next, o.action, radio, budget - 1);
    } else {
      RankBounded(c, next, o.action);
    }
  }

  lemma JoinStep(c: Config, rt: Runtime, action: Action, radio: Radio)
    requires Sound(c, rt) && Owed(rt, action) && Joining(rt, action)
    ensures var r := Respond(rt, action, radio);
            && r.Emit? && r.rt.stationId == rt.stationId
            && var o := HandleSpec(c, r.rt.net, r.event);
            var next := r.rt.(net := o.snapshot);
            || Joining(next, o.action)
            || FallenBack(next, o.action)
            || (o.action == NoAction && next.lastStationError == ESP_OK && next.net.state == ClientReady
                && next.net.selected == rt.stationId)
  {
  }

  /** Whether the policy may start over with a new station now. */
  predicate MayJoin(rt: Runtime, radio: Radio) {
    if rt.net.state == HotspotStarting && rt.awaiting then radio(rt.calls) == ESP_OK
    else IsReady(rt.net.state) && !rt.net.transferActive
  }

  /**
   * Configuring a station succeeds exactly when the policy may start over and the radio joins that very network:
   * a success is never the fallback hotspot's.
   */
  lemma ConfigureReportsTheJoin(c: Config, rt: Runtime, ssid: seq<byte>, radio: Radio)
    requires Resting(c, rt) && c.attemptLimit + 3 <= ACTION_LIMIT
    ensures var r := ConfigureStationSpec(c, rt, ssid, radio);
            && (r.status == ESP_OK ==>
                  MayJoin(rt, radio) && r.rt.net.state == ClientReady && r.rt.net.selected == NetworkId(ssid))
            && (MayJoin(rt, radio) && r.rt.net.state == ClientReady ==> r.status == ESP_OK)
            && (!MayJoin(rt, radio) ==> r.rt.net.state == if rt.net.state == HotspotStarting then Stopped else rt.net.state)
  {
    hide Chain, HandleSpec, Valid, Rank;
    var configured := AssignStation(rt, ssid);
    if rt.net.state == HotspotStarting && rt.awaiting {
      RestartRests(c, configured, radio);
      RetryAcceptedIff(c, INITIAL);
      if radio(rt.calls) == ESP_OK {
        JoinFrom(c, configured.(net := INITIAL, calls := rt.calls + 1, awaiting := false), Start, radio);
      }
    } else {
      EventSettles(c, configured, RetrySaved, radio);
      RetryAcceptedIff(c, configured.net);
      if MayJoin(rt, radio) {
        JoinFrom(c, configured, RetrySaved, radio);
      }
    }
  }

  lemma RetryAcceptedIff(c: Config, s: Snapshot)
    ensures HandleSpec(c, s, RetrySaved).status == Ok <==> IsReady(s.state) && !s.transferActive
    ensures HandleSpec(c, s, RetrySaved).status == Ok ==> HandleSpec(c, s, RetrySaved).action == ScanSaved
    ensures HandleSpec(c, INITIAL, Start).status == Ok && HandleSpec(c, INITIAL, Start).action == ScanSaved
  {
  }

  lemma JoinFrom(c: Config, rt: Runtime, event: Event, radio: Radio)
    requires Resting(c, rt) && c.attemptLimit + 3 <= ACTION_LIMIT && rt.stationConfigured
    requires HandleSpec(c, rt.net, event).status == Ok && HandleSpec(c, rt.net, event).action == ScanSaved
    ensures JoinDecided(HandleEventSpec(c, rt, event, radio), rt.stationId)
    ensures HandleEventSpec(c, rt, event, radio).status == ESP_OK
  {
    hide Chain, HandleSpec, Valid, Rank, Owed;
    EventSettles(c, rt, event, radio);
    OutsideEventOwes(c, rt, event);
    var o := HandleSpec(c, rt.net, event);
    var next := rt.(net := o.snapshot);
    RankBounded(c, next, o.action);
    JoinEnds(c, next, o.action, radio, ACTION_LIMIT);
  }

  // ---- The service object ---------------------------------------------------------------------

  class NetworkService {
    const coordinator: Coordinator
    const radio: Radio
    var stationConfigured: bool
    var stationId: u32
    var hotspotConfigured: bool
    var awaiting: bool
    var lastStationError: int
    var calls: nat

    function State(): Runtime
      reads this, coordinator
    {
      Runtime(coordinator.Current(), stationConfigured, stationId, hotspotConfigured, awaiting, lastStationError, calls)
    }

    ghost predicate AtRest()
      reads this, coordinator
    {
      coordinator.config == POLICY && Resting(POLICY, State())
    }

    constructor (environment: Radio)
      ensures fresh(coordinator) && radio == environment
      ensures AtRest() && State() == AT_BOOT
    {
      coordinator := new Coordinator(POLICY);
      radio := environment;
      stationConfigured, stationId, hotspotConfigured, awaiting := false, 0, false, false;
      lastStationError, calls := ESP_OK, 0;
    }

    method CallRadio() returns (status: int)
      modifies this
      ensures status == radio(old(calls))
      ensures State() == old(State()).(calls := old(calls) + 1)
    {
      status := radio(calls);
      calls := calls + 1;
    }

    method TryJoin(networkId: u32) returns (event: Event)
      modifies this
      ensures Emit(event, State()) == Join(old(State()), networkId, radio)
    {
      var status := ESP_ERR_NOT_FOUND;
      if stationConfigured && networkId == stationId {
        status := CallRadio();
      }
      lastStationError := status;
      return if status == ESP_OK then ClientConnected else ClientFailed(status);
    }

    /** One action: either it ends the chain with a status, or the radio's answer becomes an event. */
    method Perform(action: Action) returns (halted: bool, status: int, event: Event)
      modifies this
      ensures Respond(old(State()), action, radio) == if halted then Halt(status, State()) else Emit(event, State())
    {
      halted, status, event := false, ESP_OK, Stop;
      match action {
        case NoAction => halted := true;
        case ScanSaved => event := if stationConfigured then ScanSelected(stationId) else ScanEmpty;
        case ConnectSaved(networkId) => event := TryJoin(networkId);
        case RecoverSaved(networkId) => event := TryJoin(networkId);
        case ProbeClient(_) =>
          status := CallRadio();
          event := if status == ESP_OK then ClientHealthy else ClientUnhealthy(status);
        case StartHotspot =>
          if !hotspotConfigured {
            awaiting := true;
            halted := true;
            return;
          }
          awaiting := false;
          status := CallRadio();
          event := if status == ESP_OK then HotspotStarted else HotspotFailed(status);
        case StopRadio =>
          halted := true;
          status := CallRadio();
      }
    }

    /** The bounded action loop. */
    method ExecuteAction(first: Action) returns (status: int, ghost end: End, ghost left: nat)
      modifies this, coordinator
      ensures Result(status, State(), end, left) == Chain(coordinator.config, old(State()), first, radio, ACTION_LIMIT)
    {
      hide HandleSpec, Respond, Valid, Fits;
      var action := first;
      var iteration := 0;
      while iteration < ACTION_LIMIT
        invariant 0 <= iteration <= ACTION_LIMIT
        invariant Chain(coordinator.config, State(), action, radio, ACTION_LIMIT - iteration)
                  == Chain(coordinator.config, old(State()), first, radio, ACTION_LIMIT)
      {
        var halted, answer, event := Perform(action);
        if halted {
          return answer, Settled(action), ACTION_LIMIT - iteration - 1;
        }
        var accepted;
        accepted, action := coordinator.Handle(event);
        if accepted != Ok {
          return ESP_ERR_INVALID_STATE, Refused, ACTION_LIMIT - iteration - 1;
        }
        iteration := iteration + 1;
      }
      return ESP_ERR_INVALID_STATE, Exhausted, 0;
    }

    method HandleEvent(event: Event) returns (status: int, ghost end: End, ghost left: nat)
      modifies this, coordinator
      ensures Result(status, State(), end, left) == HandleEventSpec(coordinator.config, old(State()), event, radio)
      ensures old(AtRest()) ==> AtRest()
    {
      hide HandleSpec, Chain, Valid, Owed;
      if coordinator.config == POLICY && Resting(POLICY, State()) {
        EventSettles(POLICY, State(), event, radio);
      }
      var accepted, action := coordinator.Handle(event);
      if accepted != Ok {
        return ESP_ERR_INVALID_STATE, Refused, ACTION_LIMIT;
      }
      status, end, left := ExecuteAction(action);
    }

    method RestartPolicy() returns (status: int, ghost end: End, ghost left: nat)
      modifies this, coordinator
      ensures Result(status, State(), end, left) == RestartSpec(coordinator.config, old(State()), radio)
    {
      hide HandleEventSpec;
      status, end, left := HandleEvent(Stop);
      if status != ESP_OK {
        return;
      }
      awaiting := false;
      status, end, left := HandleEvent(Start);
    }

    method ConfigureStation(ssid: seq<byte>) returns (status: int, ghost end: End, ghost left: nat)
      modifies this, coordinator
      ensures Result(status, State(), end, left) == ConfigureStationSpec(coordinator.config, old(State()), ssid, radio)
      ensures old(AtRest()) ==> AtRest()
    {
      hide HandleEventSpec, RestartSpec, Resting;
      if coordinator.config == POLICY && Resting(POLICY, State()) {
        CallRests(POLICY, State(), Call.ConfigureStation(ssid), radio);
      }
      stationId := ComputeNetworkId(ssid);
      stationConfigured := true;
      if coordinator.state == HotspotStarting && awaiting {
        status, end, left := RestartPolicy();
      } else {
        status, end, left := HandleEvent(RetrySaved);
      }
      if status == ESP_OK && coordinator.state != ClientReady && lastStationError != ESP_OK {
        status := lastStationError;
      }
    }

    /** The remaining entry points, one call each. */
    method Serve(call: Call)
      requires !call.ConfigureStation?
      modifies this, coordinator
      ensures State() == CallSpec(coordinator.config, old(State()), call, radio)
      ensures old(AtRest()) ==> AtRest()
    {
      hide HandleEventSpec, RestartSpec, Resting, Chain;
      if coordinator.config == POLICY && Resting(POLICY, State()) {
        CallRests(POLICY, State(), call, radio);
      }
      var status;
      ghost var end, left;
      match call {
        case Begin => status, end, left := HandleEvent(Start);
        case Poll(radioFailed, error) =>
          if coordinator.state == ClientReady && radioFailed {
            status, end, left := HandleEvent(ClientLost(error));
          }
          status, end, left := HandleEvent(Tick(TICK_MS));
        case ForgetStation =>
          stationId, stationConfigured := 0, false;
          status, end, left := RestartPolicy();
        case ConfigureHotspot =>
          hotspotConfigured := true;
          if coordinator.state == HotspotStarting && awaiting {
            status, end, left := ExecuteAction(StartHotspot);
          }
        case TryHotspot => status, end, left := HandleEvent(NetworkCoordinator.ForceHotspot);
        case SetTransfer(active) =>
          if coordinator.transferActive != active {
            status, end, left := HandleEvent(if active then TransferStarted else TransferFinished);
          }
      }
    }
  }
}
