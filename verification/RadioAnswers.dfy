/** What the radio's answers decide: the outcome of joining, probing, losing the link and starting the hotspot. */
module RadioAnswers {
  import opened Bytes
  import Crc32
  import opened NetworkCoordinator
  import opened NetworkRuntime

  /** The radio fails in all of these calls. */
  predicate FailsFor(radio: Radio, first: nat, count: nat) {
    forall i | first <= i < first + count :: radio(i) != ESP_OK
  }

  // ---- The hotspot -------------------------------------------------------------------

  /** Started with a credential the hotspot is up or faulted as the radio says; without one it waits. */
  predicate HotspotAnswered(rt: Runtime, radio: Radio, r: Result) {
    if rt.hotspotConfigured then
      && !r.rt.awaiting && r.rt.calls == rt.calls + 1 && r.status == ESP_OK
      && r.rt.net.state == (if radio(rt.calls) == ESP_OK then HotspotReady else Faulted)
      && r.rt.net.lastError == radio(rt.calls)
    else
      r.rt.net.state == HotspotStarting && r.rt.awaiting && r.rt.calls == rt.calls && r.status == ESP_OK
  }

  lemma HotspotStarts(c: Config, rt: Runtime, radio: Radio, budget: nat)
    requires rt.net.state == HotspotStarting && budget >= 2
    ensures var r := Chain(c, rt, StartHotspot, radio, budget);
            && HotspotAnswered(rt, radio, r)
            && r.rt.lastStationError == rt.lastStationError
            && r.left == budget - (if rt.hotspotConfigured then 2 else 1)
  {
  }

  // ---- Joining -----------------------------------------------------------------------

  /** The runtime is trying to reach the configured station. */
  predicate Trying(c: Config, rt: Runtime, action: Action) {
    && rt.stationConfigured && rt.stationId != 0
    && rt.net.state == Connecting && rt.net.selected == rt.stationId && 1 <= rt.net.attempts <= c.attemptLimit
    && (action == ConnectSaved(rt.stationId) || action == RecoverSaved(rt.stationId))
  }

  /** The network is joined after so many calls of the radio. */
  predicate Joined(rt: Runtime, r: Result, calls: nat) {
    && r.status == ESP_OK && r.rt.net.state == ClientReady && r.rt.net.selected == rt.stationId
    && r.rt.lastStationError == ESP_OK && r.rt.calls == rt.calls + calls
  }

  lemma TryOnce(c: Config, rt: Runtime, action: Action, radio: Radio, budget: nat)
    requires Trying(c, rt, action) && budget >= 2
    ensures var r := Chain(c, rt, action, radio, budget);
            if radio(rt.calls) == ESP_OK then Joined(rt, r, 1) && r.left == budget - 2
            else
              var failed := rt.net.(lastError := radio(rt.calls));
              var after := rt.(lastStationError := radio(rt.calls), calls := rt.calls + 1);
              if rt.net.attempts < c.attemptLimit then
                r == Chain(c, after.(net := Enter(c, failed.(attempts := rt.net.attempts + 1), Connecting)),
                           RecoverSaved(rt.stationId), radio, budget - 1)
              else
                r == Chain(c, after.(net := Enter(c, failed, HotspotStarting).(selected := 0)), StartHotspot, radio, budget - 1)
  {
  }

  /** The first of the attempts left that the radio answers joins the network. */
  lemma {:induction false} TriesUntilAnswered(c: Config, rt: Runtime, action: Action, radio: Radio, budget: nat, j: nat)
    requires Trying(c, rt, action) && rt.net.attempts + j <= c.attemptLimit && budget >= j + 2
    requires FailsFor(radio, rt.calls, j) && radio(rt.calls + j) == ESP_OK
    ensures var r := Chain(c, rt, action, radio, budget);
            Joined(rt, r, j + 1) && r.left == budget - j - 2
    decreases j
  {
    hide Chain;
    TryOnce(c, rt, action, radio, budget);
    if j > 0 {
      var failed := rt.net.(lastError := radio(rt.calls), attempts := rt.net.attempts + 1);
      var next := rt.(net := Enter(c, failed, Connecting), lastStationError := radio(rt.calls), calls := rt.calls + 1);
      TriesUntilAnswered(c, next, RecoverSaved(rt.stationId), radio, budget - 1, j - 1);
    }
  }

  /** When the radio answers none of the attempts left, the hotspot is started. */
  lemma {:induction false} TriesInVain(c: Config, rt: Runtime, action: Action, radio: Radio, budget: nat)
    requires Trying(c, rt, action)
    requires var n := c.attemptLimit - rt.net.attempts + 1; FailsFor(radio, rt.calls, n) && budget >= n + 2
    ensures var n := c.attemptLimit - rt.net.attempts + 1;
            var r := Chain(c, rt, action, radio, budget);
            && HotspotAnswered(rt.(calls := rt.calls + n), radio, r)
            && r.rt.lastStationError == radio(rt.calls + n - 1)
    decreases c.attemptLimit - rt.net.attempts
  {
    hide Chain;
    TryOnce(c, rt, action, radio, budget);
    var failed := rt.net.(lastError := radio(rt.calls));
    var after := rt.(lastStationError := radio(rt.calls), calls := rt.calls + 1);
    if rt.net.attempts < c.attemptLimit {
      var next := after.(net := Enter(c, failed.(attempts := rt.net.attempts + 1), Connecting));
      TriesInVain(c, next, RecoverSaved(rt.stationId), radio, budget - 1);
    } else {
      HotspotStarts(c, after.(net := Enter(c, failed, HotspotStarting).(selected := 0)), radio, budget - 1);
    }
  }

  /** The events that make the policy look for the saved station. */
  predicate StartsSearch(s: Snapshot, event: Event) {
    || (event == Start && (s.state == Stopped || s.state == Faulted))
    || (event == RetrySaved && (s.state == ClientReady || s.state == HotspotReady) && !s.transferActive)
  }

  lemma SearchBegins(c: Config, rt: Runtime, event: Event, radio: Radio) returns (searching: Runtime)
    requires Valid(c, rt.net) && StartsSearch(rt.net, event)
    ensures searching == rt.(net := searching.net) && searching.net.state == Searching
    ensures HandleEventSpec(c, rt, event, radio) == Chain(c, searching, ScanSaved, radio, ACTION_LIMIT)
  {
    hide Chain;
    searching := rt.(net := HandleSpec(c, rt.net, event).snapshot);
  }

  lemma ScanDecides(c: Config, rt: Runtime, radio: Radio, budget: nat) returns (connecting: Runtime)
    requires ConfigValid(c) && rt.net.state == Searching && budget > 0 && (rt.stationConfigured ==> rt.stationId != 0)
    ensures connecting == rt.(net := connecting.net)
    ensures rt.stationConfigured ==>
              && Trying(c, connecting, ConnectSaved(rt.stationId)) && connecting.net.attempts == 1
              && Chain(c, rt, ScanSaved, radio, budget)
                 == Chain(c, connecting, ConnectSaved(rt.stationId), radio, budget - 1)
    ensures !rt.stationConfigured ==>
              && connecting.net.state == HotspotStarting
              && Chain(c, rt, ScanSaved, radio, budget) == Chain(c, connecting, StartHotspot, radio, budget - 1)
  {
    connecting := rt.(net := HandleSpec(c, rt.net, if rt.stationConfigured then ScanSelected(rt.stationId) else ScanEmpty).snapshot);
  }

  /**
   * Looking for the saved station: the first attempt the radio answers joins it; when the radio answers none of
   * them, or nothing is saved, the hotspot is started.
   */
  lemma SearchIsDecided(c: Config, rt: Runtime, event: Event, radio: Radio)
    requires Resting(c, rt) && c.attemptLimit + 3 <= ACTION_LIMIT && StartsSearch(rt.net, event)
    ensures var r := HandleEventSpec(c, rt, event, radio);
            && (!rt.stationConfigured ==> HotspotAnswered(rt, radio, r) && r.rt.lastStationError == rt.lastStationError)
            && (rt.stationConfigured && FailsFor(radio, rt.calls, c.attemptLimit) ==>
                  && HotspotAnswered(rt.(calls := rt.calls + c.attemptLimit), radio, r)
                  && r.rt.lastStationError == radio(rt.calls + c.attemptLimit - 1))
            && forall j: nat | rt.stationConfigured && j < c.attemptLimit
                               && FailsFor(radio, rt.calls, j) && radio(rt.calls + j) == ESP_OK ::
                 Joined(rt, r, j + 1) && ACTION_LIMIT - r.left == j + 3
  {
    hide HandleEventSpec, Chain, HandleSpec;
    var searching := SearchBegins(c, rt, event, radio);
    var next := ScanDecides(c, searching, radio, ACTION_LIMIT);
    if !rt.stationConfigured {
      HotspotStarts(c, next, radio, ACTION_LIMIT - 1);
    } else {
      if FailsFor(radio, rt.calls, c.attemptLimit) {
        TriesInVain(c, next, ConnectSaved(rt.stationId), radio, ACTION_LIMIT - 1);
      }
      forall j: nat | j < c.attemptLimit && FailsFor(radio, rt.calls, j) && radio(rt.calls + j) == ESP_OK
        ensures Joined(rt, HandleEventSpec(c, rt, event, radio), j + 1)
        ensures ACTION_LIMIT - HandleEventSpec(c, rt, event, radio).left == j + 3
      {
        TriesUntilAnswered(c, next, ConnectSaved(rt.stationId), radio, ACTION_LIMIT - 1, j);
      }
    }
  }

  // ---- Keeping a network -------------------------------------------------------------

  /** The network in use is still the saved one; the runtime knows no other network to return to. */
  predicate Reachable(rt: Runtime) {
    rt.stationConfigured && rt.net.selected == rt.stationId
  }

  /** The one attempt to return to the network: what the radio says, or not found when it is no longer saved. */
  function ReturnStatus(rt: Runtime, radio: Radio): int {
    if Reachable(rt) then radio(rt.calls) else ESP_ERR_NOT_FOUND
  }

  /** The network is back when that attempt succeeds; otherwise the policy goes on reconnecting. */
  predicate Returned(rt: Runtime, radio: Radio, r: Result) {
    && r.rt.calls == rt.calls + (if Reachable(rt) then 1 else 0)
    && r.rt.lastStationError == ReturnStatus(rt, radio)
    && r.rt.net.selected == rt.net.selected && r.status == ESP_OK
    && r.rt.net.state == (if ReturnStatus(rt, radio) == ESP_OK then ClientReady else Reconnecting)
    && (r.rt.net.state == ClientReady ==> r.rt.net.failures == 0)
  }

  lemma ReturnIsTried(c: Config, rt: Runtime, action: Action, radio: Radio, budget: nat)
    requires rt.net.state == Reconnecting && budget >= 2
    requires action == ConnectSaved(rt.net.selected) || action == RecoverSaved(rt.net.selected)
    ensures Returned(rt, radio, Chain(c, rt, action, radio, budget))
    ensures Chain(c, rt, action, radio, budget).left == budget - 2
  {
  }

  /** A lost link is followed by one attempt to return. */
  lemma LossIsDecided(c: Config, rt: Runtime, error: int, radio: Radio)
    requires Resting(c, rt) && rt.net.state == ClientReady
    ensures Returned(rt, radio, HandleEventSpec(c, rt, ClientLost(error), radio))
  {
    hide Chain;
    var lost := rt.(net := HandleSpec(c, rt.net, ClientLost(error)).snapshot);
    ReturnIsTried(c, lost, ConnectSaved(rt.net.selected), radio, ACTION_LIMIT);
  }

  /** A probe falls due when the interval has passed with no transfer running. */
  predicate ProbeDue(c: Config, s: Snapshot, elapsed: u32) {
    s.state == ClientReady && !s.transferActive && elapsed != 0 && s.healthElapsed + elapsed >= c.probeInterval
  }

  /**
   * A due probe asks the radio once: an answer clears the failures, a silence counts one, and the last one allowed
   * is followed by one attempt to return.
   */
  lemma ProbeIsDecided(c: Config, rt: Runtime, elapsed: u32, radio: Radio)
    requires Resting(c, rt) && ProbeDue(c, rt.net, elapsed) && c.probeInterval <= UINT32_MAX
    ensures var r := HandleEventSpec(c, rt, Tick(elapsed), radio);
            if radio(rt.calls) == ESP_OK then
              && r.rt == rt.(net := rt.net.(healthElapsed := 0, failures := 0, lastError := 0), calls := rt.calls + 1)
              && r.status == ESP_OK
            else if rt.net.failures + 1 < c.failureThreshold then
              && r.rt == rt.(net := rt.net.(healthElapsed := 0, failures := rt.net.failures + 1,
                                            lastError := radio(rt.calls)),
                             calls := rt.calls + 1)
              && r.status == ESP_OK
            else Returned(rt.(calls := rt.calls + 1), radio, r)
  {
    hide Chain;
    var due := rt.(net := rt.net.(healthElapsed := 0));
    ProbeAsks(c, due, radio, ACTION_LIMIT);
    if radio(rt.calls) != ESP_OK && rt.net.failures + 1 >= c.failureThreshold {
      var lost := HandleSpec(c, due.net, ClientUnhealthy(radio(rt.calls))).snapshot;
      ReturnIsTried(c, due.(net := lost, calls := rt.calls + 1), RecoverSaved(rt.net.selected), radio, ACTION_LIMIT - 1);
    }
  }

  lemma ProbeAsks(c: Config, rt: Runtime, radio: Radio, budget: nat)
    requires rt.net.state == ClientReady && !rt.net.transferActive && budget >= 2
    ensures var r := Chain(c, rt, ProbeClient(rt.net.selected), radio, budget);
            var asked := rt.(calls := rt.calls + 1);
            if radio(rt.calls) == ESP_OK then
              r.rt == asked.(net := rt.net.(failures := 0, lastError := 0)) && r.status == ESP_OK
            else
              var o := HandleSpec(c, rt.net, ClientUnhealthy(radio(rt.calls)));
              r == Chain(c, asked.(net := o.snapshot), o.action, radio, budget - 1)
              && (o.action == NoAction ==> r.rt == asked.(net := o.snapshot) && r.status == ESP_OK)
  {
  }

  // ---- Asking for the hotspot ----------------------------------------------------------

  /** A timeout or a request of the user gives the hotspot its turn. */
  lemma HotspotIsDecided(c: Config, rt: Runtime, event: Event, radio: Radio)
    requires Resting(c, rt)
    requires
      || (event == ForceHotspot && rt.net.state !in {Stopped, HotspotStarting, HotspotReady} && !rt.net.transferActive)
      || (event.Tick? && event.elapsed != 0 && rt.net.state == Reconnecting
          && rt.net.elapsed + event.elapsed >= rt.net.timeout)
    ensures HotspotAnswered(rt, radio, HandleEventSpec(c, rt, event, radio))
  {
    hide Chain;
    HotspotStarts(c, rt.(net := HandleSpec(c, rt.net, event).snapshot), radio, ACTION_LIMIT);
  }

  /** A credential given to a waiting hotspot starts it; at any other time it is only kept. */
  lemma CredentialIsDecided(rt: Runtime, radio: Radio)
    requires Resting(POLICY, rt)
    ensures var after := CallSpec(POLICY, rt, ConfigureHotspot, radio);
            if rt.net.state == HotspotStarting then
              && !after.awaiting && after.calls == rt.calls + 1
              && after.net.state == (if radio(rt.calls) == ESP_OK then HotspotReady else Faulted)
            else after == rt.(hotspotConfigured := true)
  {
    hide Chain;
    if rt.net.state == HotspotStarting {
      HotspotStarts(POLICY, rt.(hotspotConfigured := true), radio, ACTION_LIMIT);
    }
  }

  // ---- The clock -----------------------------------------------------------------------

  /** A reported link failure is acted upon at the next half second, and only while connected as a client. */
  lemma FailedPollIsDecided(rt: Runtime, error: int, radio: Radio)
    requires Resting(POLICY, rt) && rt.net.state == ClientReady
    ensures var after := CallSpec(POLICY, rt, Poll(true, error), radio);
            && after.calls == rt.calls + (if Reachable(rt) then 1 else 0)
            && after.lastStationError == ReturnStatus(rt, radio) && after.net.selected == rt.net.selected
            && after.net.state == (if ReturnStatus(rt, radio) == ESP_OK then ClientReady else Reconnecting)
            && (after.net.state == Reconnecting ==> after.net.elapsed == 500)
  {
    hide Chain;
    var lost := rt.(net := HandleSpec(POLICY, rt.net, ClientLost(error)).snapshot);
    ReturnEnters(POLICY, lost, radio, ACTION_LIMIT);
    var first := HandleEventSpec(POLICY, rt, ClientLost(error), radio).rt;
    NothingToDo(POLICY, first.(net := HandleSpec(POLICY, first.net, Tick(TICK_MS)).snapshot), radio);
  }

  lemma ReturnEnters(c: Config, rt: Runtime, radio: Radio, budget: nat)
    requires rt.net.state == Reconnecting && budget >= 2
    ensures var r := Chain(c, rt, ConnectSaved(rt.net.selected), radio, budget);
            && r.rt.calls == rt.calls + (if Reachable(rt) then 1 else 0)
            && r.rt.lastStationError == ReturnStatus(rt, radio)
            && r.rt.net == if ReturnStatus(rt, radio) == ESP_OK
                           then Enter(c, rt.net.(lastError := 0, healthElapsed := 0, failures := 0), ClientReady)
                           else rt.net.(lastError := ReturnStatus(rt, radio))
  {
  }

  lemma NothingToDo(c: Config, rt: Runtime, radio: Radio)
    ensures Chain(c, rt, NoAction, radio, ACTION_LIMIT).rt == rt
  {
  }

  /** Half a second passing without a failure: it is counted, starts a probe, or ends a reconnection. */
  lemma QuietPollIsDecided(rt: Runtime, radioFailed: bool, error: int, radio: Radio)
    requires Resting(POLICY, rt) && (rt.net.state == ClientReady ==> !radioFailed)
    ensures var after, r := CallSpec(POLICY, rt, Poll(radioFailed, error), radio),
                            HandleEventSpec(POLICY, rt, Tick(500), radio);
            match rt.net.state
            case ClientReady =>
              if ProbeDue(POLICY, rt.net, 500) then after == r.rt
              else after == rt.(net := rt.net.(healthElapsed := if rt.net.transferActive then 0
                                                                else rt.net.healthElapsed + 500))
            case Reconnecting =>
              if rt.net.elapsed + 500 < rt.net.timeout then after == rt.(net := rt.net.(elapsed := rt.net.elapsed + 500))
              else after == r.rt && HotspotAnswered(rt, radio, r)
            case _ => after == rt
  {
    hide Chain;
    NothingToDo(POLICY, rt.(net := HandleSpec(POLICY, rt.net, Tick(TICK_MS)).snapshot), radio);
    if rt.net.state == Reconnecting && rt.net.elapsed + 500 >= rt.net.timeout {
      HotspotIsDecided(POLICY, rt, Tick(500), radio);
    }
  }

  /** A transfer can be marked while connected or serving the hotspot, and its end always. */
  lemma TransferIsDecided(rt: Runtime, active: bool, radio: Radio)
    requires Resting(POLICY, rt)
    ensures CallSpec(POLICY, rt, SetTransfer(active), radio) ==
            if !active || rt.net.state == ClientReady || rt.net.state == HotspotReady
            then rt.(net := rt.net.(transferActive := active)) else rt
  {
    hide Chain;
    NothingToDo(POLICY, rt.(net := rt.net.(transferActive := active)), radio);
  }

  // ---- Network handles -----------------------------------------------------------------

  const FNV_INVERSE: nat := 899433627

  lemma RemainderOf(x: u32, z: int)
    ensures (x + z * U32_LIMIT) % U32_LIMIT == x
  {
  }

  /** Multiplying by the prime can be undone modulo 2^32. */
  lemma PrimeCancels(x: u32)
    ensures x * FNV_PRIME % U32_LIMIT * FNV_INVERSE % U32_LIMIT == x
  {
    var q := x * FNV_PRIME / U32_LIMIT;
    assert FNV_PRIME * FNV_INVERSE == 1 + 3513497 * U32_LIMIT;
    assert x * FNV_PRIME % U32_LIMIT * FNV_INVERSE == x + (3513497 * x - q * FNV_INVERSE) * U32_LIMIT;
    RemainderOf(x, 3513497 * x - q * FNV_INVERSE);
  }

  /** A step of the hash tells numbers apart for the same byte, and bytes for the same number. */
  lemma StepTellsApart(value: u32, other: u32, b: byte, d: byte)
    requires FnvStep(value, b) == FnvStep(other, d)
    ensures b == d ==> value == other
    ensures value == other ==> b == d
  {
    Crc32.XorU32(value, b);
    Crc32.XorU32(other, d);
    PrimeCancels(Crc32.Xor(value, b));
    PrimeCancels(Crc32.Xor(other, d));
    if b == d {
      Crc32.XorCancel(value, other, b);
    }
    if value == other {
      Crc32.XorCommutes(value, b);
      Crc32.XorCommutes(value, d);
      Crc32.XorCancel(b, d, value);
    }
  }

  lemma {:induction false} HashTellsApart(value: u32, other: u32, ssid: seq<byte>)
    requires value != other
    ensures Fnv(value, ssid) != Fnv(other, ssid)
    decreases |ssid|
  {
    hide FnvStep;
    if ssid != [] {
      if FnvStep(value, ssid[0]) == FnvStep(other, ssid[0]) {
        StepTellsApart(value, other, ssid[0], ssid[0]);
      }
      HashTellsApart(FnvStep(value, ssid[0]), FnvStep(other, ssid[0]), ssid[1..]);
    }
  }

  /** Names of one length that differ in one byte have different hashes, so a handle names one of them. */
  lemma {:induction false} OneByteTellsApart(value: u32, ssid: seq<byte>, i: nat, b: byte)
    requires i < |ssid| && ssid[i] != b
    ensures Fnv(value, ssid) != Fnv(value, ssid[i := b])
    decreases |ssid|
  {
    hide FnvStep;
    var other := ssid[i := b];
    if i == 0 {
      assert other[1..] == ssid[1..];
      if FnvStep(value, ssid[0]) == FnvStep(value, b) {
        StepTellsApart(value, value, ssid[0], b);
      }
      HashTellsApart(FnvStep(value, ssid[0]), FnvStep(value, b), ssid[1..]);
    } else {
      assert other[1..] == ssid[1..][i - 1 := b];
      OneByteTellsApart(FnvStep(value, ssid[0]), ssid[1..], i - 1, b);
    }
  }

  /** The handle of a name is its hash, except that the hash zero shares the handle one. */
  lemma HandleTellsApart(ssid: seq<byte>, i: nat, b: byte)
    requires i < |ssid| && ssid[i] != b
    ensures NetworkId(ssid) != NetworkId(ssid[i := b])
            || {Fnv(FNV_OFFSET, ssid), Fnv(FNV_OFFSET, ssid[i := b])} == {0, 1}
  {
    hide Fnv;
    OneByteTellsApart(FNV_OFFSET, ssid, i, b);
  }
}
