/** The Wi-Fi policy told from its inputs: what is answered, what is remembered, and how long it holds out. */
module NetworkHistory {
  import opened Bytes
  import opened NetworkCoordinator

  // ---- What is answered -----------------------------------------------------------------------

  /** The states in which an event means something. */
  function StatesFor(event: Event): set<State> {
    match event
    case Start => {Stopped, Faulted}
    case ScanSelected(_) => {Searching}
    case ScanEmpty => {Searching}
    case ClientConnected => {Connecting, Reconnecting}
    case ClientFailed(_) => {Connecting, Reconnecting}
    case ClientLost(_) => {ClientReady}
    case ClientHealthy => {ClientReady}
    case ClientUnhealthy(_) => {ClientReady}
    case HotspotStarted => {HotspotStarting}
    case HotspotFailed(_) => {HotspotStarting}
    case RetrySaved => {ClientReady, HotspotReady}
    case ForceHotspot => {Searching, Connecting, ClientReady, Reconnecting, Faulted}
    case TransferStarted => {ClientReady, HotspotReady}
    case _ => {Stopped, Searching, Connecting, ClientReady, Reconnecting, HotspotStarting, HotspotReady, Faulted}
  }

  /** What would take the network away from a transfer. */
  predicate Disturbs(event: Event) {
    event.RetrySaved? || event.ForceHotspot? || event.ClientUnhealthy?
  }

  /** Exactly what is refused, and why. */
  lemma AnswersIff(c: Config, s: Snapshot, event: Event)
    requires Valid(c, s)
    ensures var status := HandleSpec(c, s, event).status;
            && (status == InvalidArgument <==> event == Tick(0) || event == ScanSelected(0))
            && (status == TransferLocked <==> s.transferActive && Disturbs(event) && s.state in StatesFor(event))
            && (status == Ok <==>
                 && event != Tick(0) && event != ScanSelected(0) && s.state in StatesFor(event)
                 && (Disturbs(event) || event.TransferStarted? ==> !s.transferActive)
                 && (event.TransferFinished? ==> s.transferActive))
  {
  }

  // ---- What is remembered ----------------------------------------------------------------------

  datatype Past = Past(snapshot: Snapshot, history: seq<Event>)

  /** A run from a stopped machine, and the events of it that were accepted. */
  function RunEvents(c: Config, events: seq<Event>): Past {
    if events == [] then Past(INITIAL, [])
    else
      var before := RunEvents(c, events[..|events| - 1]);
      var event := events[|events| - 1];
      var done := HandleSpec(c, before.snapshot, event);
      Past(done.snapshot, if done.status == Ok then before.history + [event] else before.history)
  }

  /** A transfer was started and not finished, and the machine not started anew. */
  predicate Transferring(h: seq<Event>) {
    h != [] &&
    match h[|h| - 1]
    case TransferStarted => true
    case TransferFinished => false
    case Start => false
    case Stop => false
    case _ => Transferring(h[..|h| - 1])
  }

  /** The last error reported, unless something has succeeded or been tried anew since. */
  function ErrorOf(h: seq<Event>): int {
    if h == [] then 0
    else
      match h[|h| - 1]
      case ClientFailed(error) => error
      case ClientLost(error) => error
      case ClientUnhealthy(error) => error
      case HotspotFailed(error) => error
      case ClientConnected => 0
      case ClientHealthy => 0
      case HotspotStarted => 0
      case RetrySaved => 0
      case Start => 0
      case Stop => 0
      case _ => ErrorOf(h[..|h| - 1])
  }

  /** The network the last scan chose. */
  function Choice(h: seq<Event>): u32 {
    if h == [] then 0
    else if h[|h| - 1].ScanSelected? then h[|h| - 1].networkId
    else Choice(h[..|h| - 1])
  }

  /** Reports against the network in use since the last word that it is well, or that it was joined. */
  function Complaints(h: seq<Event>): nat {
    if h == [] then 0
    else
      match h[|h| - 1]
      case ClientUnhealthy(_) => Complaints(h[..|h| - 1]) + 1
      case ClientConnected => 0
      case ClientHealthy => 0
      case _ => Complaints(h[..|h| - 1])
  }

  /** Failed attempts at the network the last scan chose, counting the first as one. */
  function Tries(h: seq<Event>): nat {
    if h == [] then 0
    else
      match h[|h| - 1]
      case ScanSelected(_) => 1
      case ClientFailed(_) => Tries(h[..|h| - 1]) + 1
      case ClientConnected => 0
      case _ => Tries(h[..|h| - 1])
  }

  predicate Told(s: Snapshot, h: seq<Event>) {
    && (s.transferActive <==> Transferring(h))
    && s.lastError == ErrorOf(h)
    && (s.selected != 0 ==> s.selected == Choice(h))
    && (s.state == ClientReady ==> s.failures == Complaints(h))
    && (s.state == Connecting ==> s.attempts == Tries(h))
  }

  lemma HistoryOne(h: seq<Event>, event: Event)
    ensures var grown := h + [event];
            && (Transferring(grown) <==> event.TransferStarted?
                                         || (Transferring(h) && !event.TransferFinished? && !event.Start? && !event.Stop?))
            && ErrorOf(grown) == (match event
                                  case ClientFailed(error) => error
                                  case ClientLost(error) => error
                                  case ClientUnhealthy(error) => error
                                  case HotspotFailed(error) => error
                                  case _ => if event.ClientConnected? || event.ClientHealthy? || event.HotspotStarted?
                                               || event.RetrySaved? || event.Start? || event.Stop? then 0 else ErrorOf(h))
            && Choice(grown) == (if event.ScanSelected? then event.networkId else Choice(h))
            && Complaints(grown) == (if event.ClientUnhealthy? then Complaints(h) + 1
                                     else if event.ClientConnected? || event.ClientHealthy? then 0 else Complaints(h))
            && Tries(grown) == (if event.ScanSelected? then 1 else if event.ClientFailed? then Tries(h) + 1
                                else if event.ClientConnected? then 0 else Tries(h))
  {
    assert (h + [event])[..|h|] == h;
  }

  lemma OneMoreTold(c: Config, s: Snapshot, h: seq<Event>, event: Event)
    requires Valid(c, s) && Told(s, h) && HandleSpec(c, s, event).status == Ok
    ensures Told(HandleSpec(c, s, event).snapshot, h + [event])
  {
    HistoryOne(h, event);
    hide Transferring, ErrorOf, Choice, Complaints, Tries;
  }

  lemma {:induction false} RunIsTold(c: Config, events: seq<Event>)
    requires ConfigValid(c)
    ensures Told(RunEvents(c, events).snapshot, RunEvents(c, events).history) && Valid(c, RunEvents(c, events).snapshot)
  {
    hide HandleSpec, Valid, Told;
    if events == [] {
      NothingTold(c);
    } else {
      var front, event := events[..|events| - 1], events[|events| - 1];
      RunIsTold(c, front);
      var before := RunEvents(c, front);
      HandleKeepsValid(c, before.snapshot, event);
      if HandleSpec(c, before.snapshot, event).status == Ok {
        OneMoreTold(c, before.snapshot, before.history, event);
      }
    }
  }

  lemma NothingTold(c: Config)
    requires ConfigValid(c)
    ensures Told(INITIAL, []) && Valid(c, INITIAL)
  {
  }

  // ---- How long it holds out ---------------------------------------------------------------------

  predicate Ticks(events: seq<Event>) {
    forall i | 0 <= i < |events| :: events[i].Tick?
  }

  function Failures(events: seq<Event>): nat {
    if events == [] then 0 else Failures(events[..|events| - 1]) + if events[|events| - 1].ClientFailed? then 1 else 0
  }

  /** What has passed since the last failure, or on top of what had passed before. */
  function SinceFailure(elapsed: nat, events: seq<Event>): nat {
    if events == [] then elapsed
    else
      match events[|events| - 1]
      case Tick(more) => SinceFailure(elapsed, events[..|events| - 1]) + more
      case _ => 0
  }

  /** Attempts are left, and the one under way has time left. */
  predicate HoldsOut(c: Config, s: Snapshot, events: seq<Event>) {
    s.attempts + Failures(events) <= c.attemptLimit && SinceFailure(s.elapsed, events) < c.startupTimeout
  }

  lemma ConnectingStep(c: Config, s: Snapshot, event: Event)
    requires Valid(c, s) && (event.Tick? || event.ClientFailed?)
    requires s.state == Connecting || s.state == HotspotStarting
    ensures var r := HandleSpec(c, s, event);
            && Valid(c, r.snapshot)
            && (s.state == HotspotStarting ==> r.snapshot.state == HotspotStarting && r.action == NoAction)
            && (s.state == Connecting && event.Tick? ==>
                  if s.elapsed + event.elapsed < c.startupTimeout
                  then r.action == NoAction && r.snapshot == s.(elapsed := s.elapsed + event.elapsed)
                  else r.action == StartHotspot && r.snapshot.state == HotspotStarting)
            && (s.state == Connecting && event.ClientFailed? ==>
                  if s.attempts < c.attemptLimit
                  then r.action == RecoverSaved(s.selected) && r.snapshot.state == Connecting
                       && r.snapshot.attempts == s.attempts + 1 && r.snapshot.elapsed == 0 && r.snapshot.selected == s.selected
                  else r.action == StartHotspot && r.snapshot.state == HotspotStarting)
  {
    HandleKeepsValid(c, s, event);
  }

  /**
   * A machine that is connecting goes on with the network it chose for exactly as long as attempts are left and none
   * takes the whole startup timeout, however failures and ticks fall; then it opens the hotspot.
   */
  lemma {:induction false} ConnectsWhileAttemptsLast(c: Config, s: Snapshot, events: seq<Event>)
    requires Valid(c, s) && s.state == Connecting && OnlyWaiting(events)
    ensures var t := Run(c, s, events);
            && Valid(c, t)
            && if forall n | 0 <= n <= |events| :: HoldsOut(c, s, events[..n])
               then t.state == Connecting && t.selected == s.selected && t.attempts == s.attempts + Failures(events)
                    && t.elapsed == SinceFailure(s.elapsed, events)
               else t.state == HotspotStarting
  {
    hide HandleSpec, Valid;
    if events == [] {
      ElapsedFits(c, s);
      assert events[..0] == [];
    } else {
      var front, event := events[..|events| - 1], events[|events| - 1];
      ConnectsWhileAttemptsLast(c, s, front);
      ConnectingStep(c, Run(c, s, front), event);
      assert events[..|events|] == events;
      assert forall n | 0 <= n <= |front| :: front[..n] == events[..n];
    }
  }

  lemma ElapsedFits(c: Config, s: Snapshot)
    requires Valid(c, s) && s.state == Connecting
    ensures HoldsOut(c, s, [])
  {
  }

  /** A scan is waited for exactly as long as the startup timeout. */
  lemma {:induction false} SearchesForTheTimeout(c: Config, s: Snapshot, events: seq<Event>)
    requires Valid(c, s) && s.state == Searching && Ticks(events)
    ensures var t := Run(c, s, events);
            if s.elapsed + Ticked(events) < c.startupTimeout then t == s.(elapsed := s.elapsed + Ticked(events))
            else t.state == HotspotStarting
  {
    if events != [] {
      SearchesForTheTimeout(c, s, events[..|events| - 1]);
    }
  }

  /**
   * A network in use is probed with the tick that completes the probe interval, not before, and the clock starts anew;
   * while a transfer runs it is never probed.
   */
  lemma {:induction false} ProbesAtTheInterval(c: Config, s: Snapshot, events: seq<Event>, last: u32)
    requires Valid(c, s) && s.state == ClientReady && Ticks(events) && last != 0
    requires !s.transferActive ==> s.healthElapsed + Ticked(events) < c.probeInterval
    ensures var t := Run(c, s, events);
            var r := HandleSpec(c, t, Tick(last));
            && t == (if s.transferActive then s.(healthElapsed := t.healthElapsed)
                     else s.(healthElapsed := s.healthElapsed + Ticked(events)))
            && r.action == (if !s.transferActive && s.healthElapsed + Ticked(events) + last >= c.probeInterval
                            then ProbeClient(s.selected) else NoAction)
            && r.snapshot.healthElapsed == (if s.transferActive || r.action != NoAction then 0
                                            else s.healthElapsed + Ticked(events) + last)
  {
    if events != [] {
      ProbesAtTheInterval(c, s, events[..|events| - 1], last);
    }
  }

  predicate OnlyComplaints(events: seq<Event>) {
    forall i | 0 <= i < |events| :: events[i].ClientUnhealthy?
  }

  /** A network in use without a transfer is given up for a reconnect at exactly the threshold of complaints. */
  lemma {:induction false} GivesUpAtTheThreshold(c: Config, s: Snapshot, events: seq<Event>)
    requires Valid(c, s) && s.state == ClientReady && !s.transferActive && OnlyComplaints(events)
    ensures var t := Run(c, s, events);
            if s.failures + |events| < c.failureThreshold
            then t.state == ClientReady && t.failures == s.failures + |events| && !t.transferActive && t.selected == s.selected
            else t.state == Reconnecting && t.selected == s.selected
    ensures events != [] && s.failures + |events| == c.failureThreshold ==>
              HandleSpec(c, Run(c, s, events[..|events| - 1]), events[|events| - 1]).action == RecoverSaved(s.selected)
  {
    hide Valid;
    if events == [] {
      BelowThreshold(c, s);
    } else {
      GivesUpAtTheThreshold(c, s, events[..|events| - 1]);
    }
  }

  lemma BelowThreshold(c: Config, s: Snapshot)
    requires Valid(c, s) && s.state == ClientReady
    ensures s.failures < c.failureThreshold
  {
  }

  // ---- What leads where --------------------------------------------------------------------------

  /** What the accepted reports and calls lead to, apart from failures, complaints and ticks. */
  lemma LeadsTo(c: Config, s: Snapshot, event: Event)
    requires Valid(c, s) && HandleSpec(c, s, event).status == Ok
    requires !event.Tick? && !event.ClientFailed? && !event.ClientUnhealthy?
    ensures var r := HandleSpec(c, s, event);
            match event
            case Start => r.snapshot.state == Searching && r.action == ScanSaved
            case RetrySaved => r.snapshot.state == Searching && r.action == ScanSaved
            case ScanSelected(id) => r.snapshot.state == Connecting && r.action == ConnectSaved(id) && r.snapshot.selected == id
            case ScanEmpty => r.snapshot.state == HotspotStarting && r.action == StartHotspot
            case ForceHotspot => r.snapshot.state == HotspotStarting && r.action == StartHotspot
            case ClientConnected => r.snapshot.state == ClientReady && r.action == NoAction && r.snapshot.selected == s.selected
            case ClientLost(_) => r.snapshot.state == Reconnecting && r.action == ConnectSaved(s.selected)
            case HotspotStarted => r.snapshot.state == HotspotReady && r.action == NoAction
            case HotspotFailed(_) => r.snapshot.state == Faulted && r.action == NoAction
            case Stop => r.snapshot == INITIAL && r.action == StopRadio
            case _ => r.snapshot.state == s.state && r.action == NoAction && r.snapshot.selected == s.selected
  {
  }
}
