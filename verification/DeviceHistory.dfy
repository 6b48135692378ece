/** The device service told from the history of its accepted events alone. */
module DeviceHistory {
  import opened Bytes
  import opened DeviceService

  datatype Past = Past(snapshot: DeviceSnapshot, history: seq<DeviceEvent>)

  /** A run of events from a stopped service, and those of them that were accepted. */
  function RunEvents(events: seq<DeviceEvent>): Past {
    if events == [] then Past(NO_DEVICE, [])
    else
      var before := RunEvents(events[..|events| - 1]);
      var event := events[|events| - 1];
      var handled := HandleDeviceSpec(before.snapshot, event);
      Past(handled.snapshot, if handled.status == CoreOk then before.history + [event] else before.history)
  }

  // ---- What a history says --------------------------------------------------------------------

  predicate AllGone(event: DeviceEvent) {
    event.kind == Detached && event.eligibleDevices == 0
  }

  predicate NoneGoneAfter(h: seq<DeviceEvent>, i: nat) {
    forall k | i < k < |h| :: !AllGone(h[k])
  }

  /** Several devices were reported, and since then they were not all reported gone. */
  ghost predicate InConflict(h: seq<DeviceEvent>) {
    exists i :: 0 <= i < |h| && h[i].kind == MultipleDetected && NoneGoneAfter(h, i)
  }

  function Last(h: seq<DeviceEvent>): (kind: DeviceEventKind)
    requires h != []
  {
    h[|h| - 1].kind
  }

  /** The state follows from the kind of the last accepted event, unless a conflict stands. */
  ghost predicate StateTold(s: DeviceSnapshot, h: seq<DeviceEvent>) {
    if h == [] then s.state == Stopped
    else if InConflict(h) then s.state == Conflict
    else
      match Last(h)
      case MonitorStarted => s.state == Waiting
      case Detached => s.state == Waiting
      case Attached => s.state == Inspecting
      case Accepted => s.state == Available
      case SessionClosed => s.state == Available
      case SessionOpened => s.state == SessionActive
      case Failure => s.state == Faulted
      case MultipleDetected => false
  }

  predicate AboutDevices(event: DeviceEvent) {
    event.kind in {Attached, Accepted, Detached, MultipleDetected}
  }

  /** The identity that was last attached or accepted, and none after a device left or several came. */
  function IdentityOf(h: seq<DeviceEvent>): Identity {
    if h == [] then NO_IDENTITY
    else if Last(h) in {Attached, Accepted} then h[|h| - 1].identity
    else if Last(h) in {Detached, MultipleDetected} then NO_IDENTITY
    else IdentityOf(h[..|h| - 1])
  }

  /** One after a device was accepted, and in a conflict as many as were last reported. */
  ghost function CountOf(h: seq<DeviceEvent>): nat {
    if h == [] then 0
    else if Last(h) == Accepted then 1
    else if Last(h) == Attached then 0
    else if Last(h) in {Detached, MultipleDetected} then if InConflict(h) then h[|h| - 1].eligibleDevices else 0
    else CountOf(h[..|h| - 1])
  }

  /** The last nonzero revision of an event about devices. */
  function RevisionOf(h: seq<DeviceEvent>): nat {
    if h == [] then 0
    else if AboutDevices(h[|h| - 1]) && h[|h| - 1].revision != 0 then h[|h| - 1].revision
    else RevisionOf(h[..|h| - 1])
  }

  function ErrorOf(h: seq<DeviceEvent>): int {
    if h == [] then 0 else if Last(h) == Failure then h[|h| - 1].platformError else ErrorOf(h[..|h| - 1])
  }

  ghost predicate Told(s: DeviceSnapshot, h: seq<DeviceEvent>) {
    && StateTold(s, h)
    && s.identity == IdentityOf(h) && s.eligibleDevices == CountOf(h)
    && s.revision == RevisionOf(h) && s.lastPlatformError == ErrorOf(h)
    && (s.conflictRecoveryRequired <==> InConflict(h))
  }

  /** Older news about devices than was already taken in. */
  predicate Late(h: seq<DeviceEvent>, event: DeviceEvent) {
    AboutDevices(event) && event.revision != 0 && exists i :: 0 <= i < |h| && AboutDevices(h[i]) && h[i].revision > event.revision
  }

  /** What is accepted, told from the history alone. */
  ghost predicate Allowed(h: seq<DeviceEvent>, event: DeviceEvent) {
    && !Late(h, event)
    && match event.kind
       case MonitorStarted => h == []
       case Attached => h != [] && !InConflict(h) && Last(h) in {MonitorStarted, Detached}
       case Accepted =>
         && h != [] && !InConflict(h) && Last(h) == Attached
         && var attached := h[|h| - 1].identity;
         && attached.vendorId == event.identity.vendorId && attached.productId == event.identity.productId
         && attached.address == event.identity.address
         && attached.attachmentGeneration == event.identity.attachmentGeneration
       case SessionOpened => h != [] && !InConflict(h) && Last(h) in {Accepted, SessionClosed}
       case SessionClosed => InConflict(h) || (h != [] && Last(h) == SessionOpened)
       case Detached => InConflict(h) || (h != [] && Last(h) !in {MonitorStarted, Detached})
       case MultipleDetected => h != [] && event.eligibleDevices >= 2
       case Failure => true
  }

  // ---- One more event ---------------------------------------------------------------------------

  lemma ConflictOneMore(h: seq<DeviceEvent>, event: DeviceEvent)
    ensures InConflict(h + [event]) <==> event.kind == MultipleDetected || (InConflict(h) && !AllGone(event))
  {
    var grown := h + [event];
    assert grown[|h|] == event && NoneGoneAfter(grown, |h|);
    forall i | 0 <= i < |h|
      ensures NoneGoneAfter(grown, i) <==> NoneGoneAfter(h, i) && !AllGone(event)
      ensures grown[i] == h[i]
    {
      NoneGoneOneMore(h, event, i);
    }
    hide NoneGoneAfter, AllGone;
  }

  lemma NoneGoneOneMore(h: seq<DeviceEvent>, event: DeviceEvent, i: nat)
    requires i < |h|
    ensures NoneGoneAfter(h + [event], i) <==> NoneGoneAfter(h, i) && !AllGone(event)
  {
    var grown := h + [event];
    assert forall k | 0 <= k < |h| :: grown[k] == h[k];
    assert grown[|h|] == event;
  }

  /** Revisions of accepted events never fall, so the last is the largest. */
  predicate Ascending(h: seq<DeviceEvent>) {
    forall i | 0 <= i < |h| && AboutDevices(h[i]) :: h[i].revision <= RevisionOf(h)
  }

  lemma {:induction false} RevisionIsSome(h: seq<DeviceEvent>)
    ensures RevisionOf(h) == 0 || exists i :: 0 <= i < |h| && AboutDevices(h[i]) && h[i].revision == RevisionOf(h)
    decreases |h|
  {
    if h != [] && !(AboutDevices(h[|h| - 1]) && h[|h| - 1].revision != 0) {
      var front := h[..|h| - 1];
      RevisionIsSome(front);
      if i :| 0 <= i < |front| && AboutDevices(front[i]) && front[i].revision == RevisionOf(front) {
        assert h[i] == front[i];
      }
    } else if h != [] {
      assert AboutDevices(h[|h| - 1]);
    }
  }

  lemma LateIff(h: seq<DeviceEvent>, event: DeviceEvent)
    requires Ascending(h)
    ensures Late(h, event) <==> AboutDevices(event) && event.revision != 0 && event.revision < RevisionOf(h)
  {
    RevisionIsSome(h);
  }

  lemma AscendingOneMore(h: seq<DeviceEvent>, event: DeviceEvent)
    requires Ascending(h) && !Late(h, event)
    ensures Ascending(h + [event])
  {
    LateIff(h, event);
    var grown := h + [event];
    assert grown[..|h|] == h;
    forall i | 0 <= i < |grown| && AboutDevices(grown[i])
      ensures grown[i].revision <= RevisionOf(grown)
    {
      if i < |h| {
        assert grown[i] == h[i];
      }
    }
  }

  /** How one more accepted event changes what the history says. */
  lemma DetailsOneMore(h: seq<DeviceEvent>, event: DeviceEvent)
    ensures var grown := h + [event];
            && Last(grown) == event.kind
            && IdentityOf(grown) == (if event.kind in {Attached, Accepted} then event.identity
                                     else if event.kind in {Detached, MultipleDetected} then NO_IDENTITY else IdentityOf(h))
            && CountOf(grown) == (if event.kind == Accepted then 1 else if event.kind == Attached then 0
                                  else if event.kind in {Detached, MultipleDetected} then
                                    if InConflict(grown) then event.eligibleDevices else 0
                                  else CountOf(h))
            && RevisionOf(grown) == (if AboutDevices(event) && event.revision != 0 then event.revision else RevisionOf(h))
            && ErrorOf(grown) == (if event.kind == Failure then event.platformError else ErrorOf(h))
  {
    hide InConflict;
    assert (h + [event])[..|h|] == h;
  }

  lemma OneMoreTold(s: DeviceSnapshot, h: seq<DeviceEvent>, event: DeviceEvent)
    requires Told(s, h) && Ascending(h) && DeviceValid(s)
    ensures var handled := HandleDeviceSpec(s, event);
            && (handled.status == CoreOk <==> Allowed(h, event))
            && (handled.status != CoreOk ==> handled.snapshot == s)
            && (handled.status == CoreOk ==> Told(handled.snapshot, h + [event]) && Ascending(h + [event]))
  {
    ConflictOneMore(h, event);
    DetailsOneMore(h, event);
    LateIff(h, event);
    AcceptedNamesAttached(h);
    if !Late(h, event) {
      AscendingOneMore(h, event);
    }
    hide InConflict, IdentityOf, CountOf, RevisionOf, ErrorOf, Late, Ascending, DeviceValid;
  }

  lemma AcceptedNamesAttached(h: seq<DeviceEvent>)
    ensures h != [] && Last(h) == Attached ==> IdentityOf(h) == h[|h| - 1].identity
  {
  }

  lemma {:induction false} RunIsTold(events: seq<DeviceEvent>)
    ensures Told(RunEvents(events).snapshot, RunEvents(events).history)
    ensures Ascending(RunEvents(events).history) && DeviceValid(RunEvents(events).snapshot)
  {
    hide Told, Ascending, HandleDeviceSpec, DeviceValid;
    if events == [] {
      NothingTold();
    } else {
      var front, last := events[..|events| - 1], events[|events| - 1];
      RunIsTold(front);
      OneMoreTold(RunEvents(front).snapshot, RunEvents(front).history, last);
      DeviceEventKeepsValid(RunEvents(front).snapshot, last);
    }
  }

  lemma NoConflictYet(h: seq<DeviceEvent>)
    requires h == []
    ensures !InConflict(h)
  {
  }

  lemma NothingTold()
    ensures Told(NO_DEVICE, []) && Ascending([]) && DeviceValid(NO_DEVICE)
  {
    NoConflictYet([]);
    hide InConflict, AboutDevices;
  }

  /**
   * After any run of events, the next one is accepted exactly when the accepted ones before allow it, and a refused one
   * changes nothing; and the whole snapshot follows from the accepted ones: the state from the last of them unless a
   * conflict stands, the identity, the number of devices, the revision and the last error.
   */
  lemma HistoryDecides(events: seq<DeviceEvent>, event: DeviceEvent)
    ensures var r := RunEvents(events);
            var handled := HandleDeviceSpec(r.snapshot, event);
            && Told(r.snapshot, r.history)
            && (handled.status == CoreOk <==> Allowed(r.history, event))
            && (handled.status != CoreOk ==> handled.snapshot == r.snapshot)
            && (handled.status == CoreOk ==> Told(handled.snapshot, r.history + [event]))
  {
    RunIsTold(events);
    var r := RunEvents(events);
    OneMoreTold(r.snapshot, r.history, event);
    hide *;
  }
}
