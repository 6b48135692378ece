/** Whole lives of a card: any calls in any order, power lost anywhere, and restarts, over and over. */
module MapLifetime {
  import opened Bytes
  import opened LedgerText
  import opened StagedMapRecord
  import opened StagingCard
  import opened MapUpload

  datatype Call =
    | Begin(name: seq<byte>, destination: seq<byte>, size: u32)
    | SetTarget(part: seq<byte>, serial: seq<byte>)
    | Write(data: seq<byte>)
    | Commit
    | Abort
    | Discard
    | Consent(enabled: bool)
    | Automatic(enabled: bool)
    | Attach
    | Request(part: seq<byte>, serial: seq<byte>, usbRecovery: bool, accepted: bool)
    | Apply(part: seq<byte>, serial: seq<byte>, syncClean: bool, syncPending: nat, usbRecovery: bool, accepted: bool)
    | Open(request: UploadRequest)
    | Close
    | Observe(state: UploadState, recovery: bool)

  /** Names come as strings that end at a zero byte. */
  predicate WellFormed(call: Call) {
    match call
    case Begin(name, destination, _) => 0 !in name && 0 !in destination
    case SetTarget(part, serial) => 0 !in part && 0 !in serial
    case _ => true
  }

  predicate AllWellFormed(calls: seq<Call>) {
    forall i | 0 <= i < |calls| :: WellFormed(calls[i])
  }

  /** The upload at hand: what it was begun as, the pin it was given, and the bytes that have come. */
  datatype Upload = Upload(name: seq<byte>, destination: seq<byte>, size: u32, part: seq<byte>, serial: seq<byte>, data: seq<byte>)

  const NO_UPLOAD: Upload := Upload([], [], 0, [], [], [])

  /** What one call and its answer make of it. A pin is lost when a bad one is given, or a write is found verified. */
  function Next(u: Upload, call: Call, answer: Answer): Upload {
    match call
    case Begin(name, destination, size) => if answer == Done then Upload(name, destination, size, [], [], []) else u
    case SetTarget(part, serial) =>
      if answer == Done then u.(part := part, serial := serial)
      else if answer == BadArgument then u.(part := [], serial := [])
      else u
    case Write(data) => if answer == Done then u.(data := u.data + data) else u
    case Observe(state, _) => if state == UploadVerified then u.(part := [], serial := []) else u
    case _ => u
  }

  function AtHand(calls: seq<Call>, answers: seq<Answer>): Upload
    requires |calls| == |answers|
  {
    if calls == [] then NO_UPLOAD
    else
      var last := |calls| - 1;
      Next(AtHand(calls[..last], answers[..last]), calls[last], answers[last])
  }

  /** The upload after one more call. */
  lemma AtHandMore(calls: seq<Call>, answers: seq<Answer>, call: Call, answer: Answer)
    requires |calls| == |answers|
    ensures AtHand(calls + [call], answers + [answer]) == Next(AtHand(calls, answers), call, answer)
  {
    hide Next;
    assert (calls + [call])[..|calls|] == calls && (answers + [answer])[..|calls|] == answers;
  }

  /** The pair that committing this upload adds: its bytes, and the record made of everything else. */
  predicate IsPairOf(hash: Hash, u: Upload, p: Pair) {
    && p.payload == u.data
    && TargetKind(u.destination, u.size).Some?
    && p.record == Record(TargetKind(u.destination, u.size).value, u.size, hash(u.data), u.name, u.destination, u.part, u.serial)
  }

  ghost function Held(service: Service): Upload
    reads service
  {
    Upload(service.name, service.destination, service.expectedSize, service.part, service.serial, service.hashed)
  }

  // ---- One call ------------------------------------------------------------------------------

  /** What the service holds follows the calls for as long as it is being staged. */
  predicate UploadMoves(call: Call, answer: Answer, wasStaging: bool, was: Upload, staging: bool, now: Upload) {
    staging ==> now == Next(was, call, answer) && (wasStaging || (call.Begin? && answer == Done))
  }

  method Stage(service: Service, call: Call) returns (answer: Answer)
    requires service.Valid() && WellFormed(call) && (call.Begin? || call.SetTarget? || call.Write? || call.Abort? || call.Discard?)
    modifies service, service.card
    ensures service.Valid()
    ensures service.card.Grows(old(service.card.committed), old(service.card.stuck), old(service.card.troubled), old(service.card.powered))
    ensures UploadMoves(call, answer, old(service.staging), old(Held(service)), service.staging, Held(service))
    ensures !call.Begin? ==> service.expectedSize in {0, old(service.expectedSize)}
  {
    hide CardSound, CutFrom, TargetKind, Fits, Restored, StagedKept, WouldBegin;
    match call {
      case Begin(name, destination, size) =>
        answer := service.StageBegin(name, destination, size);
      case SetTarget(part, serial) =>
        answer := service.SetTarget(part, serial);
      case Write(data) =>
        answer := service.StageWrite(data);
      case Abort =>
        service.StageAbort();
        answer := Done;
      case Discard =>
        answer := service.Discard();
    }
  }

  /** The calls about writing to the device. */
  method Transfer(service: Service, call: Call) returns (answer: Answer, request: Option<UploadRequest>)
    requires service.Valid()
    requires !call.Begin? && !call.SetTarget? && !call.Write? && !call.Abort? && !call.Discard? && !call.Commit?
    modifies service, service.card
    ensures service.Valid()
    ensures service.card.Grows(old(service.card.committed), old(service.card.stuck), old(service.card.troubled), old(service.card.powered))
    ensures UploadMoves(call, answer, old(service.staging), old(Held(service)), service.staging, Held(service))
    ensures service.expectedSize == old(service.expectedSize)
    ensures request.Some? ==> request.value.size == service.expectedSize && service.Carries(request.value)
  {
    hide CardSound, CutFrom, TargetKind, Fits, Restored;
    answer, request := Done, None;
    match call {
      case Consent(enabled) =>
        answer := service.SetConsent(enabled);
      case Automatic(enabled) =>
        answer := service.SetAutoApply(enabled);
      case Attach =>
        service.NotifyAttach();
      case Request(part, serial, usbRecovery, accepted) =>
        answer, request := service.RequestUpload(part, serial, usbRecovery, accepted);
      case Apply(part, serial, syncClean, syncPending, usbRecovery, accepted) =>
        var decision;
        answer, decision, request := service.AutoApply(part, serial, syncClean, syncPending, usbRecovery, accepted);
      case Open(asked) =>
        var payload;
        answer, payload := service.SourceOpen(asked);
      case Close =>
        service.SourceClose();
      case Observe(state, recovery) =>
        service.ObserveUpload(state, recovery);
    }
  }

  /** Any call. What it commits is the pair of the upload at hand, and only a new upload brings a lost size back. */
  method Perform(service: Service, call: Call) returns (answer: Answer, request: Option<UploadRequest>)
    requires service.Valid() && WellFormed(call)
    modifies service, service.card
    ensures service.Valid()
    ensures old(service.card.committed) <= service.card.committed
    ensures (old(service.card.stuck) ==> service.card.stuck)
    ensures forall p | p in service.card.committed - old(service.card.committed) ::
              call.Commit? && old(service.staging) && IsPairOf(service.card.hash, old(Held(service)), p)
    ensures UploadMoves(call, answer, old(service.staging), old(Held(service)), service.staging, Held(service))
    ensures !call.Begin? ==> service.expectedSize in {0, old(service.expectedSize)}
    ensures request.Some? ==> request.value.size == service.expectedSize && service.Carries(request.value)
  {
    hide CardSound, CutFrom, TargetKind, Fits, Restored;
    request := None;
    if call.Commit? {
      answer := service.StageCommit();
    } else if call.Begin? || call.SetTarget? || call.Write? || call.Abort? || call.Discard? {
      answer := Stage(service, call);
    } else {
      answer, request := Transfer(service, call);
    }
  }

  // ---- One life and many -----------------------------------------------------------------------

  /** What a restart has found and staged again. */
  datatype Restoration = Restoration(record: Record, payload: seq<byte>)

  /** It is this pair, or at worst its record beside bytes of the same length and digest. */
  predicate Restores(hash: Hash, r: Restoration, p: Pair, stuck: bool) {
    && r.record == p.record
    && |r.payload| == |p.payload| && hash(r.payload) == hash(p.payload) && (!stuck ==> r.payload == p.payload)
  }

  /** The kind in a record is always the one its destination and size allow. */
  predicate KindFits(r: Record) {
    TargetKind(r.destination, r.size) == Some(r.kind)
  }

  ghost predicate AllKindsFit(committed: set<Pair>) {
    forall p | p in committed :: KindFits(p.record)
  }

  /** Some commit call of the life was made with this pair at hand, in full. */
  ghost predicate CommittedIn(hash: Hash, calls: seq<Call>, answers: seq<Answer>, p: Pair) {
    |answers| == |calls|
    && exists k :: 0 <= k < |calls| && calls[k].Commit? && IsPairOf(hash, AtHand(calls[..k], answers[..k]), p)
  }

  lemma CommittedMore(hash: Hash, calls: seq<Call>, answers: seq<Answer>, call: Call, answer: Answer, p: Pair)
    requires |calls| == |answers|
    requires CommittedIn(hash, calls, answers, p) || (call.Commit? && IsPairOf(hash, AtHand(calls, answers), p))
    ensures CommittedIn(hash, calls + [call], answers + [answer], p)
  {
    hide AtHand, IsPairOf;
    var more, given := calls + [call], answers + [answer];
    if CommittedIn(hash, calls, answers, p) {
      var k :| 0 <= k < |calls| && calls[k].Commit? && IsPairOf(hash, AtHand(calls[..k], answers[..k]), p);
      hide CommittedIn;
      SamePrefix(calls, call, k);
      SamePrefix(answers, answer, k);
      CommitStands(hash, more, given, p, k);
    } else {
      hide CommittedIn;
      SamePrefix(calls, call, |calls|);
      SamePrefix(answers, answer, |calls|);
      CommitStands(hash, more, given, p, |calls|);
    }
  }

  lemma SamePrefix<T>(s: seq<T>, last: T, k: nat)
    requires k <= |s|
    ensures (s + [last])[..k] == s[..k] && s[..|s|] == s
    ensures k < |s| ==> (s + [last])[k] == s[k]
  {
  }

  lemma CommitStands(hash: Hash, calls: seq<Call>, answers: seq<Answer>, p: Pair, k: nat)
    requires k < |calls| == |answers| && calls[k].Commit? && IsPairOf(hash, AtHand(calls[..k], answers[..k]), p)
    ensures CommittedIn(hash, calls, answers, p)
  {
    hide AtHand, IsPairOf;
  }

  lemma CommittedKindFits(hash: Hash, calls: seq<Call>, answers: seq<Answer>, p: Pair)
    requires CommittedIn(hash, calls, answers, p)
    ensures KindFits(p.record)
  {
    hide TargetKind;
  }

  /** What is restored is what the files hold. */
  predicate Finds(hash: Hash, files: Files, r: Restoration) {
    && Restored(hash, files).Some? && r.record == Restored(hash, files).value.(kind := r.record.kind)
    && TargetKind(r.record.destination, r.record.size) == Some(r.record.kind)
    && StageFile in files && r.payload == files[StageFile]
  }

  /** Nothing has failed on the card since power came on. */
  ghost predicate Fair(card: Card)
    reads card
  {
    card.powered && !card.troubled
  }

  /** A restart is clean when power stays and nothing has failed since it came on. */
  method Restart(service: Service) returns (restored: Option<Restoration>, ghost clean: bool)
    requires service.Valid() && service.card.powered
    requires !service.started && !service.staged && !service.staging && service.part == [] && service.serial == []
    modifies service, service.card
    ensures service.Valid() && !service.staging
    ensures service.card.Grows(old(service.card.committed), old(service.card.stuck), old(service.card.troubled), old(service.card.powered))
    ensures restored.Some? && AllKindsFit(old(service.card.committed)) ==>
              exists p :: p in old(service.card.committed) && Restores(service.card.hash, restored.value, p, service.card.stuck)
    ensures clean <==> Fair(service.card)
    ensures clean ==> (restored.Some? <==> Restored(service.card.hash, old(service.card.files)).Some?)
    ensures restored.Some? ==> Finds(service.card.hash, old(service.card.files), restored.value)
  {
    hide CardSound, CutFrom, TargetKind, Fits, Restored;
    ghost var committed := service.card.committed;
    var answer := service.Start();
    clean := Fair(service.card);
    restored := None;
    if answer != Done || !service.staged || !service.card.powered {
      return;
    }
    ghost var p :| p in service.card.committed && service.FromPair(p);
    restored := Some(Restoration(service.RecordNow(), service.card.files[StageFile]));
    if AllKindsFit(committed) {
      assert p in committed && KindFits(p.record);
      assert Restores(service.card.hash, restored.value, p, service.card.stuck);
    }
  }

  /** From power on until the next loss of power: a restart, then any calls. */
  method Live(card: Card, calls: seq<Call>) returns (restored: Option<Restoration>, ghost answers: seq<Answer>)
    requires card.Sound() && AllWellFormed(calls) && AllKindsFit(card.committed)
    modifies card
    ensures card.Sound() && old(card.committed) <= card.committed && (old(card.stuck) ==> card.stuck)
    ensures |answers| == |calls|
    ensures restored.Some? ==> exists p :: p in old(card.committed) && Restores(card.hash, restored.value, p, card.stuck)
    ensures forall p | p in card.committed - old(card.committed) :: CommittedIn(card.hash, calls, answers, p)
  {
    hide CardSound, CutFrom, TargetKind, Fits, Restored, CommittedIn, AtHand, UploadMoves, IsPairOf, Next;
    card.PowerOn();
    var service := new Service(card);
    ghost var clean;
    restored, clean := Restart(service);
    ghost var stuck := card.stuck;
    ghost var before := card.committed;
    answers := [];
    for index := 0 to |calls|
      invariant service.card == card && service.Valid() && |answers| == index
      invariant before <= card.committed && (stuck ==> card.stuck)
      invariant service.staging ==> Held(service) == AtHand(calls[..index], answers)
      invariant forall p | p in card.committed - before :: CommittedIn(card.hash, calls[..index], answers, p)
    {
      assert calls[..index + 1] == calls[..index] + [calls[index]];
      ghost var already, upload, staging := card.committed, Held(service), service.staging;
      var answer, request := Perform(service, calls[index]);
      forall p | p in card.committed - before
        ensures CommittedIn(card.hash, calls[..index + 1], answers + [answer], p)
      {
        if p in already {
          assert p in already - before;
        } else {
          assert p in card.committed - already;
        }
        CommittedMore(card.hash, calls[..index], answers, calls[index], answer, p);
      }
      UploadKept(calls[..index], answers, calls[index], answer, staging, upload, service.staging, Held(service));
      answers := answers + [answer];
    }
    assert calls[..|calls|] == calls;
    card.Cut();
  }

  lemma UploadKept(calls: seq<Call>, answers: seq<Answer>, call: Call, answer: Answer, wasStaging: bool, was: Upload,
                   staging: bool, now: Upload)
    requires |calls| == |answers| && UploadMoves(call, answer, wasStaging, was, staging, now)
    requires wasStaging ==> was == AtHand(calls, answers)
    ensures staging ==> now == AtHand(calls + [call], answers + [answer])
  {
    AtHandMore(calls, answers, call, answer);
  }

  ghost predicate CommittedBefore(hash: Hash, lives: seq<seq<Call>>, answers: seq<seq<Answer>>, i: nat, p: Pair)
    requires i <= |lives| && i <= |answers|
  {
    exists j :: 0 <= j < i && CommittedIn(hash, lives[j], answers[j], p)
  }

  lemma CommittedBeforeMore(hash: Hash, lives: seq<seq<Call>>, answers: seq<seq<Answer>>, given: seq<Answer>, i: nat, p: Pair)
    requires i <= |answers| < |lives| && CommittedBefore(hash, lives, answers, i, p)
    ensures CommittedBefore(hash, lives, answers + [given], i, p)
    ensures CommittedBefore(hash, lives, answers + [given], |answers| + 1, p)
  {
    hide CommittedIn;
    var j :| 0 <= j < i && CommittedIn(hash, lives[j], answers[j], p);
    assert (answers + [given])[j] == answers[j];
  }

  lemma CommittedBeforeFits(hash: Hash, lives: seq<seq<Call>>, answers: seq<seq<Answer>>, i: nat, p: Pair)
    requires i <= |lives| && i <= |answers| && CommittedBefore(hash, lives, answers, i, p)
    ensures KindFits(p.record)
  {
    hide CommittedIn, KindFits;
    var j :| 0 <= j < i && CommittedIn(hash, lives[j], answers[j], p);
    CommittedKindFits(hash, lives[j], answers[j], p);
  }

  /**
   * From an empty card on, whatever calls are made, wherever power is lost and however often: each restart restores
   * nothing, or exactly what one commit call of an earlier life had at hand: its bytes, whole, under its own name,
   * destination, size, digest and pin.
   */
  method Lives(card: Card, lives: seq<seq<Call>>) returns (restored: seq<Option<Restoration>>, ghost answers: seq<seq<Answer>>)
    requires card.Sound() && card.committed == {}
    requires forall i | 0 <= i < |lives| :: AllWellFormed(lives[i])
    modifies card
    ensures card.Sound() && |restored| == |answers| == |lives|
    ensures forall i | 0 <= i < |lives| && restored[i].Some? ::
              exists p :: CommittedBefore(card.hash, lives, answers, i, p) && Restores(card.hash, restored[i].value, p, card.stuck)
  {
    hide CardSound, CommittedIn, AllWellFormed, CommittedBefore, KindFits;
    restored, answers := [], [];
    for index := 0 to |lives|
      invariant card.Sound() && |restored| == |answers| == index
      invariant forall p | p in card.committed :: CommittedBefore(card.hash, lives, answers, index, p)
      invariant forall i | 0 <= i < index && restored[i].Some? ::
                  exists p :: CommittedBefore(card.hash, lives, answers, i, p) && Restores(card.hash, restored[i].value, p, card.stuck)
    {
      forall p | p in card.committed
        ensures KindFits(p.record)
      {
        CommittedBeforeFits(card.hash, lives, answers, index, p);
      }
      ghost var before := card.committed;
      var one;
      ghost var given;
      one, given := Live(card, lives[index]);
      forall i, p | 0 <= i <= index && CommittedBefore(card.hash, lives, answers, i, p)
        ensures CommittedBefore(card.hash, lives, answers + [given], i, p)
      {
        CommittedBeforeMore(card.hash, lives, answers, given, i, p);
      }
      forall p | p in card.committed
        ensures CommittedBefore(card.hash, lives, answers + [given], index + 1, p)
      {
        if p in before {
          CommittedBeforeMore(card.hash, lives, answers, given, index, p);
        } else {
          assert p in card.committed - before;
          CommittedJustNow(card.hash, lives, answers, given, p);
        }
      }
      restored, answers := restored + [one], answers + [given];
    }
  }

  lemma CommittedJustNow(hash: Hash, lives: seq<seq<Call>>, answers: seq<seq<Answer>>, given: seq<Answer>, p: Pair)
    requires |answers| < |lives| && CommittedIn(hash, lives[|answers|], given, p)
    ensures CommittedBefore(hash, lives, answers + [given], |answers| + 1, p)
  {
    hide CommittedIn;
    assert (answers + [given])[|answers|] == given;
  }

  // ---- A whole upload -----------------------------------------------------------------------

  /**
   * A commit, a loss of power after it and a restart: a pinned payload that was committed is restored, its record and
   * its bytes. Where nothing fails, a commit is accepted exactly when the payload is complete.
   */
  method CommitSurvives(service: Service)
    returns (answer: Answer, ghost lit: bool, ghost fair: bool, ghost was: Restoration, restored: Option<Restoration>,
             ghost clean: bool)
    requires service.Valid()
    modifies service, service.card
    ensures service.card.Sound()
    ensures fair ==> lit && old(Fair(service.card))
    ensures fair ==> (answer == Done <==> old(service.staging) && |old(service.hashed)| == old(service.expectedSize))
    ensures answer == Done ==> IsPairOf(service.card.hash, old(Held(service)), Pair(was.payload, was.record))
    ensures answer == Done && old(service.part) != [] && lit && clean ==> restored == Some(was)
  {
    hide CardSound, TargetKind, Fits, Restored, CutFrom, StagedKept;
    var card := service.card;
    answer := service.StageCommit();
    lit, fair := card.powered, Fair(card);
    was := Restoration(service.RecordNow(), old(service.hashed));
    SoundScratch(card.hash, card.files, card.unsynced, card.committed, card.stuck);
    ghost var files, unsynced := card.files, card.unsynced;
    card.Cut();
    CutKeepsStaged(files, unsynced, card.files);
    KeptRestoresTheSame(card.hash, files, card.files);
    KeptPayload(files, card.files);
    card.PowerOn();
    var again := new Service(card);
    restored, clean := Restart(again);
  }

  /** Pieces that fit what is left of the announced size are all taken. */
  method WriteAll(service: Service, pieces: seq<seq<byte>>) returns (taken: bool)
    requires service.Valid() && forall i | 0 <= i < |pieces| :: pieces[i] != []
    modifies service`staging, service`expectedSize, service`writtenSize, service`hashed, service.card
    ensures service.Valid()
    ensures service.card.Grows(old(service.card.committed), old(service.card.stuck), old(service.card.troubled), old(service.card.powered))
    ensures Fair(service.card) && old(service.staging && |service.hashed| + |Flatten(pieces)| <= service.expectedSize) ==> taken
    ensures taken && old(service.staging) ==>
              && service.staging && service.expectedSize == old(service.expectedSize)
              && service.hashed == old(service.hashed) + Flatten(pieces)
  {
    hide CardSound, TargetKind, Fits, CutFrom, StagedKept;
    taken := true;
    assert pieces[..0] == [];
    for index := 0 to |pieces|
      invariant service.Valid() && taken
      invariant service.card.Grows(old(service.card.committed), old(service.card.stuck), old(service.card.troubled),
                                   old(service.card.powered))
      invariant old(service.staging) ==>
                  && service.staging && service.expectedSize == old(service.expectedSize)
                  && service.hashed == old(service.hashed) + Flatten(pieces[..index])
    {
      assert pieces[..index + 1] == pieces[..index] + [pieces[index]];
      FlattenAppend(pieces[..index], pieces[index]);
      JoinedPieces(pieces, index + 1);
      var answer := service.StageWrite(pieces[index]);
      if answer != Done {
        return false;
      }
    }
    assert pieces[..|pieces|] == pieces;
  }

  /** A new payload may begin, and its names and pin fit their fields. */
  predicate MayBegin(service: Service, name: seq<byte>, destination: seq<byte>, size: u32, part: seq<byte>, serial: seq<byte>)
    reads service
  {
    && service.started && !service.staging && !service.sourceOpen && service.state != UploadRunning
    && TargetKind(destination, size).Some? && BaseName(destination) == Some(name)
    && Fits(name, NAME_CAPACITY) && Fits(destination, DESTINATION_CAPACITY)
    && Fits(part, PART_CAPACITY) && Fits(serial, SERIAL_CAPACITY)
  }

  method PinAndWrite(service: Service, part: seq<byte>, serial: seq<byte>, pieces: seq<seq<byte>>) returns (taken: bool)
    requires service.Valid() && 0 !in part && 0 !in serial && forall i | 0 <= i < |pieces| :: pieces[i] != []
    modifies service`staging, service`expectedSize, service`writtenSize, service`hashed, service`part, service`serial,
             service.card
    ensures service.Valid()
    ensures service.card.Grows(old(service.card.committed), old(service.card.stuck), old(service.card.troubled), old(service.card.powered))
    ensures taken ==> Fits(part, PART_CAPACITY) && Fits(serial, SERIAL_CAPACITY) && old(service.staging)
    ensures taken ==>
              && service.staging && service.part == part != [] && service.serial == serial
              && service.expectedSize == old(service.expectedSize) && service.hashed == old(service.hashed) + Flatten(pieces)
    ensures Fair(service.card) && Fits(part, PART_CAPACITY) && Fits(serial, SERIAL_CAPACITY)
            && old(service.staging && |service.hashed| + |Flatten(pieces)| <= service.expectedSize)
            ==> taken
  {
    hide CardSound, TargetKind, Fits;
    var answer := service.SetTarget(part, serial);
    taken := false;
    if answer == Done {
      taken := WriteAll(service, pieces);
    }
  }

  /** Beginning, the pieces with the pin somewhere among them, and no commit yet. */
  method TakeUpload(service: Service, name: seq<byte>, destination: seq<byte>, size: u32, part: seq<byte>, serial: seq<byte>,
                    pieces: seq<seq<byte>>, pinnedAt: nat) returns (taken: bool)
    requires service.Valid() && 0 !in name && 0 !in destination && 0 !in part && 0 !in serial
    requires pinnedAt <= |pieces| && forall i | 0 <= i < |pieces| :: pieces[i] != []
    modifies service, service.card
    ensures service.Valid()
    ensures service.card.Grows(old(service.card.committed), old(service.card.stuck), old(service.card.troubled), old(service.card.powered))
    ensures taken ==>
              && service.staging && part != [] && Held(service) == Upload(name, destination, size, part, serial, Flatten(pieces))
              && old(MayBegin(service, name, destination, size, part, serial))
    ensures Fair(service.card) && |Flatten(pieces)| <= size && old(MayBegin(service, name, destination, size, part, serial)) ==>
              taken
  {
    hide CardSound, TargetKind, Fits, Restored, StagedKept;
    JoinedPieces(pieces, pinnedAt);
    if TargetKind(destination, size).Some? {
      PermittedSize(destination, size);
    }
    taken := false;
    var answer := service.StageBegin(name, destination, size);
    if answer == Done {
      taken := WriteAll(service, pieces[..pinnedAt]);
    }
    if taken {
      taken := PinAndWrite(service, part, serial, pieces[pinnedAt..]);
    }
  }

  /**
   * From the first call to the next life: an upload that may begin, whose names and pin fit and whose pieces add up to
   * the announced size, is taken whole if nothing fails, and a restart that meets no failure restores it, whole and
   * under its own names and pin, whichever piece the pin was given before.
   */
  method UploadSurvives(service: Service, name: seq<byte>, destination: seq<byte>, size: u32, part: seq<byte>, serial: seq<byte>,
                        pieces: seq<seq<byte>>, pinnedAt: nat)
    returns (taken: bool, ghost fair: bool, restored: Option<Restoration>, ghost clean: bool)
    requires service.Valid() && 0 !in name && 0 !in destination && 0 !in part && 0 !in serial
    requires pinnedAt <= |pieces| && forall i | 0 <= i < |pieces| :: pieces[i] != []
    modifies service, service.card
    ensures service.card.Sound()
    ensures fair ==>
              (taken <==> |Flatten(pieces)| == size && old(MayBegin(service, name, destination, size, part, serial)))
    ensures taken && fair && clean ==>
              && restored.Some?
              && IsPairOf(service.card.hash, Upload(name, destination, size, part, serial, Flatten(pieces)),
                          Pair(restored.value.payload, restored.value.record))
  {
    hide CardSound, TargetKind, Fits, Restored, MayBegin, IsPairOf;
    restored, clean := None, false;
    taken := TakeUpload(service, name, destination, size, part, serial, pieces, pinnedAt);
    fair := Fair(service.card);
    if taken {
      ghost var lit, was;
      var answer;
      answer, lit, fair, was, restored, clean := CommitSurvives(service);
      taken := answer == Done;
    }
  }

  lemma {:induction false} JoinedPieces(pieces: seq<seq<byte>>, n: nat)
    requires n <= |pieces|
    ensures Flatten(pieces[..n]) + Flatten(pieces[n..]) == Flatten(pieces)
    decreases n
  {
    if n == 0 {
      assert pieces[..0] == [] && pieces[0..] == pieces;
    } else {
      JoinedPieces(pieces, n - 1);
      assert pieces[..n] == pieces[..n - 1] + [pieces[n - 1]];
      FlattenAppend(pieces[..n - 1], pieces[n - 1]);
      assert pieces[n - 1..][0] == pieces[n - 1] && pieces[n - 1..][1..] == pieces[n..];
    }
  }

  lemma CutKeepsStaged(before: Files, unsynced: set<File>, after: Files)
    requires CutFrom(before, unsynced, after) && unsynced <= {TempFile, MetaTempFile}
    ensures StagedKept(before, after)
  {
  }

  lemma KeptPayload(before: Files, after: Files)
    requires StagedKept(before, after)
    ensures StageFile in before ==> StageFile in after && after[StageFile] == before[StageFile]
  {
  }
}
