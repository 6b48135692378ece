/** Staging a map for a later write to the device, and finding it again after a restart. */
module MapUpload {
  import opened Bytes
  import opened LedgerText
  import opened StagedMapRecord
  import opened StagingCard

  const MAX_PAYLOAD: nat := 0x100_0000 - 5
  const STARTUP_SCREEN_BYTES: nat := 153600

  // ---- Permitted destinations --------------------------------------------------------

  /** "images/startup_screen.fb" */
  const STARTUP_PATH: seq<byte> :=
    [0x69, 0x6d, 0x61, 0x67, 0x65, 0x73, 0x2f, 0x73, 0x74, 0x61, 0x72, 0x74, 0x75, 0x70, 0x5f, 0x73, 0x63, 0x72, 0x65, 0x65,
     0x6e, 0x2e, 0x66, 0x62]

  /** "maps/" */
  const MAPS_PREFIX: seq<byte> := [0x6d, 0x61, 0x70, 0x73, 0x2f]

  /** ".ptm" */
  const MAP_EXTENSION: seq<byte> := [0x2e, 0x70, 0x74, 0x6d]

  const SLASH: byte := 0x2f
  const BACKSLASH: byte := 0x5c
  const DOT: byte := 0x2e

  function LowerCase(b: byte): byte {
    if 0x41 <= b <= 0x5a then b + 0x20 else b
  }

  predicate SafeFileByte(path: seq<byte>, i: nat)
    requires i < |path|
  {
    path[i] != 0 && path[i] != SLASH && path[i] != BACKSLASH
    && !(path[i] == DOT && i + 1 < |path| && path[i + 1] == DOT)
  }

  /** The upload allow-list: the startup screen at its exact size, or a map file directly under maps. */
  function TargetKind(path: seq<byte>, size: u32): Option<Kind> {
    if path == STARTUP_PATH then if size == STARTUP_SCREEN_BYTES then Some(StartupImageKind) else None
    else if |path| <= |MAPS_PREFIX| + |MAP_EXTENSION| || path[..|MAPS_PREFIX|] != MAPS_PREFIX || size == 0 || size > MAX_PAYLOAD
    then None
    else if exists i | |MAPS_PREFIX| <= i < |path| :: !SafeFileByte(path, i) then None
    else if exists i | 0 <= i < |MAP_EXTENSION| :: LowerCase(path[|path| - |MAP_EXTENSION| + i]) != MAP_EXTENSION[i] then None
    else Some(MapKind)
  }

  /** What follows the last slash. */
  function BaseName(path: seq<byte>): Option<seq<byte>> {
    if path == [] then None
    else if path[|path| - 1] == SLASH then Some([])
    else
      match BaseName(path[..|path| - 1])
      case None => None
      case Some(name) => Some(name + [path[|path| - 1]])
  }

  // ---- The service ---------------------------------------------------------------------

  datatype Answer = Done | BadArgument | BadState | Broken

  datatype UploadState = UploadIdle | UploadRunning | UploadVerified | UploadFailed

  /** Everything a new payload needs, but for the lengths of its names. */
  predicate WouldBegin(name: seq<byte>, destination: seq<byte>, size: u32, started: bool, staging: bool, sourceOpen: bool,
                       state: UploadState)
  {
    started && BaseName(destination) == Some(name) && 0 < size <= MAX_PAYLOAD && TargetKind(destination, size).Some?
    && !staging && !sourceOpen && state != UploadRunning
  }

  /** Restoring with the current allow-list. */
  function Restored(hash: Hash, files: Files): Option<Record> {
    RestoreSpec(hash, TargetKind, files)
  }

  /** The payload and the metadata beside it are as before. */
  predicate StagedKept(before: Files, after: Files) {
    && (MetaFile in after <==> MetaFile in before) && (StageFile in after <==> StageFile in before)
    && (MetaFile in after ==> after[MetaFile] == before[MetaFile])
    && (StageFile in after ==> after[StageFile] == before[StageFile])
  }

  lemma KeptRestoresTheSame(hash: Hash, before: Files, after: Files)
    requires StagedKept(before, after)
    ensures Restored(hash, after) == Restored(hash, before)
  {
    hide Decode, TargetKind;
  }

  lemma FourFiles(files: Files)
    ensures forall f | f in files :: f in {TempFile, StageFile, MetaFile, MetaTempFile}
  {
    forall f | f in files
      ensures f in {TempFile, StageFile, MetaFile, MetaTempFile}
    {
      match f
      case TempFile =>
      case StageFile =>
      case MetaFile =>
      case MetaTempFile =>
    }
  }

  lemma SoundScratch(hash: Hash, files: Files, unsynced: set<File>, committed: set<Pair>, stuck: bool)
    ensures CardSound(hash, files, unsynced, committed, stuck) ==> unsynced <= {TempFile, MetaTempFile}
  {
  }

  class Service {
    const card: Card
    var started: bool
    var consentEnabled: bool
    var autoApplyEnabled: bool
    var staged: bool
    var staging: bool
    var sourceOpen: bool
    var recoveryRequired: bool
    var autoApplyAttempted: bool
    var kind: Kind
    /** The bytes given to the stream and the digest so far. */
    var hashed: seq<byte>
    var expectedSize: u32
    var writtenSize: u32
    var state: UploadState
    var name: seq<byte>
    var destination: seq<byte>
    var part: seq<byte>
    var serial: seq<byte>
    var sha256: Digest
    /** Automatic writes since the last attach. */
    ghost var attempts: nat

    function RecordNow(): Record
      reads this
    {
      Record(kind, expectedSize, sha256, name, destination, part, serial)
    }

    predicate Pinned()
      reads this
    {
      part != []
    }

    ghost predicate WriterSound()
      reads this, card
    {
      staging ==>
        && TempFile in card.files && card.files[TempFile] == hashed
        && |hashed| == writtenSize <= expectedSize && expectedSize != 0
        && TargetKind(destination, expectedSize) == Some(kind)
        && Fits(name, NAME_CAPACITY) && Fits(destination, DESTINATION_CAPACITY)
    }

    /** What would be sent is what lies on the card; an aborted writer leaves the size zero, and then nothing is sent. */
    ghost predicate StagedSound()
      reads this, card
    {
      staged ==>
        && !staging && StageFile in card.files && card.hash(card.files[StageFile]) == sha256
        && (expectedSize != 0 ==> |card.files[StageFile]| == expectedSize)
        && Fits(name, NAME_CAPACITY) && Fits(destination, DESTINATION_CAPACITY)
    }

    ghost predicate PinSound()
      reads this
    {
      if part == [] then serial == [] else Fits(part, PART_CAPACITY) && Fits(serial, SERIAL_CAPACITY)
    }

    ghost predicate LatchSound()
      reads this
    {
      attempts <= 1 && (attempts == 1 ==> autoApplyAttempted)
    }

    /** The card is always sound; memory counts only while there is power. */
    ghost predicate Valid()
      reads this, card
    {
      card.Sound() && LatchSound() && (card.powered ==> WriterSound() && StagedSound() && PinSound())
    }

    constructor (c: Card)
      requires c.Sound()
      ensures card == c && Valid() && !started && !staged && !staging && part == [] && serial == []
    {
      card := c;
      started, consentEnabled, autoApplyEnabled, staged, staging := false, false, false, false, false;
      sourceOpen, recoveryRequired, autoApplyAttempted := false, false, false;
      kind, hashed, expectedSize, writtenSize, state := MapKind, [], 0, 0, UploadIdle;
      name, destination, part, serial, sha256 := [], [], [], [], NO_DIGEST;
      attempts := 0;
    }

    // ---- Files ---------------------------------------------------------------------

    /** Metadata first: a payload without metadata is inert. */
    method RemoveStagedFiles()
      requires card.Sound()
      modifies card
      ensures card.Sound() && card.Grows(old(card.committed), old(card.stuck), old(card.troubled), old(card.powered))
      ensures card.powered && (!card.stuck || !card.troubled) ==>
                MetaFile !in card.files && MetaTempFile !in card.files && StageFile !in card.files
      ensures card.powered ==> forall f | f in card.files :: f in old(card.files) && card.files[f] == old(card.files)[f]
      ensures card.powered && TempFile in old(card.files) ==> TempFile in card.files
      ensures card.unsynced <= old(card.unsynced)
    {
      hide CardSound, CutFrom;
      var ok := card.Unlink(MetaFile);
      ok := card.Unlink(MetaTempFile);
      ok := card.Unlink(StageFile);
    }

    method DiscardStaged()
      requires card.Sound()
      modifies this`staged, this`part, this`serial, card
      ensures card.Sound() && card.Grows(old(card.committed), old(card.stuck), old(card.troubled), old(card.powered))
      ensures !staged && part == [] && serial == []
      ensures card.powered && (!card.stuck || !card.troubled) ==> MetaFile !in card.files && StageFile !in card.files
      ensures card.powered ==> forall f | f in card.files :: f in old(card.files) && card.files[f] == old(card.files)[f]
      ensures card.powered && TempFile in old(card.files) ==> TempFile in card.files
    {
      RemoveStagedFiles();
      staged, part, serial := false, [], [];
    }

    method ResetWriter()
      requires card.Sound()
      modifies this`staging, this`expectedSize, this`writtenSize, card
      ensures card.Sound() && card.Grows(old(card.committed), old(card.stuck), old(card.troubled), old(card.powered))
      ensures !staging && expectedSize == 0 && writtenSize == 0
      ensures card.powered ==> StagedKept(old(card.files), card.files)
    {
      hide CardSound, CutFrom;
      staging, expectedSize, writtenSize := false, 0, 0;
      var ok := card.Unlink(TempFile);
    }

    /** Written beside the old metadata, synced, and only then put in its place. */
    method WriteMetadata() returns (ok: bool)
      requires card.Sound()
      requires card.powered ==> StageFile in card.files && Pair(card.files[StageFile], RecordNow()) in card.committed
      modifies card
      ensures card.Sound() && card.Grows(old(card.committed), old(card.stuck), old(card.troubled), old(card.powered))
      ensures card.powered ==> StageFile in card.files && card.files[StageFile] == old(card.files)[StageFile]
      ensures ok ==> card.powered && MetaFile in card.files && Describes(card.files[MetaFile], RecordNow())
      ensures card.powered && !card.troubled && Encodable(RecordNow()) ==> ok
    {
      if !Encodable(RecordNow()) {
        return false;
      }
      hide CardSound, CutFrom, Encodable, Encode;
      var encoded := Encode(RecordNow());
      ok := DraftMetadata(encoded);
      if ok {
        var replaced := card.Unlink(MetaFile);
        ok := Publish(encoded);
      }
    }

    /** The temporary metadata file, complete and on the card. */
    method DraftMetadata(encoded: seq<byte>) returns (ok: bool)
      requires card.Sound()
      modifies card
      ensures card.Sound() && card.Grows(old(card.committed), old(card.stuck), old(card.troubled), old(card.powered))
      ensures card.powered ==> StagedKept(old(card.files), card.files)
      ensures ok ==> card.powered && MetaTempFile in card.files && card.files[MetaTempFile] == encoded
                     && MetaTempFile !in card.unsynced
      ensures card.powered && !card.troubled ==> ok
    {
      hide CardSound;
      var created;
      created, ok := FillDraft(encoded);
      if ok {
        SoundScratch(card.hash, card.files, card.unsynced, card.committed, card.stuck);
        ok := card.Sync(MetaTempFile);
      }
      if created && !ok {
        SoundScratch(card.hash, card.files, card.unsynced, card.committed, card.stuck);
        var removed := card.Unlink(MetaTempFile);
      }
    }

    method FillDraft(encoded: seq<byte>) returns (created: bool, ok: bool)
      requires card.Sound()
      modifies card
      ensures card.Sound() && card.Grows(old(card.committed), old(card.stuck), old(card.troubled), old(card.powered))
      ensures card.powered ==> StagedKept(old(card.files), card.files)
      ensures ok ==> created && card.powered && MetaTempFile in card.files && card.files[MetaTempFile] == encoded
      ensures card.powered && !card.troubled ==> ok
    {
      hide CardSound;
      SoundScratch(card.hash, card.files, card.unsynced, card.committed, card.stuck);
      created := card.Create(MetaTempFile);
      ok := false;
      if created {
        ok := card.Append(MetaTempFile, encoded);
        assert ok ==> card.files[MetaTempFile] == [] + encoded == encoded;
      }
    }

    method Publish(encoded: seq<byte>) returns (ok: bool)
      requires card.Sound() && Describes(encoded, RecordNow())
      requires card.powered ==>
                 && StageFile in card.files && Pair(card.files[StageFile], RecordNow()) in card.committed
                 && MetaTempFile in card.files && card.files[MetaTempFile] == encoded && MetaTempFile !in card.unsynced
      modifies card
      ensures card.Sound() && card.Grows(old(card.committed), old(card.stuck), old(card.troubled), old(card.powered))
      ensures card.powered ==> StageFile in card.files && card.files[StageFile] == old(card.files)[StageFile]
      ensures ok ==> card.powered && MetaFile in card.files && Describes(card.files[MetaFile], RecordNow())
      ensures card.powered && !card.troubled && MetaFile !in old(card.files) ==> ok
    {
      hide Encodable, Encode, PairConsistent;
      ghost var pair := if card.powered then Pair(card.files[StageFile], RecordNow()) else Pair([], RecordNow());
      ok := card.Rename(MetaTempFile, MetaFile);
      if !ok {
        var removed := card.Unlink(MetaTempFile);
        return;
      }
      assert pair in card.committed && pair.payload == card.files[StageFile] && Describes(card.files[MetaFile], pair.record);
    }

    // ---- Staging -------------------------------------------------------------------

    method StageBegin(newName: seq<byte>, newDestination: seq<byte>, size: u32) returns (answer: Answer)
      requires Valid() && 0 !in newName && 0 !in newDestination
      modifies this, card
      ensures Valid() && card.Grows(old(card.committed), old(card.stuck), old(card.troubled), old(card.powered))
      ensures card.powered ==> StagedKept(old(card.files), card.files)
      ensures answer == Done ==>
                && started && staging && !staged && !Pinned() && serial == [] && hashed == [] && writtenSize == 0 && expectedSize == size
                && name == newName && destination == newDestination && TargetKind(newDestination, size) == Some(kind)
                && BaseName(newDestination) == Some(newName)
      ensures answer == BadState ==> old(staging) || old(sourceOpen) || old(state) == UploadRunning
      ensures old(staging) || old(sourceOpen) || old(state) == UploadRunning ==>
                answer in {BadArgument, BadState} && unchanged(this, card)
      ensures !started || size == 0 || BaseName(newDestination) != Some(newName) || TargetKind(newDestination, size) == None ==>
                answer == BadArgument && unchanged(this, card)
      ensures autoApplyAttempted == old(autoApplyAttempted) && attempts == old(attempts)
      ensures !old(WouldBegin(newName, newDestination, size, started, staging, sourceOpen, state)) ==>
                answer in {BadArgument, BadState} && unchanged(this, card)
      ensures old(WouldBegin(newName, newDestination, size, started, staging, sourceOpen, state)) ==>
                && answer != BadState
                && (answer == BadArgument <==> !Fits(newName, NAME_CAPACITY) || !Fits(newDestination, DESTINATION_CAPACITY))
                && name == (if Fits(newName, NAME_CAPACITY) then newName else old(name))
                && destination == (if answer == BadArgument then old(destination) else newDestination)
                && (answer != Done ==> SizeLost(old(RecordNow()), old(staged), old(state)))
                && (card.powered && !card.troubled && answer != BadArgument ==> answer == Done)
    {
      hide CardSound, TargetKind, BaseName, Fits, CutFrom;
      if !started || BaseName(newDestination) != Some(newName) || size == 0 || size > MAX_PAYLOAD
         || TargetKind(newDestination, size) == None {
        return BadArgument;
      }
      if staging || sourceOpen || state == UploadRunning {
        return BadState;
      }
      answer := BeginAnew(newName, newDestination, size);
    }

    /** From here on the announced size of what was staged is gone. */
    method BeginAnew(newName: seq<byte>, newDestination: seq<byte>, size: u32) returns (answer: Answer)
      requires Valid() && size != 0 && !staging && TargetKind(newDestination, size).Some?
      modifies this`name, this`destination, this`staging, this`staged, this`part, this`serial, this`hashed, this`expectedSize,
               this`writtenSize, this`kind, this`state, card
      ensures Valid() && card.Grows(old(card.committed), old(card.stuck), old(card.troubled), old(card.powered))
      ensures card.powered ==> StagedKept(old(card.files), card.files)
      ensures answer in {Done, BadArgument, Broken}
      ensures answer == BadArgument <==> !Fits(newName, NAME_CAPACITY) || !Fits(newDestination, DESTINATION_CAPACITY)
      ensures name == (if Fits(newName, NAME_CAPACITY) then newName else old(name))
      ensures destination == (if answer == BadArgument then old(destination) else newDestination)
      ensures answer == Done ==>
                && staging && !staged && !Pinned() && serial == [] && hashed == [] && writtenSize == 0 && expectedSize == size
                && TargetKind(newDestination, size) == Some(kind)
      ensures card.powered && !card.troubled && answer != BadArgument ==> answer == Done
      ensures answer != Done ==> SizeLost(old(RecordNow()), old(staged), old(state))
    {
      hide CardSound, TargetKind, Fits, CutFrom;
      ResetWriter();
      var kept := KeepNames(newName, newDestination);
      if !kept {
        return BadArgument;
      }
      answer := OpenWriter(size, TargetKind(newDestination, size).value);
    }

    method KeepNames(newName: seq<byte>, newDestination: seq<byte>) returns (kept: bool)
      modifies this`name, this`destination
      ensures kept <==> Fits(newName, NAME_CAPACITY) && Fits(newDestination, DESTINATION_CAPACITY)
      ensures name == if Fits(newName, NAME_CAPACITY) then newName else old(name)
      ensures destination == if kept then newDestination else old(destination)
    {
      hide Fits;
      if !Fits(newName, NAME_CAPACITY) {
        return false;
      }
      name := newName;
      if !Fits(newDestination, DESTINATION_CAPACITY) {
        return false;
      }
      destination := newDestination;
      return true;
    }

    /** What was staged is staged still, with its digest and its pin, but its announced size is gone. */
    predicate SizeLost(was: Record, wasStaged: bool, wasState: UploadState)
      reads this
    {
      && expectedSize == 0 && !staging && staged == wasStaged && state == wasState
      && kind == was.kind && sha256 == was.sha256 && part == was.partNumber && serial == was.serial
    }

    /** The second half of beginning: a fresh stream and digest, and an unpinned payload. */
    method OpenWriter(size: u32, newKind: Kind) returns (answer: Answer)
      requires Valid() && !staging && size != 0
      requires TargetKind(destination, size) == Some(newKind)
      requires Fits(name, NAME_CAPACITY) && Fits(destination, DESTINATION_CAPACITY)
      modifies this`staging, this`staged, this`part, this`serial, this`hashed, this`expectedSize, this`writtenSize,
               this`kind, this`state, card
      ensures Valid() && card.Grows(old(card.committed), old(card.stuck), old(card.troubled), old(card.powered))
      ensures card.powered ==> StagedKept(old(card.files), card.files)
      ensures answer in {Done, Broken}
      ensures answer == Done ==>
                && staging && !staged && !Pinned() && serial == [] && hashed == [] && writtenSize == 0 && expectedSize == size
                && kind == newKind
      ensures card.powered && !card.troubled ==> answer == Done
      ensures answer == Broken ==> SizeLost(old(RecordNow()), old(staged), old(state))
    {
      hide CardSound, TargetKind, Fits, CutFrom;
      var ready := card.Create(TempFile);
      if ready {
        ready := card.Attempt();
      }
      if !ready {
        ResetWriter();
        return Broken;
      }
      StartWriting(size, newKind);
      return Done;
    }

    method StartWriting(size: u32, newKind: Kind)
      requires card.Sound() && LatchSound() && size != 0
      requires card.powered ==> TempFile in card.files && card.files[TempFile] == []
      requires TargetKind(destination, size) == Some(newKind)
      requires Fits(name, NAME_CAPACITY) && Fits(destination, DESTINATION_CAPACITY)
      modifies this`staging, this`staged, this`part, this`serial, this`hashed, this`expectedSize, this`writtenSize,
               this`kind, this`state
      ensures Valid() && staging && !staged && !Pinned() && serial == [] && hashed == [] && writtenSize == 0
      ensures expectedSize == size && kind == newKind
    {
      hide CardSound, TargetKind, Fits;
      ClearPin();
      SetWriter(size, newKind);
    }

    /** A new payload starts unpinned. */
    method ClearPin()
      modifies this`part, this`serial
      ensures PinSound() && !Pinned() && serial == []
    {
      part, serial := [], [];
    }

    method SetWriter(size: u32, newKind: Kind)
      modifies this`staging, this`staged, this`hashed, this`expectedSize, this`writtenSize, this`kind, this`state
      ensures staging && !staged && hashed == [] && expectedSize == size && writtenSize == 0 && kind == newKind
    {
      staging, staged := true, false;
      hashed, expectedSize, writtenSize, kind, state := [], size, 0, newKind, UploadIdle;
    }

    method SetTarget(partNumber: seq<byte>, serialNumber: seq<byte>) returns (answer: Answer)
      requires Valid() && 0 !in partNumber && 0 !in serialNumber
      modifies this`part, this`serial
      ensures Valid()
      ensures answer in {Done, BadArgument, BadState} && (answer == BadState <==> !staging)
      ensures answer == Done <==> staging && Fits(partNumber, PART_CAPACITY) && Fits(serialNumber, SERIAL_CAPACITY)
      ensures answer == Done ==> part == partNumber && serial == serialNumber && Pinned()
      ensures answer == BadArgument ==> part == [] && serial == []
      ensures answer == BadState ==> part == old(part) && serial == old(serial)
    {
      hide CardSound, TargetKind;
      if !staging {
        return BadState;
      }
      if !Fits(partNumber, PART_CAPACITY) || !Fits(serialNumber, SERIAL_CAPACITY) {
        part, serial := [], [];
        return BadArgument;
      }
      part, serial := partNumber, serialNumber;
      return Done;
    }

    method StageWrite(data: seq<byte>) returns (answer: Answer)
      requires Valid()
      modifies this`staging, this`expectedSize, this`writtenSize, this`hashed, card
      ensures Valid() && card.Grows(old(card.committed), old(card.stuck), old(card.troubled), old(card.powered))
      ensures card.powered ==> StagedKept(old(card.files), card.files)
      ensures answer == Done ==>
                && old(staging) && staging && hashed == old(hashed) + data && writtenSize == old(writtenSize) + |data|
                && expectedSize == old(expectedSize)
      ensures old(staging) && 0 < |data| <= old(expectedSize) - old(writtenSize) && card.powered && !card.troubled ==> answer == Done
      ensures answer == Broken ==> !staging
      ensures old(staging) && data != [] && |data| > old(expectedSize) - old(writtenSize) ==> answer == Broken
      ensures answer in {Done, BadArgument, Broken} && (answer == BadArgument <==> data == [])
      ensures answer == Broken ==> expectedSize == 0
      ensures answer == BadArgument ==> unchanged(this, card)
    {
      hide CardSound, TargetKind, Fits, CutFrom;
      if data == [] {
        return BadArgument;
      }
      if !staging || |data| > expectedSize - writtenSize {
        ResetWriter();
        return Broken;
      }
      answer := AppendData(data);
    }

    /** The data goes to the file and to the digest, or the writer is given up. */
    method AppendData(data: seq<byte>) returns (answer: Answer)
      requires Valid() && staging && data != [] && |data| <= expectedSize - writtenSize
      modifies this`staging, this`expectedSize, this`writtenSize, this`hashed, card
      ensures Valid() && card.Grows(old(card.committed), old(card.stuck), old(card.troubled), old(card.powered))
      ensures card.powered ==> StagedKept(old(card.files), card.files)
      ensures answer in {Done, Broken}
      ensures answer == Done ==>
                staging && hashed == old(hashed) + data && writtenSize == old(writtenSize) + |data| && expectedSize == old(expectedSize)
      ensures card.powered && !card.troubled ==> answer == Done
      ensures answer == Broken ==> !staging && expectedSize == 0
    {
      hide CardSound, TargetKind, Fits;
      var taken := AppendTemp(data);
      if taken {
        taken := card.Attempt();
      }
      if !taken {
        ResetWriter();
        return Broken;
      }
      hashed := hashed + data;
      writtenSize := writtenSize + |data|;
      return Done;
    }

    method AppendTemp(data: seq<byte>) returns (stored: bool)
      requires card.Sound()
      modifies card
      ensures card.Sound() && card.Grows(old(card.committed), old(card.stuck), old(card.troubled), old(card.powered))
      ensures card.powered ==> StagedKept(old(card.files), card.files)
      ensures stored ==> card.powered && TempFile in old(card.files) && TempFile in card.files
                         && card.files[TempFile] == old(card.files)[TempFile] + data
      ensures card.powered && !card.troubled && TempFile in old(card.files) ==> stored
    {
      hide CardSound;
      SoundScratch(card.hash, card.files, card.unsynced, card.committed, card.stuck);
      stored := card.Append(TempFile, data);
      AppendKeeps();
    }

    twostate lemma AppendKeeps()
      requires old(card.unsynced) <= {TempFile, MetaTempFile}
      requires card.files.Keys == old(card.files).Keys
      requires forall g | g in card.files && g != TempFile && g !in old(card.unsynced) :: card.files[g] == old(card.files)[g]
      ensures StagedKept(old(card.files), card.files)
    {
    }

    method StageAbort()
      requires Valid()
      modifies this`staging, this`expectedSize, this`writtenSize, card
      ensures Valid() && !staging && card.Grows(old(card.committed), old(card.stuck), old(card.troubled), old(card.powered))
      ensures card.powered ==> StagedKept(old(card.files), card.files)
      ensures SizeLost(old(RecordNow()), old(staged), old(state))
    {
      hide CardSound, TargetKind, Fits;
      ResetWriter();
    }

    // ---- Committing ----------------------------------------------------------------

    /** Everything written, flushed to the card, and hashed. */
    method FinishPayload() returns (valid: bool)
      requires Valid()
      modifies this`staging, this`sha256, card
      ensures card.Sound() && LatchSound() && card.Grows(old(card.committed), old(card.stuck), old(card.troubled), old(card.powered))
      ensures card.powered ==> StagedKept(old(card.files), card.files) && PinSound()
      ensures !staging
      ensures card.powered && !card.troubled ==> (valid <==> old(staging) && writtenSize == expectedSize)
      ensures valid ==>
                && old(staging) && card.powered && TempFile in card.files && card.files[TempFile] == hashed
                && TempFile !in card.unsynced && |hashed| == expectedSize && expectedSize != 0
                && sha256 == card.hash(hashed) && TargetKind(destination, expectedSize) == Some(kind)
                && Fits(name, NAME_CAPACITY) && Fits(destination, DESTINATION_CAPACITY)
    {
      hide CardSound, TargetKind, Fits;
      SoundScratch(card.hash, card.files, card.unsynced, card.committed, card.stuck);
      valid := staging && writtenSize == expectedSize;
      if valid {
        valid := card.Sync(TempFile);
      }
      if valid {
        valid := card.Attempt();
      }
      if valid {
        sha256 := card.hash(hashed);
      }
      staging := false;
    }

    /** Drops the previous payload and its metadata, then moves the new payload into place. */
    method ReplacePayload(ghost payload: seq<byte>) returns (ok: bool)
      requires card.Sound() && TempFile !in card.unsynced
      requires card.powered ==> TempFile in card.files && card.files[TempFile] == payload
      modifies card
      ensures card.Sound() && card.Grows(old(card.committed), old(card.stuck), old(card.troubled), old(card.powered))
      ensures ok ==> card.powered && StageFile in card.files && card.files[StageFile] == payload
      ensures ok ==> card.stuck || MetaFile !in card.files
      ensures card.powered && !card.troubled ==> ok
    {
      hide CardSound, CutFrom;
      RemoveStagedFiles();
      ghost var before, unsynced := card.files, card.unsynced;
      ok := card.Rename(TempFile, StageFile);
      if ok {
        MovedKeepsSound(card.hash, before, unsynced, card.files, card.committed, card.stuck);
      }
    }

    method StageCommit() returns (answer: Answer)
      requires Valid()
      modifies this`staging, this`staged, this`sha256, this`part, this`serial, card
      ensures Valid() && !staging
      ensures old(card.committed) <= card.committed
      ensures forall p | p in card.committed - old(card.committed) ::
                old(staging) && p.payload == old(hashed)
                && p.record == Record(kind, expectedSize, card.hash(old(hashed)), name, destination, old(part), old(serial))
                && TargetKind(destination, expectedSize) == Some(kind)
      ensures (old(card.stuck) ==> card.stuck) && (card.powered ==> old(card.powered))
      ensures old(card.troubled) ==> card.troubled
      ensures answer in {Done, Broken}
      ensures card.powered && !card.troubled ==> (answer == Done <==> old(staging) && old(writtenSize) == expectedSize)
      ensures answer == Broken ==> !staged
      ensures answer == Done ==>
                && staged && old(staging) && |old(hashed)| == expectedSize && sha256 == card.hash(old(hashed))
                && TargetKind(destination, expectedSize) == Some(kind)
                && part == old(part) && serial == old(serial)
      ensures answer == Done && card.powered ==> StageFile in card.files && card.files[StageFile] == old(hashed)
      ensures answer == Done && card.powered && Pinned() ==> Restored(card.hash, card.files) == Some(RecordNow())
      ensures answer == Done && card.powered && !Pinned() && !card.stuck ==> Restored(card.hash, card.files) == None
    {
      hide CardSound, CutFrom, TargetKind, Decode, Encode, Encodable, RestoreSpec;
      ghost var payload := hashed;
      var installed := InstallPayload();
      if !installed {
        return Broken;
      }
      if serial != [] {
        var recorded := PersistPin(payload);
        if !recorded {
          DiscardStaged();
          return Broken;
        }
      } else {
        UnpinnedRestoresNothing(card.hash, card.files);
      }
      staged := true;
      return Done;
    }

    method InstallPayload() returns (ok: bool)
      requires Valid()
      modifies this`staging, this`staged, this`sha256, this`part, this`serial, card
      ensures card.Sound() && LatchSound() && !staging
      ensures card.Grows(old(card.committed), old(card.stuck), old(card.troubled), old(card.powered))
      ensures card.powered ==> PinSound()
      ensures card.powered && !card.troubled ==> (ok <==> old(staging) && writtenSize == expectedSize)
      ensures !ok ==> !staged && Valid()
      ensures ok ==>
                && old(staging) && card.powered && StageFile in card.files && card.files[StageFile] == hashed
                && |hashed| == expectedSize != 0 && sha256 == card.hash(hashed) && TargetKind(destination, expectedSize) == Some(kind)
                && Fits(name, NAME_CAPACITY) && Fits(destination, DESTINATION_CAPACITY)
                && part == old(part) && serial == old(serial) && (card.stuck || MetaFile !in card.files)
    {
      hide CardSound, CutFrom, TargetKind, Fits;
      ok := FinishPayload();
      if ok {
        ok := ReplacePayload(hashed);
      }
      if !ok {
        var removed := card.Unlink(TempFile);
        DiscardStaged();
      }
    }

    /** Metadata is written only for a pinned payload. */
    method PersistPin(ghost payload: seq<byte>) returns (ok: bool)
      requires card.Sound() && serial != [] && PinSound()
      requires card.powered ==> StageFile in card.files && card.files[StageFile] == payload
      requires |payload| == expectedSize != 0 && sha256 == card.hash(payload)
      requires TargetKind(destination, expectedSize) == Some(kind)
      requires Fits(name, NAME_CAPACITY) && Fits(destination, DESTINATION_CAPACITY)
      modifies card
      ensures card.Sound()
      ensures card.committed == old(card.committed) + {Pair(payload, RecordNow())}
      ensures (old(card.stuck) ==> card.stuck) && (card.powered ==> old(card.powered))
      ensures (old(card.troubled) ==> card.troubled) && (card.powered && !card.troubled ==> ok)
      ensures card.powered ==> StageFile in card.files && card.files[StageFile] == payload
      ensures ok ==> card.powered && Restored(card.hash, card.files) == Some(RecordNow())
    {
      ghost var pair := Pair(payload, RecordNow());
      assert PairConsistent(card.hash, pair);
      hide Decode, Encode, Encodable, TargetKind, Fits, Describes;
      CommitKeepsSound(card.hash, card.files, card.unsynced, card.committed, card.stuck, pair);
      card.committed := card.committed + {pair};
      ok := WriteMetadata();
      if ok {
        DecodeDescribed(card.files[MetaFile], RecordNow());
      }
    }

    // ---- Discarding, and starting again ------------------------------------------------

    method Discard() returns (answer: Answer)
      requires Valid()
      modifies this`staged, this`part, this`serial, this`name, this`destination, this`expectedSize, this`state, card
      ensures Valid() && card.Grows(old(card.committed), old(card.stuck), old(card.troubled), old(card.powered))
      ensures answer == Done <==> started && !staging && old(state) != UploadRunning
      ensures answer == Done ==> !staged && !Pinned() && expectedSize == 0
      ensures answer == Done && card.powered && (!card.stuck || !card.troubled) ==> Restored(card.hash, card.files) == None
      ensures answer != Done ==> unchanged(this, card)
    {
      hide CardSound, CutFrom, TargetKind, Fits, RestoreSpec;
      if !started || staging || state == UploadRunning {
        return BadState;
      }
      DiscardStaged();
      name, destination, expectedSize, state := [], [], 0, UploadIdle;
      UnpinnedRestoresNothing(card.hash, card.files);
      return Done;
    }

    /** Whether the payload on the card has the recorded size and digest; a reading error counts as no. */
    method PayloadMatches(r: Record) returns (matches: bool)
      requires card.Sound()
      modifies card
      ensures card.Sound() && card.Grows(old(card.committed), old(card.stuck), old(card.troubled), old(card.powered))
      ensures card.powered ==> card.files == old(card.files)
      ensures matches ==> card.powered && StageFile in card.files
                          && |card.files[StageFile]| == r.size && card.hash(card.files[StageFile]) == r.sha256
      ensures card.powered && !matches && !card.troubled ==>
                StageFile !in card.files || |card.files[StageFile]| != r.size || card.hash(card.files[StageFile]) != r.sha256
    {
      hide CardSound, CutFrom;
      var content := card.Read(StageFile);
      if content.Some? {
        var digested := card.Attempt();
        if !digested {
          return false;
        }
      }
      return content.Some? && |content.value| == r.size && card.hash(content.value) == r.sha256;
    }

    /** Reads and checks what was left on the card, changing nothing. */
    method VerifyStaged() returns (found: bool, r: Option<Record>)
      requires card.Sound()
      modifies card
      ensures card.Sound() && card.Grows(old(card.committed), old(card.stuck), old(card.troubled), old(card.powered))
      ensures card.powered ==> card.files == old(card.files)
      ensures r.Some? ==> found && card.powered && Restored(card.hash, card.files) == r
      ensures card.powered && !card.troubled && r == None ==> Restored(card.hash, card.files) == None
      ensures card.powered && !card.troubled && !found ==> MetaFile !in card.files
    {
      hide CardSound, CutFrom, TargetKind, Decode;
      var meta := card.Read(MetaFile);
      if meta == None {
        return false, None;
      }
      var decoded := Decode(meta.value);
      if decoded.Rejected? || TargetKind(decoded.record.destination, decoded.record.size) == None {
        return true, None;
      }
      var matches := PayloadMatches(decoded.record);
      return true, if matches then Some(decoded.record) else None;
    }

    /** Anything that cannot be verified is discarded rather than carried forward. */
    method RestoreStaged()
      requires card.Sound() && !staged && !staging && part == [] && serial == []
      modifies this`kind, this`expectedSize, this`sha256, this`name, this`destination, this`part, this`serial, this`staged, card
      ensures card.Sound() && card.Grows(old(card.committed), old(card.stuck), old(card.troubled), old(card.powered))
      ensures card.powered ==> StagedSound() && PinSound()
      ensures staged ==> card.powered && card.files == old(card.files) && Pinned()
                         && Restored(card.hash, card.files).Some?
                         && RecordNow() == Restored(card.hash, card.files).value.(kind := kind)
                         && TargetKind(destination, expectedSize) == Some(kind)
      ensures card.powered && !card.troubled ==> (staged <==> Restored(card.hash, old(card.files)).Some?)
      ensures card.powered && !card.troubled && !staged ==> StageFile !in card.files && MetaFile !in card.files
      ensures card.powered ==> card.files.Keys <= old(card.files).Keys
    {
      hide CardSound, CutFrom, TargetKind, Decode, RestoreSpec;
      var found, r := VerifyStaged();
      if !found {
        var removed := card.Unlink(StageFile);
      } else if r == None {
        DiscardStaged();
      } else {
        RestoredIsWhole(card.hash, card.files);
        AdoptRecord(r.value, TargetKind(r.value.destination, r.value.size).value);
      }
    }

    method AdoptRecord(r: Record, k: Kind)
      requires Encodable(r)
      modifies this`kind, this`expectedSize, this`sha256, this`name, this`destination, this`part, this`serial, this`staged
      ensures RecordNow() == r.(kind := k) && staged && PinSound()
    {
      kind, expectedSize, sha256 := k, r.size, r.sha256;
      name, destination, part, serial := r.name, r.destination, r.partNumber, r.serial;
      staged := true;
    }

    /** A partial upload is never resumable. */
    method ClearScratch()
      requires card.Sound()
      modifies card
      ensures card.Sound() && card.Grows(old(card.committed), old(card.stuck), old(card.troubled), old(card.powered))
      ensures card.powered ==> StagedKept(old(card.files), card.files)
      ensures card.powered ==> Restored(card.hash, card.files) == Restored(card.hash, old(card.files))
      ensures card.powered && !card.troubled ==> TempFile !in card.files && MetaTempFile !in card.files
    {
      hide CardSound, CutFrom, RestoreSpec;
      ghost var before := card.files;
      var removed := card.Unlink(TempFile);
      removed := card.Unlink(MetaTempFile);
      if card.powered {
        KeptRestoresTheSame(card.hash, before, card.files);
      }
    }

    /** Consent and the permission to write by itself never outlive a restart. */
    method Reset()
      modifies this`started, this`consentEnabled, this`autoApplyEnabled, this`autoApplyAttempted, this`attempts, this`state
      ensures started && !consentEnabled && !autoApplyEnabled && !autoApplyAttempted && attempts == 0 && state == UploadIdle
    {
      started, consentEnabled, autoApplyEnabled, autoApplyAttempted := true, false, false, false;
      attempts := 0;
      state := UploadIdle;
    }

    /** Only what is staged again is left. */
    method Recover()
      requires card.Sound() && !staged && !staging && part == [] && serial == []
      modifies this`kind, this`expectedSize, this`sha256, this`name, this`destination, this`part, this`serial, this`staged, card
      ensures card.Sound() && card.Grows(old(card.committed), old(card.stuck), old(card.troubled), old(card.powered))
      ensures card.powered ==> StagedSound() && PinSound()
      ensures staged ==> card.powered && StagedKept(old(card.files), card.files) && Restored(card.hash, card.files).Some?
                         && Restored(card.hash, card.files) == Restored(card.hash, old(card.files))
                         && RecordNow() == Restored(card.hash, card.files).value.(kind := kind)
                         && TargetKind(destination, expectedSize) == Some(kind)
      ensures card.powered && !card.troubled ==>
                && (staged <==> Restored(card.hash, old(card.files)).Some?)
                && card.files.Keys <= if staged then {StageFile, MetaFile} else {}
    {
      hide CardSound, CutFrom, TargetKind, RestoreSpec, Fits, Restored;
      ClearScratch();
      RestoreStaged();
      FourFiles(card.files);
    }

    /** The first call after a restart, over whatever the card holds. */
    method Start() returns (answer: Answer)
      requires Valid() && (!started ==> !staged && !staging && part == [] && serial == [])
      modifies this, card
      ensures Valid() && card.Grows(old(card.committed), old(card.stuck), old(card.troubled), old(card.powered))
      ensures answer == Done ==> !old(started) && started && !consentEnabled && !autoApplyEnabled && !autoApplyAttempted
      ensures answer == Done && staged && card.powered ==>
                && (exists p :: p in card.committed && FromPair(p)) && StagedKept(old(card.files), card.files)
                && Restored(card.hash, old(card.files)).Some?
                && RecordNow() == Restored(card.hash, old(card.files)).value.(kind := kind)
                && TargetKind(destination, expectedSize) == Some(kind)
      ensures answer in {Done, BadState, Broken} && staging == old(staging)
      ensures card.powered && !card.troubled && !old(started) ==>
                && answer == Done && (staged <==> Restored(card.hash, old(card.files)).Some?)
                && card.files.Keys <= if staged then {StageFile, MetaFile} else {}
      ensures old(started) ==> answer == BadState && staged == old(staged) && card.files == old(card.files)
    {
      hide CardSound, CutFrom, TargetKind, RestoreSpec, Fits, Restored;
      if started {
        return BadState;
      }
      var directory := card.Attempt();
      if !directory {
        return Broken;
      }
      Reset();
      Recover();
      if staged && card.powered {
        StagedFromPair();
      }
      return Done;
    }

    lemma StagedFromPair()
      requires card.Sound() && Restored(card.hash, card.files).Some?
      requires RecordNow() == Restored(card.hash, card.files).value.(kind := kind)
      ensures exists p :: p in card.committed && FromPair(p)
    {
      RestoredIsWhole(card.hash, card.files);
      hide CardSound, TargetKind, RestoreSpec, Encodable;
      var p := RestoreNeverMixes(card.hash, TargetKind, card.files, card.unsynced, card.committed, card.stuck);
      assert p in card.committed && FromPair(p);
    }

    /** What is staged is the given committed payload under its own pin, or at worst one with the same length and digest. */
    ghost predicate FromPair(p: Pair)
      reads this, card
    {
      && RecordNow() == p.record.(kind := kind)
      && StageFile in card.files && |card.files[StageFile]| == |p.payload|
      && card.hash(card.files[StageFile]) == card.hash(p.payload)
      && (!card.stuck ==> card.files[StageFile] == p.payload)
    }

    // ---- Writing to the device -----------------------------------------------------------

    method SetConsent(enabled: bool) returns (answer: Answer)
      requires Valid()
      modifies this`consentEnabled
      ensures Valid()
      ensures answer == Done <==> started && state != UploadRunning
      ensures consentEnabled == if answer == Done then enabled else old(consentEnabled)
    {
      if !started || state == UploadRunning {
        return BadState;
      }
      consentEnabled := enabled;
      return Done;
    }

    method SetAutoApply(enabled: bool) returns (answer: Answer)
      requires Valid()
      modifies this`autoApplyEnabled
      ensures Valid()
      ensures answer == Done <==> started
      ensures autoApplyEnabled == if started then enabled else old(autoApplyEnabled)
    {
      if !started {
        return BadState;
      }
      autoApplyEnabled := enabled;
      return Done;
    }

    /** Only an attach clears the latch. */
    method NotifyAttach()
      requires Valid()
      modifies this`autoApplyAttempted, this`attempts
      ensures Valid() && (started ==> !autoApplyAttempted && attempts == 0)
    {
      if !started {
        return;
      }
      autoApplyAttempted := false;
      attempts := 0;
    }

    /** A request that the transport permits announces exactly the payload on the card; one whose size was lost is not permitted. */
    ghost predicate Carries(request: UploadRequest)
      reads this, card
    {
      card.powered && TargetKind(request.path, request.size).Some? ==>
        && StageFile in card.files && |card.files[StageFile]| == request.size
        && card.hash(card.files[StageFile]) == request.sha256
    }

    /** Hands the staged payload to the transport, which may refuse it. */
    method RequestUpload(idPart: seq<byte>, idSerial: seq<byte>, usbRecovery: bool, accepted: bool)
      returns (answer: Answer, request: Option<UploadRequest>)
      requires Valid()
      modifies this`state
      ensures Valid()
      ensures request.Some? ==>
                && started && consentEnabled && staged && !usbRecovery && old(state) != UploadRunning
                && request.value == UploadRequest(name, destination, expectedSize, sha256, idPart, idSerial)
      ensures card.powered && Fits(idPart, PART_CAPACITY) && Fits(idSerial, SERIAL_CAPACITY) ==>
                (request.Some? <==> started && consentEnabled && staged && !usbRecovery && old(state) != UploadRunning)
      ensures answer == Done <==> request.Some? && accepted
      ensures request.Some? ==> Carries(request.value)
      ensures state == if request == None then old(state) else if accepted then UploadRunning else UploadFailed
    {
      hide CardSound;
      if idPart == [] || idSerial == [] {
        return BadArgument, None;
      }
      if !started || !consentEnabled || !staged || usbRecovery || state == UploadRunning {
        return BadState, None;
      }
      if !Fits(name, NAME_CAPACITY) || !Fits(destination, DESTINATION_CAPACITY)
         || !Fits(idPart, PART_CAPACITY) || !Fits(idSerial, SERIAL_CAPACITY) {
        return BadArgument, None;
      }
      state := UploadRunning;
      request := Some(UploadRequest(name, destination, expectedSize, sha256, idPart, idSerial));
      ZeroSizeNotPermitted(destination);
      if !accepted {
        state := UploadFailed;
        return Broken, request;
      }
      return Done, request;
    }

    /** The automatic write after a sync: at most one between attaches, and only to the device it is pinned to. */
    method AutoApply(idPart: seq<byte>, idSerial: seq<byte>, syncClean: bool, syncPending: nat, usbRecovery: bool, accepted: bool)
      returns (answer: Answer, decision: Decision, request: Option<UploadRequest>)
      requires Valid()
      modifies this`state, this`autoApplyAttempted, this`attempts
      ensures Valid()
      ensures attempts == old(attempts) + if decision == Allowed then 1 else 0
      ensures decision == Allowed ==> autoApplyAttempted && old(attempts) == 0
      ensures card.powered ==>
                (decision == Allowed <==>
                  && started && consentEnabled && autoApplyEnabled && staged && part == idPart != [] && serial == idSerial != []
                  && !recoveryRequired && !usbRecovery && !old(autoApplyAttempted) && old(state) != UploadRunning
                  && syncClean && syncPending == 0)
      ensures decision == Allowed ==>
                && old(!autoApplyAttempted) && consentEnabled && autoApplyEnabled && staged && syncClean && syncPending == 0
                && part == idPart != [] && serial == idSerial != []
      ensures card.powered && decision == Allowed ==> request.Some? && (answer == Done <==> accepted)
      ensures decision != Allowed ==> request == None && state == old(state) && autoApplyAttempted == old(autoApplyAttempted)
      ensures request.Some? ==>
                request.value == UploadRequest(name, destination, expectedSize, sha256, part, serial) && Carries(request.value)
    {
      hide CardSound;
      if !started {
        return BadState, WritesNotCompiled, None;
      }
      var context := Context(true, consentEnabled, autoApplyEnabled, staged, part, serial, idSerial != [], idPart, idSerial,
                             syncClean, syncPending, state == UploadRunning, recoveryRequired || usbRecovery, autoApplyAttempted);
      decision := EvaluateApply(context);
      AllowedIff(context);
      if decision != Allowed {
        return BadState, decision, None;
      }
      autoApplyAttempted := true;
      attempts := attempts + 1;
      answer, request := RequestUpload(idPart, idSerial, usbRecovery, accepted);
    }

    /** The transport opens the payload it was asked to send. */
    method SourceOpen(request: UploadRequest) returns (answer: Answer, payload: Option<seq<byte>>)
      requires Valid()
      modifies this`sourceOpen, card
      ensures Valid() && (card.powered ==> card.files == old(card.files))
      ensures card.Grows(old(card.committed), old(card.stuck), old(card.troubled), old(card.powered))
      ensures answer == Done ==> card.powered && payload.Some? && request.sha256 == card.hash(payload.value)
                                 && (request.size != 0 ==> |payload.value| == request.size)
      ensures answer == Done ==> consentEnabled && staged && state == UploadRunning && !old(sourceOpen) && sourceOpen
      ensures card.powered && !card.troubled ==>
                (answer == Done <==> started && consentEnabled && staged && state == UploadRunning && !old(sourceOpen)
                                     && request.name == name && request.path == destination && request.size == expectedSize
                                     && request.sha256 == sha256)
    {
      hide CardSound, CutFrom, Fits, TargetKind;
      if !(started && consentEnabled && staged && state == UploadRunning && request.name == name
           && request.path == destination && request.size == expectedSize && request.sha256 == sha256) || sourceOpen {
        return BadState, None;
      }
      payload := card.Read(StageFile);
      if payload == None {
        return Broken, None;
      }
      sourceOpen := true;
      return Done, payload;
    }

    method SourceClose()
      requires Valid()
      modifies this`sourceOpen
      ensures Valid() && !sourceOpen
    {
      sourceOpen := false;
    }

    /** A verified write is no longer pending; a failed one keeps its payload. */
    method ObserveUpload(newState: UploadState, recovery: bool)
      requires Valid()
      modifies this`state, this`recoveryRequired, this`staged, this`part, this`serial, card
      ensures Valid() && state == newState && recoveryRequired == recovery
      ensures card.Grows(old(card.committed), old(card.stuck), old(card.troubled), old(card.powered))
      ensures newState == UploadVerified ==> !staged && part == [] && serial == []
      ensures newState != UploadVerified ==> part == old(part) && serial == old(serial)
      ensures newState == UploadVerified && card.powered && (!card.stuck || !card.troubled) ==> Restored(card.hash, card.files) == None
      ensures newState != UploadVerified ==> staged == old(staged) && card.files == old(card.files)
    {
      hide CardSound, CutFrom, Fits, TargetKind, RestoreSpec;
      state := newState;
      recoveryRequired := recovery;
      if newState == UploadVerified {
        DiscardStaged();
        UnpinnedRestoresNothing(card.hash, card.files);
      }
    }
  }

  datatype UploadRequest = UploadRequest(
    name: seq<byte>, path: seq<byte>, size: u32, sha256: Digest, part: seq<byte>, serial: seq<byte>)

  lemma {:induction false} BaseNameOf(directory: seq<byte>, name: seq<byte>)
    requires SLASH !in name
    ensures BaseName(directory + [SLASH] + name) == Some(name)
    decreases |name|
  {
    var path := directory + [SLASH] + name;
    if name != [] {
      var last := |name| - 1;
      assert path[..|path| - 1] == directory + [SLASH] + name[..last];
      BaseNameOf(directory, name[..last]);
      assert name[..last] + [name[last]] == name;
    }
  }

  lemma MapPermitted(path: seq<byte>, size: u32)
    requires |path| > |MAPS_PREFIX| + |MAP_EXTENSION| && path[..|MAPS_PREFIX|] == MAPS_PREFIX && 0 < size <= MAX_PAYLOAD
    requires forall i | |MAPS_PREFIX| <= i < |path| :: SafeFileByte(path, i)
    requires forall i | 0 <= i < |MAP_EXTENSION| :: LowerCase(path[|path| - |MAP_EXTENSION| + i]) == MAP_EXTENSION[i]
    ensures TargetKind(path, size) == Some(MapKind)
  {
    hide SafeFileByte, LowerCase;
    assert path[0] == path[..|MAPS_PREFIX|][0];
    assert path != STARTUP_PATH;
  }

  lemma PlainMapPermitted(stem: seq<byte>, size: u32)
    requires stem != [] && 0 < size <= MAX_PAYLOAD && forall i | 0 <= i < |stem| :: 0x61 <= stem[i] <= 0x7a
    ensures TargetKind(MAPS_PREFIX + (stem + MAP_EXTENSION), size) == Some(MapKind)
  {
    hide SafeFileByte, LowerCase, TargetKind;
    var path := MAPS_PREFIX + (stem + MAP_EXTENSION);
    assert path[..|MAPS_PREFIX|] == MAPS_PREFIX;
    forall i | |MAPS_PREFIX| <= i < |path|
      ensures SafeFileByte(path, i)
    {
      PlainBytesSafe(stem, i);
    }
    forall i | 0 <= i < |MAP_EXTENSION|
      ensures LowerCase(path[|path| - |MAP_EXTENSION| + i]) == MAP_EXTENSION[i]
    {
      assert path[|path| - |MAP_EXTENSION| + i] == MAP_EXTENSION[i];
      ExtensionIsLower(i);
    }
    MapPermitted(path, size);
  }

  lemma ExtensionIsLower(i: nat)
    requires i < |MAP_EXTENSION|
    ensures LowerCase(MAP_EXTENSION[i]) == MAP_EXTENSION[i]
  {
  }

  lemma PlainBytesSafe(stem: seq<byte>, i: nat)
    requires stem != [] && forall k | 0 <= k < |stem| :: 0x61 <= stem[k] <= 0x7a
    requires |MAPS_PREFIX| <= i < |MAPS_PREFIX| + |stem| + |MAP_EXTENSION|
    ensures SafeFileByte(MAPS_PREFIX + (stem + MAP_EXTENSION), i)
  {
    var path := MAPS_PREFIX + (stem + MAP_EXTENSION);
    var k := i - |MAPS_PREFIX|;
    if k < |stem| {
      assert path[i] == stem[k];
    } else {
      assert path[i] == MAP_EXTENSION[k - |stem|];
      assert i + 1 < |path| ==> path[i + 1] == MAP_EXTENSION[k + 1 - |stem|];
    }
  }

  /** A map name of 128 bytes, permitted as a destination and too long to be kept. */
  lemma OverLongName() returns (name: seq<byte>, destination: seq<byte>)
    ensures WouldBegin(name, destination, 1, true, false, false, UploadIdle) && !Fits(name, NAME_CAPACITY)
  {
    hide TargetKind, BaseName;
    var stem: seq<byte> := seq(NAME_CAPACITY - |MAP_EXTENSION|, _ => 0x61);
    name := stem + MAP_EXTENSION;
    destination := MAPS_PREFIX + name;
    assert SLASH !in name;
    assert destination == MAPS_PREFIX[..4] + [SLASH] + name;
    BaseNameOf(MAPS_PREFIX[..4], name);
    PlainMapPermitted(stem, 1);
  }

  /** Nothing of size zero may be uploaded anywhere. */
  lemma ZeroSizeNotPermitted(path: seq<byte>)
    ensures TargetKind(path, 0) == None
  {
  }

  lemma PermittedSize(path: seq<byte>, size: u32)
    requires TargetKind(path, size).Some?
    ensures 0 < size <= MAX_PAYLOAD
  {
  }

  lemma RestoredIsWhole(hash: Hash, files: Files)
    requires Restored(hash, files).Some?
    ensures var r := Restored(hash, files).value;
            && Encodable(r) && TargetKind(r.destination, r.size).Some?
            && StageFile in files && |files[StageFile]| == r.size && hash(files[StageFile]) == r.sha256
  {
    hide Decode, Encodable, TargetKind;
    AcceptedReencodes(files[MetaFile]);
  }

  lemma UnpinnedRestoresNothing(hash: Hash, files: Files)
    ensures MetaFile !in files ==> Restored(hash, files) == None
  {
  }

  lemma MovedKeepsSound(hash: Hash, before: Files, unsynced: set<File>, after: Files, committed: set<Pair>, stuck: bool)
    requires CardSound(hash, before, unsynced, committed, stuck)
    requires TempFile in before && StageFile !in before && TempFile !in unsynced
    requires after == (before - {TempFile})[StageFile := before[TempFile]]
    requires stuck || MetaFile !in before
    ensures CardSound(hash, after, unsynced, committed, stuck)
  {
    hide Describes, PairConsistent;
  }

  lemma CommitKeepsSound(hash: Hash, files: Files, unsynced: set<File>, committed: set<Pair>, stuck: bool, pair: Pair)
    requires CardSound(hash, files, unsynced, committed, stuck) && PairConsistent(hash, pair)
    ensures CardSound(hash, files, unsynced, committed + {pair}, stuck)
  {
    hide Describes, PairConsistent;
  }
}
