/** The fixed-size record that pins a staged payload to one device, and the decision to write it. */
module StagedMapRecord {
  import opened Bytes
  import opened LedgerText
  import Crc32

  const RECORD_BYTES: nat := 540
  const BODY_BYTES: nat := 536
  const MAGIC: u32 := 0x544C5652
  const VERSION: u32 := 1
  const NAME_CAPACITY: nat := 128
  const DESTINATION_CAPACITY: nat := 256
  const PART_CAPACITY: nat := 40
  const SERIAL_CAPACITY: nat := 64

  datatype Kind = MapKind | StartupImageKind

  /** Strings are kept without their terminator. */
  datatype Record = Record(
    kind: Kind,
    size: u32,
    sha256: Digest,
    name: seq<byte>,
    destination: seq<byte>,
    partNumber: seq<byte>,
    serial: seq<byte>)

  datatype RecordStatus = RecordOk | RecordInvalidArgument | Truncated | BadMagic | UnsupportedVersion | BadChecksum | MalformedField

  datatype Decoded = Decoded(record: Record) | Rejected(status: RecordStatus)

  // ---- Fields --------------------------------------------------------------------------

  /** A required string fits its field with a terminator and holds no zero byte. */
  predicate Fits(text: seq<byte>, capacity: nat) {
    0 < |text| < capacity && 0 !in text
  }

  function Field(text: seq<byte>, capacity: nat): (f: seq<byte>)
    requires |text| <= capacity
    ensures |f| == capacity
  {
    text + Zeros(capacity - |text|)
  }

  predicate Encodable(r: Record) {
    && r.size != 0
    && Fits(r.name, NAME_CAPACITY) && Fits(r.destination, DESTINATION_CAPACITY)
    && Fits(r.partNumber, PART_CAPACITY) && Fits(r.serial, SERIAL_CAPACITY)
  }

  function KindCode(kind: Kind): u32 {
    if kind == MapKind then 0 else 1
  }

  function Body(r: Record): (b: seq<byte>)
    requires Encodable(r)
    ensures |b| == BODY_BYTES
  {
    StoreU32Le(MAGIC) + StoreU32Le(VERSION) + StoreU32Le(KindCode(r.kind)) + StoreU32Le(r.size) + r.sha256
    + Field(r.name, NAME_CAPACITY) + Field(r.destination, DESTINATION_CAPACITY)
    + Field(r.partNumber, PART_CAPACITY) + Field(r.serial, SERIAL_CAPACITY)
  }

  /** The usual CRC-32: the register complemented. */
  function Checksum(body: seq<byte>): u32 {
    0xffff_ffff - Crc32.Crc(Crc32.INITIAL, body)
  }

  function Encode(r: Record): (b: seq<byte>)
    requires Encodable(r)
    ensures |b| == RECORD_BYTES
  {
    Body(r) + StoreU32Le(Checksum(Body(r)))
  }

  // ---- Decoding --------------------------------------------------------------------------

  /** The bytes before the first zero, if there are some and the zero is inside the field. */
  function FieldText(f: seq<byte>): Option<seq<byte>> {
    var length := IndexOf(f, 0);
    if length == 0 || length >= |f| then None else Some(f[..length])
  }

  function Word(b: seq<byte>, at: nat): u32
    requires at + 4 <= |b|
  {
    LoadU32Le(b[at..at + 4])
  }

  function Decode(b: seq<byte>): Decoded {
    if |b| < RECORD_BYTES then Rejected(Truncated)
    else if Word(b, 0) != MAGIC then Rejected(BadMagic)
    else if Word(b, 4) != VERSION then Rejected(UnsupportedVersion)
    else if Word(b, BODY_BYTES) != Checksum(b[..BODY_BYTES]) then Rejected(BadChecksum)
    else if Word(b, 12) == 0 || Word(b, 8) > 1 then Rejected(MalformedField)
    else
      var name, destination := FieldText(b[48..176]), FieldText(b[176..432]);
      var part, serial := FieldText(b[432..472]), FieldText(b[472..536]);
      if name == None || destination == None || part == None || serial == None then Rejected(MalformedField)
      else
        Decoded(Record(if Word(b, 8) == 0 then MapKind else StartupImageKind, Word(b, 12), b[16..48],
                       name.value, destination.value, part.value, serial.value))
  }

  // ---- Round trips -------------------------------------------------------------------------

  lemma FieldTextOfField(text: seq<byte>, capacity: nat)
    requires Fits(text, capacity)
    ensures FieldText(Field(text, capacity)) == Some(text)
  {
    var f := Field(text, capacity);
    assert f[|text|] == 0;
    assert forall i | 0 <= i < |text| :: f[i] == text[i];
    IndexOfIs(f, 0, |text|);
    assert f[..|text|] == text;
  }

  /** Where each field of an encoded record lies. */
  lemma Layout(r: Record, b: seq<byte>)
    requires Encodable(r) && |b| >= RECORD_BYTES && b[..RECORD_BYTES] == Encode(r)
    ensures b[..BODY_BYTES] == Body(r)
    ensures Word(b, 0) == MAGIC && Word(b, 4) == VERSION && Word(b, 8) == KindCode(r.kind) && Word(b, 12) == r.size
    ensures b[16..48] == r.sha256
    ensures b[48..176] == Field(r.name, NAME_CAPACITY) && b[176..432] == Field(r.destination, DESTINATION_CAPACITY)
    ensures b[432..472] == Field(r.partNumber, PART_CAPACITY) && b[472..536] == Field(r.serial, SERIAL_CAPACITY)
    ensures Word(b, BODY_BYTES) == Checksum(Body(r))
  {
    WordLengths();
    BodyLayout(r);
    hide Field, Fits, Checksum, StoreU32Le, LoadU32Le, Body;
    var e := Encode(r);
    assert e[..BODY_BYTES] == Body(r) && e[BODY_BYTES..RECORD_BYTES] == StoreU32Le(Checksum(Body(r)));
    forall i, j | 0 <= i <= j <= RECORD_BYTES
      ensures b[i..j] == e[i..j]
    {
      SliceOfPrefix(b, RECORD_BYTES, i, j);
    }
    forall i, j | 0 <= i <= j <= BODY_BYTES
      ensures e[i..j] == Body(r)[i..j]
    {
      SliceOfPrefix(e, BODY_BYTES, i, j);
    }
    StoreLoadU32(MAGIC);
    StoreLoadU32(VERSION);
    StoreLoadU32(KindCode(r.kind));
    StoreLoadU32(r.size);
    StoreLoadU32(Checksum(Body(r)));
  }

  lemma SliceOfPrefix(b: seq<byte>, n: nat, i: nat, j: nat)
    requires i <= j <= n <= |b|
    ensures b[i..j] == b[..n][i..j]
  {
  }

  lemma FourWords(w0: seq<byte>, w1: seq<byte>, w2: seq<byte>, w3: seq<byte>, last: seq<byte>)
    requires |w0| == |w1| == |w2| == |w3| == 4
    ensures var b := w0 + w1 + w2 + w3 + last;
            b[0..4] == w0 && b[4..8] == w1 && b[8..12] == w2 && b[12..16] == w3 && b[16..16 + |last|] == last
  {
  }

  lemma FourFields(head: seq<byte>, f0: seq<byte>, f1: seq<byte>, f2: seq<byte>, f3: seq<byte>)
    requires |head| == 48 && |f0| == 128 && |f1| == 256 && |f2| == 40 && |f3| == 64
    ensures var b := head + f0 + f1 + f2 + f3;
            b[..48] == head && b[48..176] == f0 && b[176..432] == f1 && b[432..472] == f2 && b[472..536] == f3
  {
  }

  lemma BodyLayout(r: Record)
    requires Encodable(r)
    ensures var b := Body(r);
            && b[0..4] == StoreU32Le(MAGIC) && b[4..8] == StoreU32Le(VERSION) && b[8..12] == StoreU32Le(KindCode(r.kind))
            && b[12..16] == StoreU32Le(r.size) && b[16..48] == r.sha256
            && b[48..176] == Field(r.name, NAME_CAPACITY) && b[176..432] == Field(r.destination, DESTINATION_CAPACITY)
            && b[432..472] == Field(r.partNumber, PART_CAPACITY) && b[472..536] == Field(r.serial, SERIAL_CAPACITY)
  {
    WordLengths();
    hide Field, StoreU32Le;
    var w0, w1, w2, w3 := StoreU32Le(MAGIC), StoreU32Le(VERSION), StoreU32Le(KindCode(r.kind)), StoreU32Le(r.size);
    var head := w0 + w1 + w2 + w3 + r.sha256;
    FourWords(w0, w1, w2, w3, r.sha256);
    FourFields(head, Field(r.name, NAME_CAPACITY), Field(r.destination, DESTINATION_CAPACITY),
               Field(r.partNumber, PART_CAPACITY), Field(r.serial, SERIAL_CAPACITY));
    var b := Body(r);
    forall i, j | 0 <= i <= j <= 48
      ensures b[i..j] == head[i..j]
    {
      SliceOfPrefix(b, 48, i, j);
    }
  }

  lemma WordLengths()
    ensures forall v: u32 :: |StoreU32Le(v)| == 4
  {
  }

  /** Reading back a written record gives the record, whatever follows it. */
  lemma DecodeInvertsEncode(r: Record, tail: seq<byte>)
    requires Encodable(r)
    ensures Decode(Encode(r) + tail) == Decoded(r)
  {
    hide Checksum, Word, Field, FieldText, Encode, Body;
    var b := Encode(r) + tail;
    assert b[..RECORD_BYTES] == Encode(r);
    Layout(r, b);
    FieldTextOfField(r.name, NAME_CAPACITY);
    FieldTextOfField(r.destination, DESTINATION_CAPACITY);
    FieldTextOfField(r.partNumber, PART_CAPACITY);
    FieldTextOfField(r.serial, SERIAL_CAPACITY);
  }

  predicate ZeroPadded(f: seq<byte>) {
    forall i | IndexOf(f, 0) <= i < |f| :: f[i] == 0
  }

  lemma FieldTextFits(f: seq<byte>)
    requires FieldText(f).Some?
    ensures Fits(FieldText(f).value, |f|)
    ensures Field(FieldText(f).value, |f|) == f <==> ZeroPadded(f)
  {
    var text := FieldText(f).value;
    var g := Field(text, |f|);
    if ZeroPadded(f) {
      assert forall i | 0 <= i < |f| :: g[i] == f[i];
      assert g == f;
    }
    if g == f {
      forall i | |text| <= i < |f|
        ensures f[i] == 0
      {
        assert g[i] == 0;
      }
    }
  }

  predicate Padded(b: seq<byte>)
    requires |b| >= RECORD_BYTES
  {
    ZeroPadded(b[48..176]) && ZeroPadded(b[176..432]) && ZeroPadded(b[432..472]) && ZeroPadded(b[472..536])
  }

  lemma LoadStoreU32Le(s: seq<byte>)
    requires |s| == 4
    ensures StoreU32Le(LoadU32Le(s)) == s
  {
    var t := [s[3], s[2], s[1], s[0]];
    LoadStoreU32Be(t);
  }

  /** An accepted record is encodable, and encodes to the very bytes read exactly when its fields are zero-padded. */
  lemma AcceptedReencodes(b: seq<byte>)
    requires Decode(b).Decoded?
    ensures Encodable(Decode(b).record)
    ensures Encode(Decode(b).record) == b[..RECORD_BYTES] <==> Padded(b)
  {
    hide Checksum, Field, FieldText, ZeroPadded, Fits, StoreU32Le, LoadU32Le;
    var r := Decode(b).record;
    FieldTextFits(b[48..176]);
    FieldTextFits(b[176..432]);
    FieldTextFits(b[432..472]);
    FieldTextFits(b[472..536]);
    if Padded(b) {
      LoadStoreU32Le(b[0..4]);
      LoadStoreU32Le(b[4..8]);
      LoadStoreU32Le(b[8..12]);
      LoadStoreU32Le(b[12..16]);
      LoadStoreU32Le(b[536..540]);
      assert b[..BODY_BYTES] == b[0..4] + b[4..8] + b[8..12] + b[12..16] + b[16..48] + b[48..176] + b[176..432] + b[432..472] + b[472..536];
      assert Body(r) == b[..BODY_BYTES];
      assert b[..RECORD_BYTES] == b[..BODY_BYTES] + b[536..540];
    }
    if Encode(r) == b[..RECORD_BYTES] {
      Layout(r, b);
    }
  }

  // ---- Damage is noticed ---------------------------------------------------------------------

  /** Damage confined to four consecutive bytes of the body, or to the checksum, makes the record unreadable. */
  lemma DamageRejected(b: seq<byte>, d: seq<byte>, at: nat)
    requires Decode(b).Decoded? && |d| == |b|
    requires d[..RECORD_BYTES] != b[..RECORD_BYTES]
    requires at + 4 <= BODY_BYTES || at == BODY_BYTES
    requires forall i | 0 <= i < RECORD_BYTES && !(at <= i < at + 4) :: d[i] == b[i]
    ensures Decode(d).Rejected?
  {
    hide FieldText, LoadU32Le;
    var body, other := b[..BODY_BYTES], d[..BODY_BYTES];
    if at == BODY_BYTES {
      assert body == other;
      assert b[..RECORD_BYTES] == body + b[536..540] && d[..RECORD_BYTES] == other + d[536..540];
      if Decode(d).Decoded? {
        LoadStoreU32Le(b[536..540]);
        LoadStoreU32Le(d[536..540]);
      }
    } else {
      assert b[536..540] == d[536..540];
      assert b[..RECORD_BYTES] == body + b[536..540] && d[..RECORD_BYTES] == other + d[536..540];
      assert Crc32.DifferInWindow(body, other, at);
      Crc32.BurstChangesCrc(Crc32.INITIAL, body, other, at);
    }
  }

  /** Changing exactly one byte of a valid record makes the reader reject it. */
  lemma OneByteChangeRejected(b: seq<byte>, at: nat, value: byte)
    requires Decode(b).Decoded? && at < RECORD_BYTES && value != b[at]
    ensures Decode(b[at := value]).Rejected?
  {
    hide Decode;
    assert Decode(b).Decoded? ==> |b| >= RECORD_BYTES by {
      AcceptedLength(b);
    }
    var d := b[at := value];
    assert d[..RECORD_BYTES][at] != b[..RECORD_BYTES][at];
    DamageRejected(b, d, if at >= BODY_BYTES then BODY_BYTES else if at + 4 <= BODY_BYTES then at else BODY_BYTES - 4);
  }

  lemma AcceptedLength(b: seq<byte>)
    ensures Decode(b).Decoded? ==> |b| >= RECORD_BYTES
  {
  }

  // ---- The writer and the reader ---------------------------------------------------------------

  /** A C string holds no zero byte before its end. */
  predicate CStrings(r: Record) {
    0 !in r.name && 0 !in r.destination && 0 !in r.partNumber && 0 !in r.serial
  }

  method PutString(buffer: array<byte>, offset: nat, capacity: nat, value: seq<byte>) returns (ok: bool)
    requires offset + capacity <= BODY_BYTES && buffer.Length >= RECORD_BYTES && 0 !in value
    modifies buffer
    ensures ok == Fits(value, capacity)
    ensures ok ==> buffer[..offset + capacity] == old(buffer[..offset]) + Field(value, capacity)
    ensures !ok ==> buffer[..] == old(buffer[..])
    ensures buffer[RECORD_BYTES..] == old(buffer[RECORD_BYTES..])
  {
    if |value| == 0 || |value| >= capacity {
      return false;
    }
    ghost var before := buffer[..];
    CopyInto(buffer, offset, Zeros(capacity));
    SuffixShrinks(before, buffer[..], offset + capacity);
    ghost var cleared := buffer[..];
    assert cleared[..offset + capacity] == before[..offset] + Zeros(capacity);
    CopyInto(buffer, offset, value);
    SuffixShrinks(cleared, buffer[..], offset + |value|);
    ghost var after := buffer[..];
    forall i | 0 <= i < offset + capacity
      ensures after[i] == (before[..offset] + Field(value, capacity))[i]
    {
      if i < offset + |value| {
        assert after[i] == after[..offset + |value|][i];
        assert i < offset ==> cleared[..offset][i] == cleared[..offset + capacity][i];
      } else {
        assert after[i] == after[offset + |value|..][i - offset - |value|];
        assert cleared[i] == cleared[..offset + capacity][i];
      }
    }
    return true;
  }

  lemma SuffixShrinks(before: seq<byte>, after: seq<byte>, from: nat)
    requires |before| == |after| >= RECORD_BYTES >= from
    requires after[from..] == before[from..]
    ensures after[RECORD_BYTES..] == before[RECORD_BYTES..]
  {
    assert after[RECORD_BYTES..] == after[from..][RECORD_BYTES - from..];
    assert before[RECORD_BYTES..] == before[from..][RECORD_BYTES - from..];
  }

  method PutWord(buffer: array<byte>, offset: nat, value: u32)
    requires offset + 4 <= BODY_BYTES && buffer.Length >= RECORD_BYTES
    modifies buffer
    ensures buffer[..offset + 4] == old(buffer[..offset]) + StoreU32Le(value)
    ensures buffer[RECORD_BYTES..] == old(buffer[RECORD_BYTES..])
  {
    ghost var before := buffer[..];
    CopyInto(buffer, offset, StoreU32Le(value));
    SuffixShrinks(before, buffer[..], offset + 4);
  }

  method PutChecksum(buffer: array<byte>, value: u32)
    requires buffer.Length >= RECORD_BYTES
    modifies buffer
    ensures buffer[..RECORD_BYTES] == old(buffer[..BODY_BYTES]) + StoreU32Le(value)
    ensures buffer[RECORD_BYTES..] == old(buffer[RECORD_BYTES..])
  {
    CopyInto(buffer, BODY_BYTES, StoreU32Le(value));
  }

  /** Zeroes the record, fills each field in place and seals it; a refused string leaves it all zero. */
  method EncodeInto(r: Record, buffer: array<byte>) returns (status: RecordStatus)
    requires CStrings(r)
    modifies buffer
    ensures status == RecordOk <==> buffer.Length >= RECORD_BYTES && Encodable(r)
    ensures status == RecordOk ==> buffer[..] == Encode(r) + old(buffer[..])[RECORD_BYTES..]
    ensures status != RecordOk ==> status == RecordInvalidArgument
    ensures status != RecordOk ==> buffer[..] == old(buffer[..])
                                   || (buffer.Length >= RECORD_BYTES
                                       && buffer[..] == Zeros(RECORD_BYTES) + old(buffer[..])[RECORD_BYTES..])
  {
    hide Field, Checksum, StoreU32Le;
    if buffer.Length < RECORD_BYTES || r.size == 0 {
      return RecordInvalidArgument;
    }
    ghost var rest := buffer[RECORD_BYTES..];
    ghost var head := StoreU32Le(MAGIC) + StoreU32Le(VERSION) + StoreU32Le(KindCode(r.kind)) + StoreU32Le(r.size) + r.sha256;
    PutHead(r, buffer);
    var ok := PutStrings(r, buffer, head);
    if !ok {
      CopyInto(buffer, 0, Zeros(RECORD_BYTES));
      assert buffer[..] == buffer[..RECORD_BYTES] + buffer[RECORD_BYTES..];
      assert buffer[..] == Zeros(RECORD_BYTES) + rest;
      return RecordInvalidArgument;
    }
    var register := Crc32.Update(Crc32.INITIAL, buffer[..BODY_BYTES]);
    SealValue(r, register);
    PutChecksum(buffer, 0xffff_ffff - register);
    assert buffer[..] == buffer[..RECORD_BYTES] + buffer[RECORD_BYTES..];
    return RecordOk;
  }

  /** The record's bytes zeroed, and the four words and the digest in front. */
  method PutHead(r: Record, buffer: array<byte>)
    requires buffer.Length >= RECORD_BYTES
    modifies buffer
    ensures buffer[..48]
         == StoreU32Le(MAGIC) + StoreU32Le(VERSION) + StoreU32Le(KindCode(r.kind)) + StoreU32Le(r.size) + r.sha256
    ensures buffer[RECORD_BYTES..] == old(buffer[RECORD_BYTES..])
  {
    WordLengths();
    hide StoreU32Le;
    CopyInto(buffer, 0, Zeros(RECORD_BYTES));
    PutWord(buffer, 0, MAGIC);
    PutWord(buffer, 4, VERSION);
    PutWord(buffer, 8, KindCode(r.kind));
    PutWord(buffer, 12, r.size);
    ghost var words := buffer[..];
    CopyInto(buffer, 16, r.sha256);
    SuffixShrinks(words, buffer[..], 48);
  }

  lemma SealValue(r: Record, register: u32)
    requires Encodable(r) && register == Crc32.Crc(Crc32.INITIAL, Body(r))
    ensures 0xffff_ffff - register == Checksum(Body(r))
  {
  }

  method PutStrings(r: Record, buffer: array<byte>, ghost head: seq<byte>) returns (ok: bool)
    requires CStrings(r) && buffer.Length >= RECORD_BYTES && r.size != 0
    requires head == StoreU32Le(MAGIC) + StoreU32Le(VERSION) + StoreU32Le(KindCode(r.kind)) + StoreU32Le(r.size) + r.sha256
    requires buffer[..48] == head
    modifies buffer
    ensures ok == Encodable(r)
    ensures ok ==> buffer[..BODY_BYTES] == Body(r)
    ensures buffer[RECORD_BYTES..] == old(buffer[RECORD_BYTES..])
  {
    hide Field, Checksum, StoreU32Le;
    ok := PutString(buffer, 48, NAME_CAPACITY, r.name);
    if ok {
      ok := PutString(buffer, 176, DESTINATION_CAPACITY, r.destination);
    }
    if ok {
      ok := PutString(buffer, 432, PART_CAPACITY, r.partNumber);
    }
    if ok {
      ok := PutString(buffer, 472, SERIAL_CAPACITY, r.serial);
    }
  }

  method GetString(buffer: array<byte>, offset: nat, capacity: nat) returns (text: Option<seq<byte>>)
    requires offset + capacity <= buffer.Length
    ensures text == FieldText(buffer[offset..offset + capacity])
  {
    var length := 0;
    ghost var f := buffer[offset..offset + capacity];
    while length < capacity && buffer[offset + length] != 0
      invariant 0 <= length <= capacity
      invariant forall i | 0 <= i < length :: f[i] != 0
    {
      length := length + 1;
    }
    IndexOfIs(f, 0, length);
    if length == 0 || length >= capacity {
      return None;
    }
    assert forall i | 0 <= i < length :: f[i] == buffer[offset + i];
    assert f[..length] == buffer[offset..offset + length];
    return Some(buffer[offset..offset + length]);
  }

  method DecodeFrom(buffer: array<byte>, length: nat) returns (result: Decoded)
    requires length <= buffer.Length
    ensures result == Decode(buffer[..length])
  {
    hide FieldText, Checksum, LoadU32Le;
    ghost var b := buffer[..length];
    if length < RECORD_BYTES {
      return Rejected(Truncated);
    }
    SlicesAgree(buffer[..], length);
    if LoadU32Le(buffer[0..4]) != MAGIC {
      return Rejected(BadMagic);
    }
    if LoadU32Le(buffer[4..8]) != VERSION {
      return Rejected(UnsupportedVersion);
    }
    var register := Crc32.Update(Crc32.INITIAL, buffer[..BODY_BYTES]);
    ChecksumIs(buffer[..BODY_BYTES], register);
    if LoadU32Le(buffer[536..540]) != 0xffff_ffff - register {
      return Rejected(BadChecksum);
    }
    var kind, size := LoadU32Le(buffer[8..12]), LoadU32Le(buffer[12..16]);
    if size == 0 || kind > 1 {
      return Rejected(MalformedField);
    }
    var name := GetString(buffer, 48, NAME_CAPACITY);
    var destination := GetString(buffer, 176, DESTINATION_CAPACITY);
    var part := GetString(buffer, 432, PART_CAPACITY);
    var serial := GetString(buffer, 472, SERIAL_CAPACITY);
    if name == None || destination == None || part == None || serial == None {
      return Rejected(MalformedField);
    }
    return Decoded(Record(if kind == 0 then MapKind else StartupImageKind, size, buffer[16..48],
                          name.value, destination.value, part.value, serial.value));
  }

  lemma SlicesAgree(whole: seq<byte>, length: nat)
    requires RECORD_BYTES <= length <= |whole|
    ensures forall i, j | 0 <= i <= j <= RECORD_BYTES :: whole[..length][i..j] == whole[i..j]
    ensures whole[..length][..BODY_BYTES] == whole[..BODY_BYTES]
  {
  }

  lemma ChecksumIs(body: seq<byte>, register: u32)
    requires register == Crc32.Crc(Crc32.INITIAL, body)
    ensures Checksum(body) == 0xffff_ffff - register
  {
  }

  // ---- The decision to write -----------------------------------------------------------------

  datatype Decision =
    | Allowed
    | WritesNotCompiled
    | ConsentDisabled
    | AutoApplyDisabled
    | NothingStaged
    | Unpinned
    | NoDevice
    | TargetMismatch
    | SyncIncomplete
    | TransferBusy
    | RecoveryRequired
    | AlreadyAttempted

  datatype Context = Context(
    writesCompiled: bool,
    consentEnabled: bool,
    autoApplyEnabled: bool,
    staged: bool,
    targetPart: seq<byte>,
    targetSerial: seq<byte>,
    deviceIdentified: bool,
    attachedPart: seq<byte>,
    attachedSerial: seq<byte>,
    syncCompletedClean: bool,
    syncPending: nat,
    transferRunning: bool,
    recoveryRequired: bool,
    attemptedThisAttach: bool)

  predicate BoundedEqual(a: seq<byte>, b: seq<byte>, capacity: nat) {
    0 < |a| < capacity && |b| == |a| && a == b
  }

  function EvaluateApply(c: Context): Decision {
    if !c.writesCompiled then WritesNotCompiled
    else if !c.consentEnabled then ConsentDisabled
    else if !c.autoApplyEnabled then AutoApplyDisabled
    else if !c.staged then NothingStaged
    else if |c.targetPart| == 0 || |c.targetSerial| == 0 then Unpinned
    else if !c.deviceIdentified || |c.attachedSerial| == 0 then NoDevice
    else if !BoundedEqual(c.targetSerial, c.attachedSerial, SERIAL_CAPACITY)
            || !BoundedEqual(c.targetPart, c.attachedPart, PART_CAPACITY) then TargetMismatch
    else if c.recoveryRequired then RecoveryRequired
    else if c.attemptedThisAttach then AlreadyAttempted
    else if c.transferRunning then TransferBusy
    else if !c.syncCompletedClean || c.syncPending != 0 then SyncIncomplete
    else Allowed
  }

  predicate IsTransient(d: Decision) {
    d == SyncIncomplete || d == TransferBusy
  }

  /** A write is allowed exactly when every gate passes, among them that the pin names the attached device. */
  lemma AllowedIff(c: Context)
    ensures EvaluateApply(c) == Allowed <==>
            && c.writesCompiled && c.consentEnabled && c.autoApplyEnabled && c.staged && c.deviceIdentified
            && 0 < |c.targetSerial| < SERIAL_CAPACITY && c.targetSerial == c.attachedSerial
            && 0 < |c.targetPart| < PART_CAPACITY && c.targetPart == c.attachedPart
            && !c.recoveryRequired && !c.attemptedThisAttach && !c.transferRunning
            && c.syncCompletedClean && c.syncPending == 0
  {
  }

  /** The gates in the order they are looked at, each with the refusal it stands for. */
  function Gates(c: Context): (gates: seq<(Decision, bool)>)
    ensures |gates| == 11
  {
    [(WritesNotCompiled, c.writesCompiled),
     (ConsentDisabled, c.consentEnabled),
     (AutoApplyDisabled, c.autoApplyEnabled),
     (NothingStaged, c.staged),
     (Unpinned, c.targetPart != [] && c.targetSerial != []),
     (NoDevice, c.deviceIdentified && c.attachedSerial != []),
     (TargetMismatch, |c.targetSerial| < SERIAL_CAPACITY && c.targetSerial == c.attachedSerial
                      && |c.targetPart| < PART_CAPACITY && c.targetPart == c.attachedPart),
     (RecoveryRequired, !c.recoveryRequired),
     (AlreadyAttempted, !c.attemptedThisAttach),
     (TransferBusy, !c.transferRunning),
     (SyncIncomplete, c.syncCompletedClean && c.syncPending == 0)]
  }

  /** A refusal names the first gate that is shut. */
  lemma RefusedByFirstGate(c: Context, k: nat)
    requires k < 11 && !Gates(c)[k].1 && forall i | 0 <= i < k :: Gates(c)[i].1
    ensures EvaluateApply(c) == Gates(c)[k].0
  {
    var g := Gates(c);
    assert k > 0 ==> g[0].1;
    assert k > 1 ==> g[1].1;
    assert k > 2 ==> g[2].1;
    assert k > 3 ==> g[3].1;
    assert k > 4 ==> g[4].1;
    assert k > 5 ==> g[5].1;
    assert k > 6 ==> g[6].1;
    assert k > 7 ==> g[7].1;
    assert k > 8 ==> g[8].1;
    assert k > 9 ==> g[9].1;
  }

  /** A refusal is transient exactly when finishing the transfer and the sync alone would turn it into a permission. */
  lemma TransientIff(c: Context)
    ensures EvaluateApply(c) != Allowed ==>
              (IsTransient(EvaluateApply(c)) <==>
               EvaluateApply(c.(transferRunning := false, syncCompletedClean := true, syncPending := 0)) == Allowed)
  {
  }
}
