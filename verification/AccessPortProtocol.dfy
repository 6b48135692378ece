/** Framing of AccessPort records and file chunks, with its builders and validators. */
module AccessPortProtocol {
  import opened Bytes
  import Crc32

  const PREFIX_SIZE: nat := 11
  const CHECKSUM_SIZE: nat := 4
  const CHUNK_PREFIX_SIZE: nat := 7
  const MAX_CHUNK_PAYLOAD: nat := 0x100_0000 - 5
  const RECORD_OVERHEAD: nat := 46
  const MAX_RECORD_SIZE: nat := 65542
  const UPLOAD_CHUNK_FLAG: byte := 0x23
  const DOWNLOAD_CHUNK_FLAG: byte := 0x01
  const OPCODE_RESPONSE: u16 := 0x1601
  const OPCODE_UPLOAD: u16 := 0x1622

  /** "serialization::archive" followed by the archive version bytes. */
  const BOOST_HEADER: seq<byte> := [
    0x73, 0x65, 0x72, 0x69, 0x61, 0x6c, 0x69, 0x7a, 0x61, 0x74, 0x69, 0x6f, 0x6e,
    0x3a, 0x3a, 0x61, 0x72, 0x63, 0x68, 0x69, 0x76, 0x65,
    0x03, 0x04, 0x04, 0x04, 0x08, 0x01, 0x00, 0x00, 0x00
  ]

  datatype Status =
    | Ok
    | InvalidArgument
    | BufferTooSmall
    | RecordTooLarge
    | InvalidFrame
    | InvalidChecksum
    | SinkError

  datatype RecordView = RecordView(opcode: u16, payload: seq<byte>)

  datatype ParseResult = Parsed(view: RecordView) | Rejected(status: Status)

  // ---- Frames as byte strings ----------------------------------------------------

  predicate RecordFits(payload: seq<byte>) {
    RECORD_OVERHEAD + |payload| <= MAX_RECORD_SIZE
  }

  function RecordPrefix(opcode: u16, size: nat): (s: seq<byte>)
    requires 7 <= size <= MAX_RECORD_SIZE
    ensures |s| == PREFIX_SIZE
  {
    [0x02, 0x00, 0x00] + StoreU16Be(size - 7) + [0x00] + StoreU16Le(opcode) + [0x00, 0x00, 0x00]
  }

  /** Everything of a record before its checksum. */
  function RecordBody(opcode: u16, payload: seq<byte>): seq<byte>
    requires RecordFits(payload)
  {
    RecordPrefix(opcode, RECORD_OVERHEAD + |payload|) + BOOST_HEADER + payload
  }

  /** A body followed by its checksum, most significant byte first. */
  function Seal(body: seq<byte>): seq<byte> {
    body + StoreU32Be(Crc32.JamCrc(body))
  }

  function RecordBytes(opcode: u16, payload: seq<byte>): seq<byte>
    requires RecordFits(payload)
  {
    Seal(RecordBody(opcode, payload))
  }

  function ChunkPrefix(size: nat, flag: byte): (s: seq<byte>)
    requires size <= MAX_CHUNK_PAYLOAD
    ensures |s| == CHUNK_PREFIX_SIZE
  {
    [0x02, 0x00] + StoreU24Be(size + CHECKSUM_SIZE) + [0x00, flag]
  }

  function ChunkBytes(payload: seq<byte>, flag: byte): seq<byte>
    requires |payload| <= MAX_CHUNK_PAYLOAD
  {
    Seal(ChunkPrefix(|payload|, flag) + payload)
  }

  // ---- Validators ----------------------------------------------------------------

  function ZeroedTrailerCrc(frame: seq<byte>): u32
    requires |frame| >= CHECKSUM_SIZE
  {
    Crc32.JamCrc(frame[..|frame| - CHECKSUM_SIZE])
  }

  predicate TrailerMatches(frame: seq<byte>)
    requires |frame| >= CHECKSUM_SIZE
  {
    ZeroedTrailerCrc(frame) == LoadU32Be(frame[|frame| - CHECKSUM_SIZE..])
  }

  function ValidateRecord(record: seq<byte>): Status {
    if |record| < RECORD_OVERHEAD || |record| > MAX_RECORD_SIZE
       || record[0] != 0x02 || record[1] != 0x00 || record[2] != 0x00 || record[5] != 0x00
       || record[8] != 0x00 || record[9] != 0x00 || record[10] != 0x00
       || LoadU16Be(record[3..5]) + 7 != |record|
    then InvalidFrame
    else if !TrailerMatches(record) then InvalidChecksum
    else Ok
  }

  function ParseRecord(record: seq<byte>): (result: ParseResult)
    ensures result.Rejected? ==> result.status != Ok
  {
    var status := ValidateRecord(record);
    if status != Ok then Rejected(status)
    else if record[PREFIX_SIZE..PREFIX_SIZE + |BOOST_HEADER|] != BOOST_HEADER then Rejected(InvalidFrame)
    else Parsed(RecordView(
      LoadU16Le(record[6..8]),
      record[PREFIX_SIZE + |BOOST_HEADER|..|record| - CHECKSUM_SIZE]))
  }

  function ValidateChunk(chunk: seq<byte>): Status {
    if |chunk| < CHUNK_PREFIX_SIZE + CHECKSUM_SIZE
       || chunk[0] != 0x02 || chunk[1] != 0x00 || chunk[5] != 0x00
       || LoadU24Be(chunk[2..5]) + CHUNK_PREFIX_SIZE != |chunk|
    then InvalidFrame
    else if !TrailerMatches(chunk) then InvalidChecksum
    else Ok
  }

  // ---- Validators and builders are inverse -----------------------------------------

  lemma SealMatches(body: seq<byte>)
    ensures |Seal(body)| == |body| + CHECKSUM_SIZE
    ensures Seal(body)[..|body|] == body
    ensures TrailerMatches(Seal(body))
  {
    var crc := Crc32.JamCrc(body);
    assert Seal(body)[|body|..] == StoreU32Be(crc);
    StoreLoadU32(crc);
  }

  lemma MatchingIsSealed(frame: seq<byte>)
    requires |frame| >= CHECKSUM_SIZE && TrailerMatches(frame)
    ensures frame == Seal(frame[..|frame| - CHECKSUM_SIZE])
  {
    LoadStoreU32Be(frame[|frame| - CHECKSUM_SIZE..]);
  }

  /** Parsing a built record returns its opcode and payload. */
  lemma ParseInvertsBuild(opcode: u16, payload: seq<byte>)
    requires RecordFits(payload)
    ensures ParseRecord(RecordBytes(opcode, payload)) == Parsed(RecordView(opcode, payload))
  {
    var size := RECORD_OVERHEAD + |payload|;
    var body := RecordBody(opcode, payload);
    var record := RecordBytes(opcode, payload);
    SealMatches(body);
    assert record[..|body|] == body;
    assert record[3..5] == body[3..5] == StoreU16Be(size - 7);
    assert record[6..8] == body[6..8] == StoreU16Le(opcode);
    StoreLoadU16(size - 7);
    StoreLoadU16(opcode);
    assert record[PREFIX_SIZE..PREFIX_SIZE + |BOOST_HEADER|] == body[PREFIX_SIZE..PREFIX_SIZE + |BOOST_HEADER|] == BOOST_HEADER;
    assert record[PREFIX_SIZE + |BOOST_HEADER|..|record| - CHECKSUM_SIZE] == body[PREFIX_SIZE + |BOOST_HEADER|..] == payload;
  }

  /** Every record the parser accepts is the one the builder makes from the view. */
  lemma BuildInvertsParse(record: seq<byte>)
    requires ParseRecord(record).Parsed?
    ensures RecordFits(ParseRecord(record).view.payload)
    ensures RecordBytes(ParseRecord(record).view.opcode, ParseRecord(record).view.payload) == record
  {
    BodyReadsBack(record);
    MatchingIsSealed(record);
  }

  lemma BodyReadsBack(record: seq<byte>)
    requires ParseRecord(record).Parsed?
    ensures RecordFits(ParseRecord(record).view.payload) && |record| >= CHECKSUM_SIZE
    ensures record[..|record| - CHECKSUM_SIZE] == RecordBody(ParseRecord(record).view.opcode, ParseRecord(record).view.payload)
  {
    var payload := ParseRecord(record).view.payload;
    PrefixReadsBack(record);
    ParsedPayload(record);
    hide RecordPrefix, ParseRecord;
    var start := PREFIX_SIZE + |BOOST_HEADER|;
    assert record[..|record| - CHECKSUM_SIZE] == record[..PREFIX_SIZE] + record[PREFIX_SIZE..start] + payload;
  }

  lemma ParsedPayload(record: seq<byte>)
    requires ParseRecord(record).Parsed?
    ensures var payload := ParseRecord(record).view.payload;
            && |record| == RECORD_OVERHEAD + |payload| <= MAX_RECORD_SIZE
            && record[PREFIX_SIZE..PREFIX_SIZE + |BOOST_HEADER|] == BOOST_HEADER
            && payload == record[PREFIX_SIZE + |BOOST_HEADER|..|record| - CHECKSUM_SIZE]
  {
    hide TrailerMatches;
  }

  lemma PrefixReadsBack(record: seq<byte>)
    requires ParseRecord(record).Parsed?
    ensures |record| >= PREFIX_SIZE && record[..PREFIX_SIZE] == RecordPrefix(ParseRecord(record).view.opcode, |record|)
  {
    hide TrailerMatches;
    LoadStoreU16(record[3..5]);
    LoadStoreU16(record[6..8]);
    PrefixFromBytes(record, ParseRecord(record).view.opcode);
  }

  lemma PrefixFromBytes(record: seq<byte>, opcode: u16)
    requires PREFIX_SIZE <= |record| <= MAX_RECORD_SIZE
    requires record[0] == 0x02 && record[1] == 0x00 && record[2] == 0x00 && record[3..5] == StoreU16Be(|record| - 7)
    requires record[5] == 0x00 && record[6..8] == StoreU16Le(opcode)
    requires record[8] == 0x00 && record[9] == 0x00 && record[10] == 0x00
    ensures record[..PREFIX_SIZE] == RecordPrefix(opcode, |record|)
  {
    hide StoreU16Be, StoreU16Le;
    assert record[..PREFIX_SIZE] == record[..3] + record[3..5] + [record[5]] + record[6..8] + record[8..PREFIX_SIZE];
    assert record[..3] == [0x02, 0x00, 0x00] && record[8..PREFIX_SIZE] == [0x00, 0x00, 0x00];
  }

  lemma LoadStoreU16(s: seq<byte>)
    requires |s| == 2
    ensures StoreU16Be(LoadU16Be(s)) == s
    ensures StoreU16Le(LoadU16Le(s)) == s
  {
    var a: int, b: int := s[0], s[1];
    assert (256 * a + b) / 256 == a && (a + 256 * b) / 256 == b;
  }

  lemma LoadStoreU24(s: seq<byte>)
    requires |s| == 3
    ensures StoreU24Be(LoadU24Be(s)) == s
  {
    LoadStoreU32Be([0] + s);
    assert LoadU32Be([0] + s) == LoadU24Be(s);
    assert StoreU32Be(LoadU24Be(s)) == [0] + s;
    assert StoreU24Be(LoadU24Be(s)) == StoreU32Be(LoadU24Be(s))[1..];
  }

  /** A chunk is valid exactly when it is the built chunk of its own payload and flag. */
  lemma ChunkValidIffBuilt(chunk: seq<byte>)
    ensures ValidateChunk(chunk) == Ok <==>
            exists payload: seq<byte>, flag: byte ::
              |payload| <= MAX_CHUNK_PAYLOAD && chunk == ChunkBytes(payload, flag)
  {
    if ValidateChunk(chunk) == Ok {
      var payload := chunk[CHUNK_PREFIX_SIZE..|chunk| - CHECKSUM_SIZE];
      MatchingIsSealed(chunk);
      LoadStoreU24(chunk[2..5]);
      assert chunk[..CHUNK_PREFIX_SIZE] == ChunkPrefix(|payload|, chunk[6]);
      assert chunk[..|chunk| - CHECKSUM_SIZE] == chunk[..CHUNK_PREFIX_SIZE] + payload;
      assert chunk == ChunkBytes(payload, chunk[6]);
    }
    if payload: seq<byte>, flag: byte :| |payload| <= MAX_CHUNK_PAYLOAD && chunk == ChunkBytes(payload, flag) {
      BuiltChunkValid(payload, flag);
    }
  }

  lemma BuiltChunkValid(payload: seq<byte>, flag: byte)
    requires |payload| <= MAX_CHUNK_PAYLOAD
    ensures ValidateChunk(ChunkBytes(payload, flag)) == Ok
    ensures |ChunkBytes(payload, flag)| == CHUNK_PREFIX_SIZE + |payload| + CHECKSUM_SIZE
  {
    var body := ChunkPrefix(|payload|, flag) + payload;
    SealMatches(body);
    assert ChunkBytes(payload, flag)[2..5] == body[2..5] == StoreU24Be(|payload| + CHECKSUM_SIZE);
    StoreLoadU24(|payload| + CHECKSUM_SIZE);
  }

  // ---- Error detection ----------------------------------------------------------

  /** A four-byte window that does not straddle the start of the checksum. */
  predicate WindowOnOneSide(length: nat, at: nat) {
    at + 4 + CHECKSUM_SIZE <= length || length <= at + CHECKSUM_SIZE
  }

  /** At most one of two frames that differ only in such a window carries its own checksum. */
  lemma BurstBreaksTrailer(frame: seq<byte>, damaged: seq<byte>, at: nat)
    requires |frame| >= CHECKSUM_SIZE
    requires Crc32.DifferInWindow(frame, damaged, at)
    requires WindowOnOneSide(|frame|, at)
    requires TrailerMatches(frame)
    ensures !TrailerMatches(damaged)
  {
    var cut := |frame| - CHECKSUM_SIZE;
    assert frame == frame[..cut] + frame[cut..];
    assert damaged == damaged[..cut] + damaged[cut..];
    if at + 4 <= cut {
      assert frame[cut..] == damaged[cut..];
      Crc32.JamCrcTellsApart(frame[..cut], damaged[..cut], at);
    } else {
      assert frame[..cut] == damaged[..cut];
      if TrailerMatches(damaged) {
        LoadU32BeInjective(frame[cut..], damaged[cut..]);
        assert false;
      }
    }
  }

  lemma RecordBurstRejected(record: seq<byte>, damaged: seq<byte>, at: nat)
    requires ValidateRecord(record) == Ok
    requires Crc32.DifferInWindow(record, damaged, at) && WindowOnOneSide(|record|, at)
    ensures ValidateRecord(damaged) != Ok
    ensures ParseRecord(damaged).Rejected?
  {
    BurstBreaksTrailer(record, damaged, at);
  }

  lemma ChunkBurstRejected(chunk: seq<byte>, damaged: seq<byte>, at: nat)
    requires ValidateChunk(chunk) == Ok
    requires Crc32.DifferInWindow(chunk, damaged, at) && WindowOnOneSide(|chunk|, at)
    ensures ValidateChunk(damaged) != Ok
  {
    BurstBreaksTrailer(chunk, damaged, at);
  }

  /** Changing any one byte of a valid record or chunk makes its validator reject it. */
  lemma OneByteChangeRejected(frame: seq<byte>, i: nat, b: byte)
    requires i < |frame| && frame[i] != b
    ensures ValidateRecord(frame) == Ok ==> ValidateRecord(frame[i := b]) != Ok
    ensures ValidateChunk(frame) == Ok ==> ValidateChunk(frame[i := b]) != Ok
  {
    if ValidateRecord(frame) == Ok || ValidateChunk(frame) == Ok {
      var cut := |frame| - CHECKSUM_SIZE;
      var at := if cut <= i then cut else if i + 4 <= cut then i else cut - 4;
      assert frame[i := b][i] != frame[i];
      BurstBreaksTrailer(frame, frame[i := b], at);
    }
  }

  // ---- Builders over a caller's buffer ---------------------------------------------

  /** A moving cursor into a fixed payload area. */
  class ByteWriter {
    const output: array<byte>
    ghost const start: nat
    var cursor: nat
    var remaining: nat
    ghost var written: seq<byte>

    ghost predicate Valid()
      reads this, output
    {
      && start <= cursor
      && cursor + remaining <= output.Length
      && output[start..cursor] == written
    }

    /** What lies in front of the payload area and behind it. */
    ghost function Outside(): (seq<byte>, seq<byte>)
      requires Valid()
      reads this, output
    {
      (output[..start], output[cursor + remaining..])
    }

    constructor (output: array<byte>, cursor: nat, remaining: nat)
      requires cursor + remaining <= output.Length
      ensures Valid() && written == []
      ensures this.output == output && this.start == this.cursor == cursor && this.remaining == remaining
    {
      this.output := output;
      this.start := cursor;
      this.cursor := cursor;
      this.remaining := remaining;
      this.written := [];
    }

    /** Appends or, when the value does not fit, changes nothing. */
    method WriteBytes(value: seq<byte>) returns (ok: bool)
      requires Valid()
      modifies this, output
      ensures Valid() && Outside() == old(Outside())
      ensures ok == (|value| <= old(remaining))
      ensures written == old(written) + if ok then value else []
      ensures remaining == old(remaining) - if ok then |value| else 0
    {
      ok := |value| <= remaining;
      if ok {
        ghost var before := output[..];
        CopyInto(output, cursor, value);
        KeepTail(before, output[..], cursor + |value|, cursor + remaining);
        assert output[..start] == output[..cursor + |value|][..start] == before[..start];
        assert output[start..cursor + |value|] == output[..cursor + |value|][start..];
        cursor := cursor + |value|;
        remaining := remaining - |value|;
        written := written + value;
      }
    }

    method WriteZeros(length: nat) returns (ok: bool)
      requires Valid()
      modifies this, output
      ensures Valid() && Outside() == old(Outside())
      ensures ok == (length <= old(remaining))
      ensures written == old(written) + if ok then Zeros(length) else []
      ensures remaining == old(remaining) - if ok then length else 0
    {
      ok := WriteBytes(Zeros(length));
    }

    method WriteU32Le(value: u32) returns (ok: bool)
      requires Valid()
      modifies this, output
      ensures Valid() && Outside() == old(Outside())
      ensures ok == (4 <= old(remaining))
      ensures written == old(written) + if ok then StoreU32Le(value) else []
      ensures remaining == old(remaining) - if ok then 4 else 0
    {
      ok := WriteBytes(StoreU32Le(value));
    }

    /** Once the area is full, the buffer holds its front, the payload, and the old tail. */
    lemma Filled(tail: seq<byte>)
      requires Valid() && remaining == 0
      requires cursor + CHECKSUM_SIZE <= output.Length && Outside().1[CHECKSUM_SIZE..] == tail
      ensures output[..cursor] == Outside().0 + written
      ensures output[cursor + CHECKSUM_SIZE..] == tail
    {
      assert output[..cursor] == output[..start] + output[start..cursor];
    }

    /** A length-prefixed string. */
    method WriteLp(value: seq<byte>) returns (ok: bool)
      requires Valid()
      modifies this, output
      ensures Valid() && Outside() == old(Outside())
      ensures ok == (|value| < U32_LIMIT && 4 + |value| <= old(remaining))
      ensures ok ==> written == old(written) + LengthPrefixed(value) && remaining == old(remaining) - 4 - |value|
    {
      if |value| >= U32_LIMIT || remaining < 4 {
        return false;
      }
      ok := WriteU32Le(|value|);
      ok := WriteBytes(value);
    }
  }

  function LengthPrefixed(value: seq<byte>): seq<byte>
    requires |value| < U32_LIMIT
  {
    StoreU32Le(|value|) + value
  }

  /** The checksum of a frame held in a buffer, its trailer read as zero. */
  method JamCrcZeroedTrailer(frame: seq<byte>) returns (crc: u32)
    ensures |frame| < CHECKSUM_SIZE ==> crc == 0
    ensures |frame| >= CHECKSUM_SIZE ==> crc == ZeroedTrailerCrc(frame)
  {
    if |frame| < CHECKSUM_SIZE {
      return 0;
    }
    var body := frame[..|frame| - CHECKSUM_SIZE];
    crc := Crc32.Update(Crc32.INITIAL, body);
    crc := Crc32.Update(crc, [0, 0, 0, 0]);
    Crc32.CrcConcat(Crc32.INITIAL, body, [0, 0, 0, 0]);
  }

  /** What every record builder answers for a payload size and a buffer capacity. */
  function BuildStatus(payloadLength: nat, capacity: nat): Status {
    if RECORD_OVERHEAD + payloadLength > MAX_RECORD_SIZE then RecordTooLarge
    else if capacity < RECORD_OVERHEAD + payloadLength then BufferTooSmall
    else Ok
  }

  /** A record is built exactly when its length field can hold its length and the buffer can hold the record. */
  lemma BuiltIff(opcode: u16, payload: seq<byte>, capacity: nat)
    ensures var total := RECORD_OVERHEAD + |payload|;
            && (BuildStatus(|payload|, capacity) == Ok <==> total - 7 < 0x1_0000 && total <= capacity)
            && (BuildStatus(|payload|, capacity) == RecordTooLarge <==> total - 7 >= 0x1_0000)
            && (BuildStatus(|payload|, capacity) == BufferTooSmall <==> capacity < total && total - 7 < 0x1_0000)
            && (BuildStatus(|payload|, capacity) == Ok ==> |RecordBytes(opcode, payload)| == total)
  {
  }

  /** Clears the record's bytes and writes the fixed part in front. */
  method WritePrefix(opcode: u16, total: nat, output: array<byte>)
    requires RECORD_OVERHEAD <= total <= MAX_RECORD_SIZE && total <= output.Length
    modifies output
    ensures output[..PREFIX_SIZE] == RecordPrefix(opcode, total)
    ensures output[total..] == old(output[total..])
  {
    CopyInto(output, 0, Zeros(total));
    ghost var cleared := output[..];
    AllZero(cleared, total);
    output[0] := 0x02;
    output[3], output[4] := (total - 7) / 256, (total - 7) % 256;
    output[6], output[7] := opcode % 256, opcode / 256;
    PrefixBytes(opcode, total);
    assert output[total..] == cleared[total..] == old(output[total..]);
  }

  lemma AllZero(cleared: seq<byte>, total: nat)
    requires total <= |cleared| && cleared[..total] == [] + Zeros(total)
    ensures forall k | 0 <= k < total :: cleared[k] == 0
  {
    assert forall k | 0 <= k < total :: cleared[k] == cleared[..total][k];
  }

  lemma PrefixBytes(opcode: u16, total: nat)
    requires 7 <= total <= MAX_RECORD_SIZE
    ensures RecordPrefix(opcode, total)
            == [0x02, 0x00, 0x00, (total - 7) / 256, (total - 7) % 256, 0x00, opcode % 256, opcode / 256, 0x00, 0x00, 0x00]
  {
  }

  method BeginRecord(opcode: u16, payloadLength: nat, output: array<byte>) returns (status: Status, writer: ByteWriter)
    modifies output
    ensures status == BuildStatus(payloadLength, output.Length)
    ensures fresh(writer) && writer.output == output && writer.Valid() && writer.written == []
    ensures status != Ok ==> output[..] == old(output[..])
    ensures status == Ok ==>
              && writer.start == writer.cursor == PREFIX_SIZE + |BOOST_HEADER| && writer.remaining == payloadLength
              && output[..writer.start] == RecordPrefix(opcode, RECORD_OVERHEAD + payloadLength) + BOOST_HEADER
              && writer.Outside().0 == RecordPrefix(opcode, RECORD_OVERHEAD + payloadLength) + BOOST_HEADER
              && writer.Outside().1[CHECKSUM_SIZE..] == old(output[RECORD_OVERHEAD + payloadLength..])
  {
    var total := RECORD_OVERHEAD + payloadLength;
    if total > MAX_RECORD_SIZE {
      writer := new ByteWriter(output, 0, 0);
      return RecordTooLarge, writer;
    }
    if output.Length < total {
      writer := new ByteWriter(output, 0, 0);
      return BufferTooSmall, writer;
    }
    WritePrefix(opcode, total, output);
    ghost var prefixed := output[..];
    CopyInto(output, PREFIX_SIZE, BOOST_HEADER);
    KeepTail(prefixed, output[..], PREFIX_SIZE + |BOOST_HEADER|, total);
    writer := new ByteWriter(output, PREFIX_SIZE + |BOOST_HEADER|, payloadLength);
    assert writer.Outside().1[CHECKSUM_SIZE..] == output[total..];
    status := Ok;
  }

  /** Appends the checksum once the payload area is full. */
  method FinishRecord(output: array<byte>, recordLength: nat, remaining: nat) returns (status: Status, length: nat)
    requires CHECKSUM_SIZE <= recordLength <= output.Length
    modifies output
    ensures status == if remaining != 0 then InvalidArgument else Ok
    ensures status != Ok ==> output[..] == old(output[..])
    ensures status == Ok ==> length == recordLength
    ensures status == Ok ==> output[..recordLength] == Seal(old(output[..recordLength - CHECKSUM_SIZE]))
    ensures output[recordLength..] == old(output[recordLength..])
  {
    length := 0;
    if remaining != 0 {
      return InvalidArgument, 0;
    }
    hide Seal, ZeroedTrailerCrc, StoreU32Be;
    var frame := output[..recordLength];
    var crc := JamCrcZeroedTrailer(frame);
    SealIs(frame, crc);
    assert output[..recordLength - CHECKSUM_SIZE] == frame[..recordLength - CHECKSUM_SIZE];
    CopyInto(output, recordLength - CHECKSUM_SIZE, StoreU32Be(crc));
    return Ok, recordLength;
  }

  lemma SealIs(frame: seq<byte>, crc: u32)
    requires |frame| >= CHECKSUM_SIZE && crc == ZeroedTrailerCrc(frame)
    ensures Seal(frame[..|frame| - CHECKSUM_SIZE]) == frame[..|frame| - CHECKSUM_SIZE] + StoreU32Be(crc)
    ensures |StoreU32Be(crc)| == CHECKSUM_SIZE
  {
    hide Crc32.JamCrc;
  }

  method BuildRecord(opcode: u16, payload: seq<byte>, output: array<byte>) returns (status: Status, length: nat)
    modifies output
    ensures status == BuildStatus(|payload|, output.Length)
    ensures status != Ok ==> output[..] == old(output[..])
    ensures status == Ok ==> length == RECORD_OVERHEAD + |payload| && output[..length] == RecordBytes(opcode, payload)
    ensures status == Ok ==> output[length..] == old(output[length..])
  {
    var writer: ByteWriter;
    length := 0;
    status, writer := BeginRecord(opcode, |payload|, output);
    if status != Ok {
      return;
    }
    var total := RECORD_OVERHEAD + |payload|;
    ghost var tail := old(output[total..]);
    var ok := writer.WriteBytes(payload);
    status, length := CloseRecord(writer, opcode, payload, total, tail);
  }

  /** With the payload written in full, only the checksum is left. */
  method CloseRecord(writer: ByteWriter, opcode: u16, ghost payload: seq<byte>, total: nat, ghost tail: seq<byte>)
    returns (status: Status, length: nat)
    requires writer.Valid() && writer.remaining == 0 && writer.written == payload && RecordFits(payload)
    requires total == RECORD_OVERHEAD + |payload| <= writer.output.Length && writer.start == PREFIX_SIZE + |BOOST_HEADER|
    requires writer.Outside().0 == RecordPrefix(opcode, total) + BOOST_HEADER && writer.Outside().1[CHECKSUM_SIZE..] == tail
    modifies writer.output
    ensures status == Ok && length == total
    ensures writer.output[..total] == RecordBytes(opcode, payload) && writer.output[total..] == tail
  {
    hide Seal;
    assert writer.cursor == total - CHECKSUM_SIZE;
    writer.Filled(tail);
    assert writer.output[..total - CHECKSUM_SIZE] == RecordBody(opcode, payload);
    status, length := FinishRecord(writer.output, total, writer.remaining);
  }

  /** Buffers that agree from one index on agree from every later one. */
  lemma KeepTail(s: seq<byte>, t: seq<byte>, i: nat, j: nat)
    requires |s| == |t| && i <= j <= |s|
    requires s[i..] == t[i..]
    ensures s[j..] == t[j..]
  {
    assert s[j..] == s[i..][j - i..];
    assert t[j..] == t[i..][j - i..];
  }

  /** Layout of an upload request. */
  function UploadPayload(name: seq<byte>, path: seq<byte>, modificationTime: u32, fileSize: u32): seq<byte>
    requires |name| < U32_LIMIT && |path| < U32_LIMIT
  {
    UploadHead(name, modificationTime, fileSize) + Zeros(19) + LengthPrefixed(path)
  }

  function UploadHead(name: seq<byte>, modificationTime: u32, fileSize: u32): seq<byte>
    requires |name| < U32_LIMIT
  {
    [0x00, 0x01] + LengthPrefixed(name) + StoreU32Le(modificationTime) + StoreU32Le(fileSize)
  }

  lemma UploadLength(name: seq<byte>, path: seq<byte>, modificationTime: u32, fileSize: u32)
    requires |name| < U32_LIMIT && |path| < U32_LIMIT
    ensures |UploadPayload(name, path, modificationTime, fileSize)| == 37 + |name| + |path|
  {
    assert |UploadHead(name, modificationTime, fileSize)| == 14 + |name|;
  }

  method FillUploadHead(writer: ByteWriter, name: seq<byte>, modificationTime: u32, fileSize: u32)
    requires writer.Valid() && writer.written == []
    requires writer.remaining >= 14 + |name| && |name| < U32_LIMIT
    modifies writer, writer.output
    ensures writer.Valid() && writer.Outside() == old(writer.Outside())
    ensures writer.remaining == old(writer.remaining) - 14 - |name|
    ensures writer.written == UploadHead(name, modificationTime, fileSize)
  {
    hide StoreU32Le, Zeros, LengthPrefixed;
    var ok := writer.WriteBytes([0x00, 0x01]);
    assert writer.written == [0x00, 0x01];
    ok := writer.WriteLp(name);
    ok := writer.WriteU32Le(modificationTime);
    ok := writer.WriteU32Le(fileSize);
  }

  method FillUpload(writer: ByteWriter, name: seq<byte>, path: seq<byte>, modificationTime: u32, fileSize: u32)
    requires writer.Valid() && writer.written == []
    requires writer.remaining == 37 + |name| + |path| < U32_LIMIT
    modifies writer, writer.output
    ensures writer.Valid() && writer.remaining == 0 && writer.Outside() == old(writer.Outside())
    ensures writer.written == UploadPayload(name, path, modificationTime, fileSize)
  {
    hide StoreU32Le, Zeros, LengthPrefixed, UploadHead;
    FillUploadHead(writer, name, modificationTime, fileSize);
    var ok := writer.WriteZeros(19);
    ok := writer.WriteLp(path);
  }

  method BuildUpload(name: seq<byte>, path: seq<byte>, modificationTime: u32, fileSize: u32, output: array<byte>)
    returns (status: Status, length: nat)
    modifies output
    ensures status == BuildStatus(37 + |name| + |path|, output.Length)
    ensures status != Ok ==> output[..] == old(output[..])
    ensures status == Ok ==>
              && |name| < U32_LIMIT && |path| < U32_LIMIT
              && |UploadPayload(name, path, modificationTime, fileSize)| == 37 + |name| + |path|
              && length == RECORD_OVERHEAD + 37 + |name| + |path|
              && output[..length] == RecordBytes(OPCODE_UPLOAD, UploadPayload(name, path, modificationTime, fileSize))
              && output[length..] == old(output[length..])
  {
    var payloadLength := 37 + |name| + |path|;
    var writer: ByteWriter;
    length := 0;
    status, writer := BeginRecord(OPCODE_UPLOAD, payloadLength, output);
    if status != Ok {
      return;
    }
    var total := RECORD_OVERHEAD + payloadLength;
    ghost var tail := old(output[total..]);
    UploadLength(name, path, modificationTime, fileSize);
    hide UploadPayload, RecordBytes, RecordPrefix;
    FillUpload(writer, name, path, modificationTime, fileSize);
    status, length := CloseRecord(writer, OPCODE_UPLOAD, UploadPayload(name, path, modificationTime, fileSize), total, tail);
  }

  method BuildChunkPrefix(payloadLength: nat, flag: byte, output: array<byte>) returns (status: Status)
    requires CHUNK_PREFIX_SIZE <= output.Length
    modifies output
    ensures status == if payloadLength > MAX_CHUNK_PAYLOAD then RecordTooLarge else Ok
    ensures status != Ok ==> output[..] == old(output[..])
    ensures status == Ok ==> output[..CHUNK_PREFIX_SIZE] == ChunkPrefix(payloadLength, flag)
    ensures output[CHUNK_PREFIX_SIZE..] == old(output[CHUNK_PREFIX_SIZE..])
  {
    if payloadLength > MAX_CHUNK_PAYLOAD {
      return RecordTooLarge;
    }
    var declared := payloadLength + CHECKSUM_SIZE;
    output[0], output[1] := 0x02, 0x00;
    output[2], output[3], output[4] := declared / 0x1_0000, declared / 256 % 256, declared % 256;
    output[5], output[6] := 0x00, flag;
    return Ok;
  }

  method BuildChunk(payload: seq<byte>, flag: byte, output: array<byte>) returns (status: Status, length: nat)
    modifies output
    ensures status ==
            if |payload| > MAX_CHUNK_PAYLOAD then RecordTooLarge
            else if output.Length < CHUNK_PREFIX_SIZE + |payload| + CHECKSUM_SIZE then BufferTooSmall
            else Ok
    ensures status != Ok ==> output[..] == old(output[..])
    ensures status == Ok ==> length == |payload| + CHUNK_PREFIX_SIZE + CHECKSUM_SIZE
    ensures status == Ok ==> output[..length] == ChunkBytes(payload, flag) && output[length..] == old(output[length..])
  {
    length := 0;
    if |payload| > MAX_CHUNK_PAYLOAD {
      return RecordTooLarge, 0;
    }
    var total := CHUNK_PREFIX_SIZE + CHECKSUM_SIZE + |payload|;
    if output.Length < total {
      return BufferTooSmall, 0;
    }
    status := BuildChunkPrefix(|payload|, flag, output);
    KeepTail(old(output[..]), output[..], CHUNK_PREFIX_SIZE, total);
    ghost var prefixed := output[..];
    CopyInto(output, CHUNK_PREFIX_SIZE, payload);
    KeepTail(prefixed, output[..], CHUNK_PREFIX_SIZE + |payload|, total);
    CopyInto(output, CHUNK_PREFIX_SIZE + |payload|, Zeros(CHECKSUM_SIZE));
    assert output[..CHUNK_PREFIX_SIZE + |payload|] == ChunkPrefix(|payload|, flag) + payload;
    assert output[..total][..total - CHECKSUM_SIZE] == output[..CHUNK_PREFIX_SIZE + |payload|];
    var crc := JamCrcZeroedTrailer(output[..total]);
    CopyInto(output, total - CHECKSUM_SIZE, StoreU32Be(crc));
    return Ok, total;
  }
}
