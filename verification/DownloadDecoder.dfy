/** The streaming download decoder, and the one-shot reading of a whole stream it refines. */
module DownloadDecoder {
  import opened Bytes
  import opened AccessPortProtocol
  import Crc32

  const ARCHIVE_CAPACITY: nat := 4096

  datatype Phase = Archive | ChunkHeader | Payload | Trailer | Complete

  /** What a byte stream amounts to: a first error, or how far decoding has come. */
  datatype Outcome =
    | Failed(status: Status, delivered: seq<byte>)
    | Progress(phase: Phase, delivered: seq<byte>, trailing: nat)
  {
    function StatusOf(): Status {
      if Failed? then status else Ok
    }
  }

  // ---- One-shot reading --------------------------------------------------------

  predicate StartsBadly(s: seq<byte>) {
    |s| >= 3 && !(s[0] == 0x02 && s[1] == 0x00 && s[2] == 0x00)
  }

  /** Archive size announced in the first five bytes. */
  function Target(s: seq<byte>): nat
    requires |s| >= 5
  {
    LoadU16Be(s[3..5]) + 7
  }

  predicate TargetAllowed(target: nat) {
    RECORD_OVERHEAD <= target <= ARCHIVE_CAPACITY
  }

  function ArchiveStatus(record: seq<byte>): Status {
    match ParseRecord(record)
    case Rejected(status) => status
    case Parsed(view) => if view.opcode == OPCODE_RESPONSE then Ok else InvalidFrame
  }

  predicate HeaderAccepted(header: seq<byte>, expected: nat)
    requires |header| == CHUNK_PREFIX_SIZE
  {
    && header[0] == 0x02 && header[1] == 0x00 && header[5] == 0x00 && header[6] == DOWNLOAD_CHUNK_FLAG
    && LoadU24Be(header[2..5]) == expected + CHECKSUM_SIZE
  }

  /** Devices send either a zero trailer or the checksum of header and payload. */
  predicate TrailerAccepted(trailer: seq<byte>, body: seq<byte>)
    requires |trailer| == CHECKSUM_SIZE
  {
    trailer == [0, 0, 0, 0] || LoadU32Be(trailer) == Crc32.JamCrc(body)
  }

  /** A whole stream: archive record, chunk header, payload, trailer, surplus bytes. */
  function Decode(s: seq<byte>, expected: nat, limit: nat): (outcome: Outcome)
    ensures outcome.Failed? ==> outcome.status != Ok
  {
    if StartsBadly(s) then Failed(InvalidFrame, [])
    else if |s| < 5 then Progress(Archive, [], 0)
    else if !TargetAllowed(Target(s)) then Failed(InvalidFrame, [])
    else if |s| < Target(s) then Progress(Archive, [], 0)
    else if ArchiveStatus(s[..Target(s)]) != Ok then Failed(ArchiveStatus(s[..Target(s)]), [])
    else DecodeChunk(s[Target(s)..], expected, limit)
  }

  function DecodeChunk(c: seq<byte>, expected: nat, limit: nat): (outcome: Outcome)
    ensures outcome.Failed? ==> outcome.status != Ok
  {
    if |c| < CHUNK_PREFIX_SIZE then Progress(ChunkHeader, [], 0)
    else if !HeaderAccepted(c[..CHUNK_PREFIX_SIZE], expected) then Failed(InvalidFrame, [])
    else if |c| < CHUNK_PREFIX_SIZE + expected then
      var part := c[CHUNK_PREFIX_SIZE..];
      if |part| > limit then Failed(SinkError, []) else Progress(Payload, part, 0)
    else
      var payload := c[CHUNK_PREFIX_SIZE..CHUNK_PREFIX_SIZE + expected];
      if |payload| > limit then Failed(SinkError, [])
      else DecodeTrailer(c[..CHUNK_PREFIX_SIZE + expected], payload, c[CHUNK_PREFIX_SIZE + expected..])
  }

  function DecodeTrailer(body: seq<byte>, payload: seq<byte>, rest: seq<byte>): Outcome {
    if |rest| < CHECKSUM_SIZE then Progress(Trailer, payload, 0)
    else if !TrailerAccepted(rest[..CHECKSUM_SIZE], body) then Failed(InvalidChecksum, payload)
    else Progress(Complete, payload, |rest| - CHECKSUM_SIZE)
  }

  // ---- Properties of the one-shot reading ------------------------------------------

  /** A complete, acceptable archive record. */
  predicate IsArchive(record: seq<byte>) {
    && |record| >= 5 && !StartsBadly(record)
    && TargetAllowed(Target(record)) && Target(record) == |record|
    && ArchiveStatus(record) == Ok
  }

  lemma ArchiveThenChunk(record: seq<byte>, c: seq<byte>, expected: nat, limit: nat)
    requires IsArchive(record)
    ensures Decode(record + c, expected, limit) == DecodeChunk(c, expected, limit)
  {
    var s := record + c;
    assert s[3..5] == record[3..5];
    assert s[..|record|] == record;
    assert s[|record|..] == c;
  }

  /** The three ways an archive record is refused. */
  lemma BadArchive(s: seq<byte>, expected: nat, limit: nat)
    ensures StartsBadly(s) ==> Decode(s, expected, limit) == Failed(InvalidFrame, [])
    ensures !StartsBadly(s) && |s| >= 5 && !TargetAllowed(Target(s)) ==>
              Decode(s, expected, limit) == Failed(InvalidFrame, [])
    ensures !StartsBadly(s) && |s| >= 5 && TargetAllowed(Target(s)) && |s| == Target(s) && ArchiveStatus(s) != Ok ==>
              Decode(s, expected, limit) == Failed(ArchiveStatus(s), [])
  {
    assert |s| >= 5 && |s| == Target(s) ==> s[..Target(s)] == s;
  }

  /** The archive record is refused as soon as its first three bytes, or its length, are there and wrong. */
  lemma RefusedAtOnce(s: seq<byte>, expected: nat, limit: nat)
    ensures |s| < 3 ==> Decode(s, expected, limit) == Progress(Archive, [], 0)
    ensures |s| >= 3 && s[..3] != [0x02, 0x00, 0x00] ==> Decode(s, expected, limit) == Failed(InvalidFrame, [])
    ensures |s| >= 3 && s[..3] == [0x02, 0x00, 0x00] ==>
              if |s| < 5 then Decode(s, expected, limit) == Progress(Archive, [], 0)
              else
                var length := 256 * (s[3] as int) + s[4] as int + 7;
                if length < 46 || length > ARCHIVE_CAPACITY then Decode(s, expected, limit) == Failed(InvalidFrame, [])
                else |s| < length ==> Decode(s, expected, limit) == Progress(Archive, [], 0)
  {
    hide DecodeChunk, ArchiveStatus;
    if |s| >= 3 {
      var start := s[..3];
      assert s[0] == start[0] && s[1] == start[1] && s[2] == start[2];
      if !StartsBadly(s) {
        assert start == [0x02, 0x00, 0x00];
      }
    }
    if |s| >= 5 {
      assert s[3..5] == [s[3], s[4]];
    }
  }

  lemma PartialPayload(header: seq<byte>, part: seq<byte>, expected: nat, limit: nat)
    requires |header| == CHUNK_PREFIX_SIZE && HeaderAccepted(header, expected)
    requires |part| < expected
    ensures DecodeChunk(header + part, expected, limit) ==
            if |part| > limit then Failed(SinkError, []) else Progress(Payload, part, 0)
  {
    var c := header + part;
    assert c[..CHUNK_PREFIX_SIZE] == header;
    assert c[CHUNK_PREFIX_SIZE..] == part;
  }

  lemma FullPayload(header: seq<byte>, payload: seq<byte>, rest: seq<byte>, expected: nat, limit: nat)
    requires |header| == CHUNK_PREFIX_SIZE && HeaderAccepted(header, expected)
    requires |payload| == expected
    ensures DecodeChunk(header + payload + rest, expected, limit) ==
            if expected > limit then Failed(SinkError, []) else DecodeTrailer(header + payload, payload, rest)
  {
    var c := header + payload + rest;
    assert c[..CHUNK_PREFIX_SIZE] == header;
    assert c[..CHUNK_PREFIX_SIZE + expected] == header + payload;
    assert c[CHUNK_PREFIX_SIZE..CHUNK_PREFIX_SIZE + expected] == payload;
    assert c[CHUNK_PREFIX_SIZE + expected..] == rest;
  }

  /** Once a stream has failed, no continuation changes the verdict. */
  lemma ErrorStable(s: seq<byte>, t: seq<byte>, expected: nat, limit: nat)
    requires Decode(s, expected, limit).Failed?
    ensures Decode(s + t, expected, limit) == Decode(s, expected, limit)
  {
    hide ArchiveStatus, DecodeChunk;
    if |s| >= 5 && !StartsBadly(s) {
      var target := Target(s);
      assert (s + t)[3..5] == s[3..5];
      if TargetAllowed(target) {
        var record, c := s[..target], s[target..];
        assert (s + t)[..target] == record;
        if ArchiveStatus(record) == Ok {
          assert record[3..5] == s[3..5];
          assert s == record + c && s + t == record + (c + t);
          ArchiveThenChunk(record, c, expected, limit);
          ArchiveThenChunk(record, c + t, expected, limit);
          ChunkErrorStable(c, t, expected, limit);
        }
      }
    }
  }

  lemma ChunkErrorStable(c: seq<byte>, t: seq<byte>, expected: nat, limit: nat)
    requires DecodeChunk(c, expected, limit).Failed?
    ensures DecodeChunk(c + t, expected, limit) == DecodeChunk(c, expected, limit)
  {
    var header, body := c[..CHUNK_PREFIX_SIZE], c[CHUNK_PREFIX_SIZE..];
    assert (c + t)[..CHUNK_PREFIX_SIZE] == header;
    if HeaderAccepted(header, expected) {
      if |body| < expected {
        assert c == header + body && c + t == header + (body + t);
        PartialPayload(header, body, expected, limit);
        RefusedPayload(header, body + t, expected, limit);
      } else {
        var payload, rest := body[..expected], body[expected..];
        assert c == header + payload + rest && c + t == header + payload + (rest + t);
        FullPayload(header, payload, rest, expected, limit);
        FullPayload(header, payload, rest + t, expected, limit);
        assert |rest| >= CHECKSUM_SIZE ==> (rest + t)[..CHECKSUM_SIZE] == rest[..CHECKSUM_SIZE];
      }
    }
  }

  /** More payload bytes than the sink takes are refused, complete or not. */
  lemma RefusedPayload(header: seq<byte>, body: seq<byte>, expected: nat, limit: nat)
    requires |header| == CHUNK_PREFIX_SIZE && HeaderAccepted(header, expected)
    requires |body| > limit && expected > limit
    ensures DecodeChunk(header + body, expected, limit) == Failed(SinkError, [])
  {
    if |body| < expected {
      PartialPayload(header, body, expected, limit);
    } else {
      assert header + body == header + body[..expected] + body[expected..];
      FullPayload(header, body[..expected], body[expected..], expected, limit);
    }
  }

  /** Feeding segment after segment, stopping at the first error. */
  function FeedSegments(before: seq<byte>, segments: seq<seq<byte>>, expected: nat, limit: nat): Outcome
    decreases |segments|
  {
    if segments == [] then Decode(before, expected, limit)
    else
      var now := Decode(before + segments[0], expected, limit);
      if now.Failed? then now else FeedSegments(before + segments[0], segments[1..], expected, limit)
  }

  lemma {:induction false} SegmentsReadAsOne(before: seq<byte>, segments: seq<seq<byte>>, expected: nat, limit: nat)
    ensures FeedSegments(before, segments, expected, limit) == Decode(before + Flatten(segments), expected, limit)
    decreases |segments|
  {
    if segments == [] {
      assert before + Flatten(segments) == before;
    } else {
      var next := before + segments[0];
      assert before + Flatten(segments) == next + Flatten(segments[1..]);
      if Decode(next, expected, limit).Failed? {
        ErrorStable(next, Flatten(segments[1..]), expected, limit);
      } else {
        SegmentsReadAsOne(next, segments[1..], expected, limit);
      }
    }
  }

  /** Two ways of cutting one stream give the same first error, payload, phase and surplus count. */
  lemma SegmentationIndependence(one: seq<seq<byte>>, other: seq<seq<byte>>, expected: nat, limit: nat)
    requires Flatten(one) == Flatten(other)
    ensures FeedSegments([], one, expected, limit) == FeedSegments([], other, expected, limit)
  {
    SegmentsReadAsOne([], one, expected, limit);
    SegmentsReadAsOne([], other, expected, limit);
  }

  lemma BuiltHeaderAccepted(n: nat)
    requires 0 < n <= MAX_CHUNK_PAYLOAD
    ensures HeaderAccepted(ChunkPrefix(n, DOWNLOAD_CHUNK_FLAG), n)
  {
    assert ChunkPrefix(n, DOWNLOAD_CHUNK_FLAG)[2..5] == StoreU24Be(n + CHECKSUM_SIZE);
    StoreLoadU24(n + CHECKSUM_SIZE);
  }

  lemma FramedChunkDecodes(payload: seq<byte>, trailer: seq<byte>, surplus: seq<byte>, limit: nat)
    requires 0 < |payload| <= MAX_CHUNK_PAYLOAD && |payload| <= limit
    requires |trailer| == CHECKSUM_SIZE && TrailerAccepted(trailer, ChunkPrefix(|payload|, DOWNLOAD_CHUNK_FLAG) + payload)
    ensures DecodeChunk(ChunkPrefix(|payload|, DOWNLOAD_CHUNK_FLAG) + payload + trailer + surplus, |payload|, limit)
         == Progress(Complete, payload, |surplus|)
  {
    hide HeaderAccepted, DecodeChunk, TrailerAccepted, ChunkPrefix;
    var prefix := ChunkPrefix(|payload|, DOWNLOAD_CHUNK_FLAG);
    var rest := trailer + surplus;
    BuiltHeaderAccepted(|payload|);
    assert prefix + payload + trailer + surplus == prefix + payload + rest;
    FullPayload(prefix, payload, rest, |payload|, limit);
    assert rest[..CHECKSUM_SIZE] == trailer;
  }

  /** A response record, its chunk, an accepted trailer and any surplus decode completely. */
  lemma FramedStreamDecodes(opaquePayload: seq<byte>, payload: seq<byte>, trailer: seq<byte>, surplus: seq<byte>, limit: nat)
    requires RECORD_OVERHEAD + |opaquePayload| <= ARCHIVE_CAPACITY
    requires 0 < |payload| <= MAX_CHUNK_PAYLOAD && |payload| <= limit
    requires |trailer| == CHECKSUM_SIZE && TrailerAccepted(trailer, ChunkPrefix(|payload|, DOWNLOAD_CHUNK_FLAG) + payload)
    ensures Decode(RecordBytes(OPCODE_RESPONSE, opaquePayload)
                   + (ChunkPrefix(|payload|, DOWNLOAD_CHUNK_FLAG) + payload + trailer + surplus), |payload|, limit)
         == Progress(Complete, payload, |surplus|)
  {
    hide RecordBytes, Decode, DecodeChunk, TrailerAccepted, ChunkPrefix;
    var chunk := ChunkPrefix(|payload|, DOWNLOAD_CHUNK_FLAG) + payload + trailer + surplus;
    ResponseIsArchive(opaquePayload);
    ArchiveThenChunk(RecordBytes(OPCODE_RESPONSE, opaquePayload), chunk, |payload|, limit);
    FramedChunkDecodes(payload, trailer, surplus, limit);
  }

  lemma ResponseIsArchive(opaquePayload: seq<byte>)
    requires RECORD_OVERHEAD + |opaquePayload| <= ARCHIVE_CAPACITY
    ensures IsArchive(RecordBytes(OPCODE_RESPONSE, opaquePayload))
  {
    ParseInvertsBuild(OPCODE_RESPONSE, opaquePayload);
  }

  /** End to end: what the builders frame, the decoder delivers, however the stream is cut. */
  lemma BuildersThenDecoder(opaquePayload: seq<byte>, payload: seq<byte>, segments: seq<seq<byte>>, limit: nat)
    requires RECORD_OVERHEAD + |opaquePayload| <= ARCHIVE_CAPACITY
    requires 0 < |payload| <= MAX_CHUNK_PAYLOAD && |payload| <= limit
    requires Flatten(segments) == RecordBytes(OPCODE_RESPONSE, opaquePayload) + ChunkBytes(payload, DOWNLOAD_CHUNK_FLAG)
    ensures FeedSegments([], segments, |payload|, limit) == Progress(Complete, payload, 0)
  {
    var prefix := ChunkPrefix(|payload|, DOWNLOAD_CHUNK_FLAG);
    var trailer := StoreU32Be(Crc32.JamCrc(prefix + payload));
    StoreLoadU32(Crc32.JamCrc(prefix + payload));
    assert ChunkBytes(payload, DOWNLOAD_CHUNK_FLAG) == prefix + payload + trailer + [];
    FramedStreamDecodes(opaquePayload, payload, trailer, [], limit);
    assert [] + Flatten(segments) == Flatten(segments);
    SegmentsReadAsOne([], segments, |payload|, limit);
  }

  lemma CompleteChunkIsFramed(c: seq<byte>, expected: nat, limit: nat)
    returns (payload: seq<byte>, trailer: seq<byte>, surplus: seq<byte>)
    requires DecodeChunk(c, expected, limit).Progress? && DecodeChunk(c, expected, limit).phase == Complete
    ensures DecodeChunk(c, expected, limit) == Progress(Complete, payload, |surplus|)
    ensures |payload| == expected <= MAX_CHUNK_PAYLOAD && |trailer| == CHECKSUM_SIZE
    ensures TrailerAccepted(trailer, ChunkPrefix(|payload|, DOWNLOAD_CHUNK_FLAG) + payload)
    ensures c == ChunkPrefix(|payload|, DOWNLOAD_CHUNK_FLAG) + payload + trailer + surplus
  {
    hide Crc32.JamCrc;
    var header, body := c[..CHUNK_PREFIX_SIZE], c[CHUNK_PREFIX_SIZE..];
    payload := body[..expected];
    var rest := body[expected..];
    assert c == header + payload + rest;
    FullPayload(header, payload, rest, expected, limit);
    trailer, surplus := rest[..CHECKSUM_SIZE], rest[CHECKSUM_SIZE..];
    LoadStoreU24(header[2..5]);
    assert header == ChunkPrefix(expected, DOWNLOAD_CHUNK_FLAG);
  }

  /** A stream framed as a response record, a chunk whose trailer is zero or its checksum, and a surplus. */
  ghost predicate FramedAs(s: seq<byte>, payload: seq<byte>, surplusLength: nat) {
    exists opaquePayload: seq<byte>, trailer: seq<byte>, surplus: seq<byte> ::
      && RECORD_OVERHEAD + |opaquePayload| <= ARCHIVE_CAPACITY
      && |payload| <= MAX_CHUNK_PAYLOAD
      && |trailer| == CHECKSUM_SIZE && |surplus| == surplusLength
      && (trailer == [0, 0, 0, 0]
          || trailer == StoreU32Be(Crc32.JamCrc(ChunkPrefix(|payload|, DOWNLOAD_CHUNK_FLAG) + payload)))
      && s == RecordBytes(OPCODE_RESPONSE, opaquePayload)
              + (ChunkPrefix(|payload|, DOWNLOAD_CHUNK_FLAG) + payload + trailer + surplus)
  }

  lemma CompleteIsFramed(s: seq<byte>, payload: seq<byte>, surplusLength: nat, limit: nat)
    requires 0 < |payload|
    requires Decode(s, |payload|, limit) == Progress(Complete, payload, surplusLength)
    ensures FramedAs(s, payload, surplusLength)
  {
    hide ParseRecord, DecodeChunk, RecordBytes, TrailerAccepted, ChunkPrefix;
    var record, c := s[..Target(s)], s[Target(s)..];
    BuildInvertsParse(record);
    var opaquePayload := ParseRecord(record).view.payload;
    var delivered, trailer, surplus := CompleteChunkIsFramed(c, |payload|, limit);
    assert s == record + c;
    TrailerIsEither(trailer, ChunkPrefix(|payload|, DOWNLOAD_CHUNK_FLAG) + payload);
    RecordLength(OPCODE_RESPONSE, opaquePayload);
  }

  lemma RecordLength(opcode: u16, payload: seq<byte>)
    requires RecordFits(payload)
    ensures |RecordBytes(opcode, payload)| == RECORD_OVERHEAD + |payload|
  {
    SealMatches(RecordBody(opcode, payload));
  }

  /** Decoding completes with a payload and a surplus exactly on the streams framed so. */
  lemma CompleteIffFramed(s: seq<byte>, payload: seq<byte>, surplusLength: nat, limit: nat)
    requires 0 < |payload| <= limit
    ensures Decode(s, |payload|, limit) == Progress(Complete, payload, surplusLength)
       <==> FramedAs(s, payload, surplusLength)
  {
    hide Decode, RecordBytes, TrailerAccepted, ChunkPrefix;
    if Decode(s, |payload|, limit) == Progress(Complete, payload, surplusLength) {
      CompleteIsFramed(s, payload, surplusLength, limit);
    }
    if FramedAs(s, payload, surplusLength) {
      var opaquePayload: seq<byte>, trailer: seq<byte>, surplus: seq<byte> :|
        && RECORD_OVERHEAD + |opaquePayload| <= ARCHIVE_CAPACITY
        && |payload| <= MAX_CHUNK_PAYLOAD
        && |trailer| == CHECKSUM_SIZE && |surplus| == surplusLength
        && (trailer == [0, 0, 0, 0]
            || trailer == StoreU32Be(Crc32.JamCrc(ChunkPrefix(|payload|, DOWNLOAD_CHUNK_FLAG) + payload)))
        && s == RecordBytes(OPCODE_RESPONSE, opaquePayload)
                + (ChunkPrefix(|payload|, DOWNLOAD_CHUNK_FLAG) + payload + trailer + surplus);
      TrailerIsEither(trailer, ChunkPrefix(|payload|, DOWNLOAD_CHUNK_FLAG) + payload);
      FramedStreamDecodes(opaquePayload, payload, trailer, surplus, limit);
    }
  }

  // ---- Damage on the wire ------------------------------------------------------

  /** The two trailers a device may send, as bytes. */
  lemma TrailerIsEither(trailer: seq<byte>, body: seq<byte>)
    requires |trailer| == CHECKSUM_SIZE
    ensures TrailerAccepted(trailer, body) <==> trailer == [0, 0, 0, 0] || trailer == StoreU32Be(Crc32.JamCrc(body))
  {
    LoadStoreU32Be(trailer);
    StoreLoadU32(Crc32.JamCrc(body));
  }

  /** A chunk is complete with either trailer, and fails its checksum with any other four bytes. */
  lemma TrailerDecides(header: seq<byte>, payload: seq<byte>, trailer: seq<byte>, rest: seq<byte>, limit: nat)
    requires |header| == CHUNK_PREFIX_SIZE && HeaderAccepted(header, |payload|)
    requires |payload| <= limit && |trailer| == CHECKSUM_SIZE
    ensures DecodeChunk(header + payload + (trailer + rest), |payload|, limit) ==
            if trailer == [0, 0, 0, 0] || trailer == StoreU32Be(Crc32.JamCrc(header + payload))
            then Progress(Complete, payload, |rest|) else Failed(InvalidChecksum, payload)
  {
    hide HeaderAccepted, DecodeChunk, TrailerAccepted, Crc32.JamCrc;
    FullPayload(header, payload, trailer + rest, |payload|, limit);
    assert (trailer + rest)[..CHECKSUM_SIZE] == trailer;
    TrailerIsEither(trailer, header + payload);
  }

  /**
   * A payload that was damaged within four consecutive bytes on its way is refused, however the stream is cut and
   * whatever follows it, unless its checksum is the zero that stands for none.
   */
  lemma DamagedDownloadRefused(opaquePayload: seq<byte>, sent: seq<byte>, received: seq<byte>, at: nat,
                               surplus: seq<byte>, segments: seq<seq<byte>>, limit: nat)
    requires RECORD_OVERHEAD + |opaquePayload| <= ARCHIVE_CAPACITY
    requires 0 < |sent| <= MAX_CHUNK_PAYLOAD && |sent| <= limit
    requires Crc32.DifferInWindow(sent, received, at)
    requires var prefix := ChunkPrefix(|sent|, DOWNLOAD_CHUNK_FLAG);
             var checksum := Crc32.JamCrc(prefix + sent);
             && checksum != 0
             && Flatten(segments) == RecordBytes(OPCODE_RESPONSE, opaquePayload)
                                     + (prefix + received + (StoreU32Be(checksum) + surplus))
    ensures FeedSegments([], segments, |sent|, limit) == Failed(InvalidChecksum, received)
  {
    hide RecordBytes, Decode, DecodeChunk, HeaderAccepted, ChunkPrefix, Crc32.JamCrc, Crc32.DifferInWindow;
    var prefix := ChunkPrefix(|sent|, DOWNLOAD_CHUNK_FLAG);
    var checksum := Crc32.JamCrc(prefix + sent);
    SameLengths(sent, received, at);
    BehindPrefix(prefix, sent, received, at);
    Crc32.JamCrcTellsApart(prefix + sent, prefix + received, |prefix| + at);
    ChecksumBytesDiffer(checksum, Crc32.JamCrc(prefix + received));
    BuiltHeaderAccepted(|sent|);
    TrailerDecides(prefix, received, StoreU32Be(checksum), surplus, limit);
    ResponseIsArchive(opaquePayload);
    ArchiveThenChunk(RecordBytes(OPCODE_RESPONSE, opaquePayload), prefix + received + (StoreU32Be(checksum) + surplus),
                     |sent|, limit);
    assert [] + Flatten(segments) == Flatten(segments);
    SegmentsReadAsOne([], segments, |sent|, limit);
  }

  lemma SameLengths(sent: seq<byte>, received: seq<byte>, at: nat)
    requires Crc32.DifferInWindow(sent, received, at)
    ensures |sent| == |received|
  {
  }

  lemma BehindPrefix(prefix: seq<byte>, sent: seq<byte>, received: seq<byte>, at: nat)
    requires Crc32.DifferInWindow(sent, received, at)
    ensures Crc32.DifferInWindow(prefix + sent, prefix + received, |prefix| + at)
  {
    assert (prefix + sent)[|prefix|..] == sent && (prefix + received)[|prefix|..] == received;
  }

  lemma ChecksumBytesDiffer(checksum: u32, other: u32)
    requires checksum != 0 && checksum != other
    ensures StoreU32Be(checksum) != [0, 0, 0, 0] && StoreU32Be(checksum) != StoreU32Be(other)
  {
    StoreLoadU32(checksum);
    StoreLoadU32(other);
    assert LoadU32Be([0, 0, 0, 0]) == 0;
  }

  // ---- The decoder object ------------------------------------------------------

  /** A payload destination that refuses the first piece that would exceed its limit. */
  class Sink {
    const limit: nat
    var received: seq<byte>

    constructor (limit: nat)
      ensures this.limit == limit && received == []
    {
      this.limit := limit;
      received := [];
    }

    method Accept(data: seq<byte>) returns (ok: bool)
      modifies this
      ensures ok == (|old(received)| + |data| <= limit)
      ensures received == old(received) + if ok then data else []
    {
      ok := |received| + |data| <= limit;
      if ok {
        received := received + data;
      }
    }
  }

  class Decoder {
    var state: Phase
    const expectedPayloadSize: nat
    const archive: array<byte>
    var archiveSize: nat
    var archiveTargetSize: nat
    const chunkHeader: array<byte>
    var chunkHeaderSize: nat
    var payloadSize: nat
    var payloadReceived: nat
    const trailer: array<byte>
    var trailerSize: nat
    var chunkCrc: u32
    var trailingBytes: nat

    /** Every byte fed so far: an archive record, then the chunk and what follows it. */
    ghost var consumed: seq<byte>
    ghost var record: seq<byte>
    ghost var chunk: seq<byte>

    ghost predicate Shape() {
      && archive.Length == ARCHIVE_CAPACITY
      && chunkHeader.Length == CHUNK_PREFIX_SIZE
      && trailer.Length == CHECKSUM_SIZE
      && archive != chunkHeader && archive != trailer && chunkHeader != trailer
    }

    /** The fields hold exactly the part of the stream they have room for. */
    ghost predicate Valid(sink: Sink)
      reads this, archive, chunkHeader, trailer, sink
    {
      && Shape()
      && if state == Archive then InArchive(sink) else PastArchive() && InChunk(sink)
    }

    ghost predicate InArchive(sink: Sink)
      requires Shape()
      reads this, archive, sink
    {
      && archiveSize == |consumed| <= ARCHIVE_CAPACITY
      && archive[..archiveSize] == consumed
      && !StartsBadly(consumed)
      && archiveTargetSize == (if archiveSize < 5 then 0 else Target(consumed))
      && (archiveSize >= 5 ==> TargetAllowed(archiveTargetSize) && archiveSize < archiveTargetSize)
      && chunkHeaderSize == payloadReceived == trailerSize == trailingBytes == 0
      && sink.received == []
      && chunkCrc == Crc32.INITIAL
    }

    ghost predicate PastArchive()
      reads this
    {
      consumed == record + chunk && IsArchive(record)
    }

    ghost predicate InChunk(sink: Sink)
      requires Shape()
      reads this, chunkHeader, trailer, sink
    {
      match state
      case Archive => false
      case ChunkHeader => InHeader(sink)
      case Payload => InPayload(sink)
      case Trailer => InTrailer(sink)
      case Complete => IsComplete(sink)
    }

    ghost predicate InHeader(sink: Sink)
      requires Shape()
      reads this, chunkHeader, sink
    {
      && chunkHeaderSize < CHUNK_PREFIX_SIZE
      && chunk == chunkHeader[..chunkHeaderSize]
      && sink.received == [] && payloadReceived == trailerSize == trailingBytes == 0
      && chunkCrc == Crc32.INITIAL
    }

    ghost predicate InPayload(sink: Sink)
      requires Shape()
      reads this, chunkHeader, sink
    {
      && HeaderAccepted(chunkHeader[..], expectedPayloadSize)
      && chunk == chunkHeader[..] + sink.received
      && |sink.received| == payloadReceived < payloadSize == expectedPayloadSize
      && |sink.received| <= sink.limit && trailerSize == trailingBytes == 0
      && chunkCrc == Crc32.Crc(Crc32.INITIAL, chunk)
    }

    ghost predicate InTrailer(sink: Sink)
      requires Shape()
      reads this, chunkHeader, trailer, sink
    {
      && HeaderAccepted(chunkHeader[..], expectedPayloadSize)
      && trailerSize < CHECKSUM_SIZE
      && chunk == chunkHeader[..] + sink.received + trailer[..trailerSize]
      && |sink.received| == expectedPayloadSize <= sink.limit && trailingBytes == 0
      && chunkCrc == Crc32.Crc(Crc32.INITIAL, chunkHeader[..] + sink.received)
    }

    ghost predicate IsComplete(sink: Sink)
      requires Shape()
      reads this, chunkHeader, trailer, sink
    {
      && HeaderAccepted(chunkHeader[..], expectedPayloadSize)
      && |sink.received| == expectedPayloadSize <= sink.limit
      && TrailerAccepted(trailer[..], chunkHeader[..] + sink.received)
      && |chunk| == CHUNK_PREFIX_SIZE + expectedPayloadSize + CHECKSUM_SIZE + trailingBytes
      && chunk == chunkHeader[..] + sink.received
                  + (trailer[..] + chunk[CHUNK_PREFIX_SIZE + expectedPayloadSize + CHECKSUM_SIZE..])
    }

    /** The fields say no more and no less than the one-shot reading of what was consumed. */
    lemma ValidIsOneShot(sink: Sink)
      requires Valid(sink) && expectedPayloadSize > 0
      ensures Decode(consumed, expectedPayloadSize, sink.limit) == Progress(state, sink.received, trailingBytes)
    {
      if state != Archive {
        ArchiveThenChunk(record, chunk, expectedPayloadSize, sink.limit);
        ChunkIsOneShot(sink);
      }
    }

    lemma ChunkIsOneShot(sink: Sink)
      requires Shape() && InChunk(sink) && expectedPayloadSize > 0
      ensures DecodeChunk(chunk, expectedPayloadSize, sink.limit) == Progress(state, sink.received, trailingBytes)
    {
      if state == Payload {
        PartialPayload(chunkHeader[..], sink.received, expectedPayloadSize, sink.limit);
      } else if state == Trailer {
        FullPayload(chunkHeader[..], sink.received, trailer[..trailerSize], expectedPayloadSize, sink.limit);
      } else if state == Complete {
        var rest := trailer[..] + chunk[CHUNK_PREFIX_SIZE + expectedPayloadSize + CHECKSUM_SIZE..];
        FullPayload(chunkHeader[..], sink.received, rest, expectedPayloadSize, sink.limit);
        assert rest[..CHECKSUM_SIZE] == trailer[..];
      }
    }

    constructor (expectedPayloadSize: nat)
      ensures Shape() && fresh(archive) && fresh(chunkHeader) && fresh(trailer)
      ensures consumed == [] && this.expectedPayloadSize == expectedPayloadSize
      ensures forall sink: Sink | sink.received == [] :: Valid(sink)
    {
      state := Archive;
      this.expectedPayloadSize := expectedPayloadSize;
      archive := new byte[ARCHIVE_CAPACITY](_ => 0);
      chunkHeader := new byte[CHUNK_PREFIX_SIZE](_ => 0);
      trailer := new byte[CHECKSUM_SIZE](_ => 0);
      archiveSize, archiveTargetSize, chunkHeaderSize := 0, 0, 0;
      payloadSize, payloadReceived, trailerSize := 0, 0, 0;
      chunkCrc := Crc32.INITIAL;
      trailingBytes := 0;
      consumed, record, chunk := [], [], [];
    }

    method ValidateArchive() returns (status: Status)
      requires Shape() && archiveSize <= ARCHIVE_CAPACITY
      ensures status == ArchiveStatus(archive[..archiveSize])
    {
      var parsed := ParseRecord(archive[..archiveSize]);
      match parsed
      case Rejected(s) => status := s;
      case Parsed(view) => status := if view.opcode == OPCODE_RESPONSE then Ok else InvalidFrame;
    }

    /** Copies what the announced size, or the five leading bytes, still needs. */
    method TakeArchive(available: seq<byte>, sink: Sink) returns (count: nat)
      requires Shape() && InArchive(sink) && available != []
      modifies `archiveSize, `consumed, archive
      ensures 0 < count <= |available|
      ensures consumed == old(consumed) + available[..count]
      ensures archiveSize == |consumed| <= ARCHIVE_CAPACITY && archive[..archiveSize] == consumed
      ensures archiveSize <= if archiveTargetSize > 0 then archiveTargetSize else 5
      ensures archiveTargetSize > 0 ==>
                archiveSize > 5 && !StartsBadly(consumed) && archiveTargetSize == Target(consumed) && TargetAllowed(archiveTargetSize)
    {
      var needed := if archiveTargetSize > 0 then archiveTargetSize - archiveSize else 5 - archiveSize;
      count := if needed < |available| then needed else |available|;
      CopyInto(archive, archiveSize, available[..count]);
      archiveSize := archiveSize + count;
      ghost var before := consumed;
      consumed := consumed + available[..count];
      assert archiveTargetSize > 0 ==> consumed[3..5] == before[3..5];
    }

    method FeedArchive(available: seq<byte>, sink: Sink) returns (status: Status, count: nat)
      requires Valid(sink) && state == Archive && available != []
      modifies this, archive
      ensures 0 < count <= |available|
      ensures consumed == old(consumed) + available[..count]
      ensures status == Ok ==> Valid(sink)
      ensures status != Ok ==> Decode(consumed, expectedPayloadSize, sink.limit) == Failed(status, sink.received)
    {
      hide Decode, ArchiveStatus, InPayload, InTrailer, IsComplete;
      count := TakeArchive(available, sink);
      BadArchive(consumed, expectedPayloadSize, sink.limit);
      if archiveSize >= 3 && (archive[0] != 0x02 || archive[1] != 0x00 || archive[2] != 0x00) {
        return InvalidFrame, count;
      }
      SameLength(archive[..], consumed, archiveSize);
      if archiveSize == 5 && archiveTargetSize == 0 {
        archiveTargetSize := LoadU16Be(archive[3..5]) + 7;
        if archiveTargetSize < RECORD_OVERHEAD || archiveTargetSize > ARCHIVE_CAPACITY {
          return InvalidFrame, count;
        }
      }
      if archiveTargetSize > 0 && archiveSize == archiveTargetSize {
        var verdict := ValidateArchive();
        if verdict != Ok {
          return verdict, count;
        }
        state, record, chunk := ChunkHeader, consumed, [];
      }
      return Ok, count;
    }

    method FeedHeader(available: seq<byte>, sink: Sink) returns (status: Status, count: nat)
      requires Shape() && state == ChunkHeader && InHeader(sink) && available != [] && expectedPayloadSize > 0
      modifies `chunkHeaderSize, `chunk, `payloadSize, `chunkCrc, `state, chunkHeader
      ensures 0 < count <= |available|
      ensures chunk == old(chunk) + available[..count]
      ensures status == Ok ==> if state == ChunkHeader then InHeader(sink) else state == Payload && InPayload(sink)
      ensures status != SinkError
      ensures status != Ok ==> DecodeChunk(chunk, expectedPayloadSize, sink.limit) == Failed(status, sink.received)
    {
      var needed := CHUNK_PREFIX_SIZE - chunkHeaderSize;
      count := if needed < |available| then needed else |available|;
      CopyInto(chunkHeader, chunkHeaderSize, available[..count]);
      chunkHeaderSize := chunkHeaderSize + count;
      chunk := chunk + available[..count];
      status := Ok;
      if chunkHeaderSize == CHUNK_PREFIX_SIZE {
        assert chunkHeader[..] == chunk;
        status := JudgeHeader(sink);
      }
    }

    method JudgeHeader(sink: Sink) returns (status: Status)
      requires Shape() && chunkHeader[..] == chunk
      requires sink.received == [] && payloadReceived == trailerSize == trailingBytes == 0 && expectedPayloadSize > 0
      requires chunkCrc == Crc32.INITIAL
      modifies `payloadSize, `chunkCrc, `state
      ensures status == Ok ==> state == Payload && InPayload(sink)
      ensures status != SinkError
      ensures status != Ok ==> DecodeChunk(chunk, expectedPayloadSize, sink.limit) == Failed(status, sink.received)
    {
      hide Crc32.Crc, Crc32.JamCrc;
      assert chunk[..CHUNK_PREFIX_SIZE] == chunk;
      assert chunkHeader[2..5] == chunk[2..5];
      var declared := LoadU24Be(chunkHeader[2..5]);
      if chunkHeader[0] != 0x02 || chunkHeader[1] != 0x00 || chunkHeader[5] != 0x00
         || chunkHeader[6] != DOWNLOAD_CHUNK_FLAG || declared < CHECKSUM_SIZE {
        return InvalidFrame;
      }
      payloadSize := declared - CHECKSUM_SIZE;
      if payloadSize != expectedPayloadSize {
        return InvalidFrame;
      }
      chunkCrc := Crc32.Update(chunkCrc, chunkHeader[..]);
      state := Payload;
      return Ok;
    }

    method FeedPayload(available: seq<byte>, sink: Sink) returns (status: Status, count: nat)
      requires Shape() && state == Payload && InPayload(sink) && available != []
      modifies `chunk, `chunkCrc, `payloadReceived, `state, sink
      ensures 0 < count <= |available|
      ensures chunk == old(chunk) + available[..count]
      ensures status == Ok ==> if state == Payload then InPayload(sink) else state == Trailer && InTrailer(sink)
      ensures status != Ok ==> status == SinkError
      ensures status != Ok ==> DecodeChunk(chunk, expectedPayloadSize, sink.limit) == Failed(SinkError, [])
    {
      hide DecodeChunk, HeaderAccepted, Crc32.Crc;
      var needed := payloadSize - payloadReceived;
      count := if needed < |available| then needed else |available|;
      var piece := available[..count];
      ghost var before, part := chunk, sink.received + piece;
      chunk := chunk + piece;
      assert chunk == chunkHeader[..] + part;
      var accepted := sink.Accept(piece);
      if !accepted {
        RefusedPayload(chunkHeader[..], part, expectedPayloadSize, sink.limit);
        return SinkError, count;
      }
      Crc32.CrcConcat(Crc32.INITIAL, before, piece);
      chunkCrc := Crc32.Update(chunkCrc, piece);
      payloadReceived := payloadReceived + count;
      if payloadReceived == payloadSize {
        assert trailer[..0] == [];
        state := Trailer;
      }
      return Ok, count;
    }

    method FeedTrailer(available: seq<byte>, sink: Sink) returns (status: Status, count: nat)
      requires Shape() && state == Trailer && InTrailer(sink) && available != []
      modifies `chunk, `chunkCrc, `trailerSize, `state, trailer
      ensures 0 < count <= |available|
      ensures chunk == old(chunk) + available[..count]
      ensures status == Ok ==> if state == Trailer then InTrailer(sink) else state == Complete && IsComplete(sink)
      ensures status != SinkError
      ensures status != Ok ==> DecodeChunk(chunk, expectedPayloadSize, sink.limit) == Failed(status, sink.received)
    {
      hide DecodeChunk, HeaderAccepted, Crc32.Crc;
      var needed := CHECKSUM_SIZE - trailerSize;
      count := if needed < |available| then needed else |available|;
      CopyInto(trailer, trailerSize, available[..count]);
      trailerSize := trailerSize + count;
      chunk := chunk + available[..count];
      assert chunk == chunkHeader[..] + sink.received + trailer[..trailerSize];
      if trailerSize == CHECKSUM_SIZE {
        assert trailer[..CHECKSUM_SIZE] == trailer[..];
        status := JudgeTrailer(sink);
        return;
      }
      status := Ok;
    }

    method JudgeTrailer(sink: Sink) returns (status: Status)
      requires Shape() && HeaderAccepted(chunkHeader[..], expectedPayloadSize)
      requires chunk == chunkHeader[..] + sink.received + trailer[..]
      requires |sink.received| == expectedPayloadSize <= sink.limit && trailingBytes == 0
      requires chunkCrc == Crc32.Crc(Crc32.INITIAL, chunkHeader[..] + sink.received)
      modifies `chunkCrc, `state
      ensures status == Ok ==> state == Complete && IsComplete(sink)
      ensures status != SinkError
      ensures status != Ok ==> DecodeChunk(chunk, expectedPayloadSize, sink.limit) == Failed(status, sink.received)
    {
      hide DecodeChunk, HeaderAccepted, Crc32.Crc;
      ghost var body := chunkHeader[..] + sink.received;
      Crc32.CrcConcat(Crc32.INITIAL, body, [0, 0, 0, 0]);
      chunkCrc := Crc32.Update(chunkCrc, [0, 0, 0, 0]);
      var trailerZero := trailer[..] == [0, 0, 0, 0];
      var trailerValid := LoadU32Be(trailer[..]) == chunkCrc;
      if !trailerZero && !trailerValid {
        FullPayload(chunkHeader[..], sink.received, trailer[..], expectedPayloadSize, sink.limit);
        assert trailer[..][..CHECKSUM_SIZE] == trailer[..];
        return InvalidChecksum;
      }
      state := Complete;
      assert chunk[CHUNK_PREFIX_SIZE + expectedPayloadSize + CHECKSUM_SIZE..] == [];
      assert chunk == body + (trailer[..] + []);
      return Ok;
    }

    /** Surplus bytes after a complete chunk are counted, never delivered. */
    method CountSurplus(available: seq<byte>, sink: Sink) returns (status: Status)
      requires Shape() && state == Complete && IsComplete(sink)
      modifies `chunk, `trailingBytes
      ensures status == Ok && IsComplete(sink)
      ensures chunk == old(chunk) + available
    {
      trailingBytes := trailingBytes + |available|;
      ghost var end := CHUNK_PREFIX_SIZE + expectedPayloadSize + CHECKSUM_SIZE;
      assert (chunk + available)[end..] == chunk[end..] + available;
      assert chunk + available == chunkHeader[..] + sink.received + (trailer[..] + (chunk + available)[end..]);
      chunk := chunk + available;
      return Ok;
    }

    /** One turn through the phase the chunk is in. */
    method AdvanceChunk(available: seq<byte>, sink: Sink) returns (status: Status, count: nat)
      requires Shape() && InChunk(sink) && available != [] && expectedPayloadSize > 0
      modifies `chunk, `chunkHeaderSize, `payloadSize, `chunkCrc, `payloadReceived, `trailerSize, `trailingBytes, `state,
               chunkHeader, trailer, sink
      ensures 0 < count <= |available|
      ensures chunk == old(chunk) + available[..count]
      ensures status == Ok ==> InChunk(sink)
      ensures status != Ok ==> DecodeChunk(chunk, expectedPayloadSize, sink.limit)
                               == Failed(status, if status == SinkError then [] else sink.received)
    {
      hide DecodeChunk, HeaderAccepted, TrailerAccepted, Crc32.Crc;
      assert available[..|available|] == available;
      if state == Complete {
        count := |available|;
        status := CountSurplus(available, sink);
      } else if state == ChunkHeader {
        status, count := FeedHeader(available, sink);
      } else if state == Payload {
        status, count := FeedPayload(available, sink);
      } else {
        status, count := FeedTrailer(available, sink);
      }
    }

    /** The chunk phases, with the archive record kept in front. */
    method FeedChunk(available: seq<byte>, sink: Sink) returns (status: Status, count: nat)
      requires Valid(sink) && state != Archive && available != [] && expectedPayloadSize > 0
      modifies this, chunkHeader, trailer, sink
      ensures 0 < count <= |available|
      ensures consumed == old(consumed) + available[..count]
      ensures status == Ok ==> Valid(sink)
      ensures status == Decode(consumed, expectedPayloadSize, sink.limit).StatusOf()
      ensures status != Ok && status != SinkError ==>
                Decode(consumed, expectedPayloadSize, sink.limit).delivered == sink.received
    {
      hide Decode, DecodeChunk, IsArchive, HeaderAccepted, TrailerAccepted, Crc32.Crc;
      status, count := AdvanceChunk(available, sink);
      consumed := consumed + available[..count];
      assert consumed == record + chunk;
      ArchiveThenChunk(record, chunk, expectedPayloadSize, sink.limit);
      if status == Ok {
        ChunkIsOneShot(sink);
      }
    }

    /**
     * One call: the status is that of everything consumed, and unless the sink refused,
     * so are the delivered bytes.
     */
    method Feed(data: seq<byte>, sink: Sink) returns (status: Status)
      requires Valid(sink)
      modifies this, archive, chunkHeader, trailer, sink
      ensures expectedPayloadSize == 0 ==> status == InvalidArgument && Valid(sink) && consumed == old(consumed)
      ensures expectedPayloadSize > 0 ==>
                status == Decode(old(consumed) + data, expectedPayloadSize, sink.limit).StatusOf()
      ensures status == Ok ==> Valid(sink) && consumed == old(consumed) + data
      ensures expectedPayloadSize > 0 && status != SinkError ==>
                sink.received == Decode(old(consumed) + data, expectedPayloadSize, sink.limit).delivered
    {
      hide Decode, Valid;
      if expectedPayloadSize == 0 {
        return InvalidArgument;
      }
      var offset := 0;
      while offset < |data|
        invariant 0 <= offset <= |data|
        invariant Valid(sink) && consumed == old(consumed) + data[..offset]
      {
        var count: nat;
        var available := data[offset..];
        if state == Archive {
          status, count := FeedArchive(available, sink);
        } else {
          status, count := FeedChunk(available, sink);
        }
        assert data[..offset + count] == data[..offset] + available[..count];
        offset := offset + count;
        if status != Ok {
          ErrorStable(consumed, data[offset..], expectedPayloadSize, sink.limit);
          WholeAgain(old(consumed), data, offset, consumed);
          return;
        }
      }
      assert data[..|data|] == data;
      ValidIsOneShot(sink);
      return Ok;
    }
  }

  /** The length field of a buffer is that of what it holds. */
  lemma SameLength(whole: seq<byte>, front: seq<byte>, size: nat)
    requires size <= |whole| && whole[..size] == front
    ensures size >= 5 ==> whole[3..5] == front[3..5]
  {
    if size >= 5 {
      assert whole[..size][3..5] == whole[3..5];
    }
  }

  lemma WholeAgain(before: seq<byte>, data: seq<byte>, offset: nat, now: seq<byte>)
    requires offset <= |data| && now == before + data[..offset]
    ensures now + data[offset..] == before + data
  {
    assert data == data[..offset] + data[offset..];
  }

  /** The transport's use of the decoder: feed slice after slice until the first error or the end of the chunk. */
  method DecodeSegments(segments: seq<seq<byte>>, expected: nat, sink: Sink)
    returns (status: Status, decoder: Decoder, used: nat)
    requires expected > 0 && sink.received == []
    modifies sink
    ensures used <= |segments|
    ensures status == Decode(Flatten(segments[..used]), expected, sink.limit).StatusOf()
    ensures status != SinkError ==> sink.received == Decode(Flatten(segments[..used]), expected, sink.limit).delivered
    ensures status == Ok ==> Decode(Flatten(segments[..used]), expected, sink.limit)
                             == Progress(decoder.state, sink.received, decoder.trailingBytes)
    ensures status == Ok && used < |segments| ==> decoder.state == Complete
  {
    hide Decode, Decoder.Valid;
    decoder := new Decoder(expected);
    status, used := Ok, 0;
    while used < |segments| && decoder.state != Complete
      invariant used <= |segments|
      invariant fresh(decoder) && fresh(decoder.archive) && fresh(decoder.chunkHeader) && fresh(decoder.trailer)
      invariant decoder.expectedPayloadSize == expected
      invariant status == Ok && decoder.Valid(sink) && decoder.consumed == Flatten(segments[..used])
    {
      assert segments[..used + 1] == segments[..used] + [segments[used]];
      FlattenAppend(segments[..used], segments[used]);
      status := decoder.Feed(segments[used], sink);
      used := used + 1;
      if status != Ok {
        return;
      }
    }
    decoder.ValidIsOneShot(sink);
  }
}
