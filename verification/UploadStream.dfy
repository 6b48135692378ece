/** Streaming one file chunk to the device as bulk packets, without holding the file. */
module UploadStream {
  import opened Bytes
  import opened AccessPortProtocol
  import Crc32

  /** Bulk packet size of a high-speed endpoint, section 5.8.3 of USB 2.0. */
  const BULK_PACKET_BYTES: nat := 512
  const SOURCE_READ_BYTES: nat := 4096

  /** The stored file.  A read may fail, or return fewer bytes than wanted. */
  class UploadSource {
    const data: seq<byte>
    var position: nat
    /** Some read or rewinding failed. */
    ghost var troubled: bool

    ghost predicate Valid()
      reads this
    {
      position <= |data|
    }

    constructor (data: seq<byte>)
      ensures Valid() && this.data == data && position == 0 && !troubled
    {
      this.data := data;
      position, troubled := 0, false;
    }

    /** The next bytes of the file, as many as there are. */
    ghost function Ahead(size: nat): seq<byte>
      requires Valid()
      reads this
    {
      data[position..if position + size <= |data| then position + size else |data|]
    }

    method Read(wanted: nat) returns (ok: bool, piece: seq<byte>)
      requires Valid() && wanted > 0
      modifies this
      ensures Valid() && position == old(position) + |piece|
      ensures |piece| <= wanted && piece == data[old(position)..position]
      ensures ok && piece == [] ==> position == |data|
      ensures if ok then troubled == old(troubled) else troubled
    {
      ok := *;
      var count: int := *;
      if !ok {
        troubled := true;
        return false, [];
      }
      var available := if wanted < |data| - position then wanted else |data| - position;
      if count < 1 || count > available {
        count := available;
      }
      piece := data[position..position + count];
      position := position + count;
    }

    method Rewind() returns (ok: bool)
      modifies this
      ensures Valid()
      ensures ok ==> position == 0
      ensures if ok then troubled == old(troubled) else troubled
    {
      ok := *;
      position, troubled := 0, troubled || !ok;
    }
  }

  /** The endpoint. A packet may not be taken, and the time for the whole upload may run out. */
  class BulkPipe {
    var sent: seq<seq<byte>>
    ghost var troubled: bool

    constructor ()
      ensures sent == [] && !troubled
    {
      sent, troubled := [], false;
    }

    method Send(packet: seq<byte>) returns (ok: bool)
      modifies this
      ensures if ok then sent == old(sent) + [packet] && troubled == old(troubled) else sent == old(sent) && troubled
    {
      ok := *;
      if ok {
        sent := sent + [packet];
      }
      troubled := troubled || !ok;
    }

    method Overdue() returns (late: bool)
      modifies this`troubled
      ensures if late then troubled else troubled == old(troubled)
    {
      late := *;
      troubled := troubled || late;
    }
  }

  /** First pass: the checksum of prefix, file and zero trailer; the file must have exactly this size. */
  method CalculateChunkCrc(source: UploadSource, size: nat, prefix: seq<byte>) returns (ok: bool, crc: u32)
    requires source.Valid() && source.position == 0
    modifies source
    ensures source.Valid()
    ensures ok ==> size == |source.data| && source.position == 0
    ensures ok ==> crc == Crc32.JamCrc(prefix + source.data)
    ensures !source.troubled ==> (ok <==> size == |source.data|)
    ensures old(source.troubled) ==> source.troubled
  {
    hide Crc32.Crc, Crc32.JamCrc;
    crc := 0;
    var received := 0;
    var state := new Crc32.JamCrcStream();
    state.Absorb(prefix);
    while received < size
      invariant received == source.position <= size && source.Valid() && (old(source.troubled) ==> source.troubled)
      invariant fresh(state) && state.Valid() && state.absorbed == prefix + source.data[..received]
    {
      var wanted := if size - received < SOURCE_READ_BYTES then size - received else SOURCE_READ_BYTES;
      var readOk, piece := source.Read(wanted);
      if !readOk || |piece| == 0 || |piece| > wanted {
        return false, 0;
      }
      state.Absorb(piece);
      received := received + |piece|;
      assert prefix + source.data[..received] == prefix + source.data[..received - |piece|] + piece;
    }
    var readOk, extra := source.Read(1);
    if !readOk || |extra| != 0 {
      return false, 0;
    }
    assert source.data[..received] == source.data;
    crc := state.FinishZeroedTrailer();
    ok := source.Rewind();
  }

  /** Fills one packet with payload bytes until it is full or the payload ends. */
  method FillWithPayload(source: UploadSource, packet: array<byte>, start: nat, remaining: nat)
    returns (ok: bool, used: nat, left: nat)
    requires source.Valid() && packet.Length == BULK_PACKET_BYTES && start <= BULK_PACKET_BYTES
    modifies source, packet
    ensures source.Valid() && source.position >= old(source.position)
    ensures start <= used <= BULK_PACKET_BYTES && left + (source.position - old(source.position)) == remaining
    ensures packet[..used] == old(packet[..start]) + source.data[old(source.position)..source.position]
    ensures ok ==> used == BULK_PACKET_BYTES || left == 0
    ensures !ok ==> source.troubled || (source.position == |source.data| && left > 0)
    ensures old(source.troubled) ==> source.troubled
  {
    used, left := start, remaining;
    while used < BULK_PACKET_BYTES && left > 0
      invariant source.Valid() && source.position >= old(source.position)
      invariant start <= used <= BULK_PACKET_BYTES && left + (source.position - old(source.position)) == remaining
      invariant packet[..used] == old(packet[..start]) + source.data[old(source.position)..source.position]
      invariant old(source.troubled) ==> source.troubled
      decreases left
    {
      var wanted := if left < BULK_PACKET_BYTES - used then left else BULK_PACKET_BYTES - used;
      ghost var here := source.position;
      var readOk, piece := source.Read(wanted);
      CopyInto(packet, used, piece);
      used := used + |piece|;
      left := left - |piece|;
      assert source.data[old(source.position)..source.position] == source.data[old(source.position)..here] + piece;
      if !readOk || |piece| == 0 {
        return false, used, left;
      }
    }
    ok := true;
  }

  /** What has gone out once so much of prefix, payload and trailer has been used. */
  function Sent(prefix: seq<byte>, payload: seq<byte>, trailer: seq<byte>): seq<byte> {
    prefix + payload + trailer
  }

  predicate AllFull(packets: seq<seq<byte>>) {
    forall i | 0 <= i < |packets| :: |packets[i]| == BULK_PACKET_BYTES
  }

  lemma {:induction false} FullPacketsLength(packets: seq<seq<byte>>)
    requires AllFull(packets)
    ensures |Flatten(packets)| == BULK_PACKET_BYTES * |packets|
  {
    if packets != [] {
      FullPacketsLength(packets[1..]);
    }
  }

  /** Full packets and one last nonempty packet are as many as the rounded-up quotient. */
  lemma PacketCount(packets: seq<seq<byte>>)
    requires packets != [] && AllFull(packets[..|packets| - 1])
    requires 0 < |packets[|packets| - 1]| <= BULK_PACKET_BYTES
    ensures |packets| == (|Flatten(packets)| + BULK_PACKET_BYTES - 1) / BULK_PACKET_BYTES
  {
    var full, last := packets[..|packets| - 1], packets[|packets| - 1];
    assert packets == full + [last];
    FlattenAppend(full, last);
    FullPacketsLength(full);
  }

  /** One packet: the unsent prefix, then payload, then as much of the trailer as fits. */
  method FillPacket(source: UploadSource, packet: array<byte>, prefix: seq<byte>, trailer: seq<byte>,
                    prefixOffset: nat, remaining: nat, trailerOffset: nat)
    returns (ok: bool, used: nat, left: nat, trailerEnd: nat)
    requires source.Valid() && packet.Length == BULK_PACKET_BYTES
    requires prefixOffset <= |prefix| <= BULK_PACKET_BYTES && trailerOffset <= |trailer|
    modifies source, packet
    ensures source.Valid() && source.position >= old(source.position)
    ensures left + (source.position - old(source.position)) == remaining
    ensures used <= BULK_PACKET_BYTES && trailerOffset <= trailerEnd <= |trailer|
    ensures trailerEnd > trailerOffset ==> left == 0
    ensures packet[..used] == prefix[prefixOffset..] + source.data[old(source.position)..source.position]
                              + trailer[trailerOffset..trailerEnd]
    ensures ok ==> used == BULK_PACKET_BYTES || (left == 0 && trailerEnd == |trailer|)
    ensures !ok ==> source.troubled || (source.position == |source.data| && left > 0)
    ensures old(source.troubled) ==> source.troubled
  {
    trailerEnd := trailerOffset;
    CopyInto(packet, 0, prefix[prefixOffset..]);
    ok, used, left := FillWithPayload(source, packet, |prefix| - prefixOffset, remaining);
    if !ok {
      return;
    }
    if left == 0 && used < BULK_PACKET_BYTES && trailerOffset < |trailer| {
      var count := if |trailer| - trailerOffset < BULK_PACKET_BYTES - used
                   then |trailer| - trailerOffset else BULK_PACKET_BYTES - used;
      CopyInto(packet, used, trailer[trailerOffset..trailerOffset + count]);
      trailerEnd := trailerOffset + count;
      used := used + count;
    }
  }

  /** One turn of the second pass: fill a packet and send it. */
  method SendNext(source: UploadSource, pipe: BulkPipe, packet: array<byte>, prefix: seq<byte>, trailer: seq<byte>, prefixOffset: nat,
                  remaining: nat, trailerOffset: nat, ghost packets: seq<seq<byte>>, ghost payload: seq<byte>, ghost origin: nat,
                  ghost size: nat)
    returns (ok: bool, sent: seq<byte>, left: nat, trailerEnd: nat)
    requires source.Valid() && packet.Length == BULK_PACKET_BYTES && remaining <= size
    requires Underway(packets, prefix, payload, trailer, size, prefixOffset, size - remaining, trailerOffset)
    requires prefixOffset < |prefix| || remaining > 0 || trailerOffset < |trailer|
    requires prefixOffset <= |prefix| == CHUNK_PREFIX_SIZE && trailerOffset <= |trailer|
    requires origin + |payload| <= |source.data| && payload == source.data[origin..origin + |payload|]
    requires |payload| == size || origin + |payload| == |source.data|
    requires source.position == origin + (size - remaining)
    modifies source, pipe, packet
    ensures source.Valid()
    ensures (old(source.troubled) ==> source.troubled) && (old(pipe.troubled) ==> pipe.troubled)
    ensures |payload| == size && !source.troubled && !pipe.troubled ==> ok
    ensures pipe.sent == if ok then old(pipe.sent) + [sent] else old(pipe.sent)
    ensures ok ==>
              && left <= remaining && trailerOffset <= trailerEnd <= |trailer| && source.position == origin + (size - left)
              && Underway(packets + [sent], prefix, payload, trailer, size, |prefix|, size - left, trailerEnd)
              && (prefixOffset < |prefix| || left < remaining || trailerOffset < trailerEnd)
  {
    hide Underway;
    var used;
    ok, used, left, trailerEnd := FillPacket(source, packet, prefix, trailer, prefixOffset, remaining, trailerOffset);
    sent := packet[..used];
    if ok {
      ok := pipe.Send(sent);
    }
    if !ok {
      return;
    }
    SliceOfSlice(source.data, origin, origin + |payload|, size - remaining, size - left);
    UnderwayStep(packets, prefix, payload, trailer, size, prefixOffset, size - remaining, trailerOffset, size - left, trailerEnd, sent);
  }

  /**
   * Second pass: sends prefix, file bytes and checksum.  Whatever happens, what went out
   * is the beginning of that stream; on success it is all of it, in the fewest packets.
   */
  method StreamUploadChunk(source: UploadSource, pipe: BulkPipe, size: nat, prefix: seq<byte>, crc: u32)
    returns (ok: bool, packets: seq<seq<byte>>)
    requires source.Valid() && |prefix| == CHUNK_PREFIX_SIZE
    modifies source, pipe
    ensures pipe.sent == old(pipe.sent) + packets
    ensures !source.troubled && !pipe.troubled && |old(source.Ahead(size))| == size ==> ok
    ensures (old(source.troubled) ==> source.troubled) && (old(pipe.troubled) ==> pipe.troubled)
    ensures var stream := prefix + old(source.Ahead(size)) + StoreU32Be(crc);
            && Flatten(packets) <= stream
            && (ok ==> |old(source.Ahead(size))| == size && Flatten(packets) == stream)
            && (ok ==> |packets| == (|stream| + BULK_PACKET_BYTES - 1) / BULK_PACKET_BYTES)
    ensures ok ==> packets != [] && AllFull(packets[..|packets| - 1])
  {
    hide Flatten, StoreU32Be, Sent, AllFull, Underway;
    var packet := new byte[BULK_PACKET_BYTES](_ => 0);
    var trailer := Trailer(crc);
    var prefixOffset, payloadRemaining, trailerOffset := 0, size, 0;
    ghost var origin := source.position;
    ghost var payload := source.Ahead(size);
    packets := [];
    NothingUnderway(prefix, payload, trailer, size);
    while prefixOffset < CHUNK_PREFIX_SIZE || payloadRemaining > 0 || trailerOffset < CHECKSUM_SIZE
      invariant source.Valid() && fresh(packet)
      invariant 0 <= trailerOffset <= CHECKSUM_SIZE && 0 <= payloadRemaining <= size && 0 <= prefixOffset <= CHUNK_PREFIX_SIZE
      invariant source.position == origin + (size - payloadRemaining) && pipe.sent == old(pipe.sent) + packets
      invariant (old(source.troubled) ==> source.troubled) && (old(pipe.troubled) ==> pipe.troubled)
      invariant Underway(packets, prefix, payload, trailer, size, prefixOffset, size - payloadRemaining, trailerOffset)
      decreases CHUNK_PREFIX_SIZE - prefixOffset + payloadRemaining + CHECKSUM_SIZE - trailerOffset
    {
      UnderwayIsPrefix(packets, prefix, payload, trailer, size, prefixOffset, size - payloadRemaining, trailerOffset);
      var late := pipe.Overdue();
      if late {
        return false, packets;
      }
      var delivered, sent, left, trailerEnd := SendNext(source, pipe, packet, prefix, trailer, prefixOffset, payloadRemaining,
                                                        trailerOffset, packets, payload, origin, size);
      if !delivered {
        return false, packets;
      }
      packets := packets + [sent];
      assert old(pipe.sent) + packets == old(pipe.sent) + packets[..|packets| - 1] + [sent];
      prefixOffset, payloadRemaining, trailerOffset := CHUNK_PREFIX_SIZE, left, trailerEnd;
    }
    UnderwayIsPrefix(packets, prefix, payload, trailer, size, prefixOffset, size, trailerOffset);
    UnderwayEnds(packets, prefix, payload, trailer, size);
    ok := true;
  }

  /** So much of prefix, payload and trailer has gone out, in full packets as long as anything is left. */
  predicate Underway(packets: seq<seq<byte>>, prefix: seq<byte>, payload: seq<byte>, trailer: seq<byte>, size: nat,
                     p: nat, q: nat, t: nat)
  {
    && |prefix| == CHUNK_PREFIX_SIZE && |trailer| == CHECKSUM_SIZE && q <= |payload| <= size && t <= |trailer|
    && p == (if packets == [] then 0 else |prefix|) && (packets == [] ==> q == 0 && t == 0) && (t > 0 ==> q == size)
    && Flatten(packets) == Sent(prefix[..p], payload[..q], trailer[..t])
    && (packets != [] ==> AllFull(packets[..|packets| - 1]) && 0 < |packets[|packets| - 1]| <= BULK_PACKET_BYTES)
    && (p < |prefix| || q < size || t < |trailer| ==> AllFull(packets))
  }

  lemma NothingUnderway(prefix: seq<byte>, payload: seq<byte>, trailer: seq<byte>, size: nat)
    requires |prefix| == CHUNK_PREFIX_SIZE && |trailer| == CHECKSUM_SIZE && |payload| <= size
    ensures Underway([], prefix, payload, trailer, size, 0, 0, 0)
  {
    NothingSent(prefix, payload, trailer);
  }

  lemma UnderwayIsPrefix(packets: seq<seq<byte>>, prefix: seq<byte>, payload: seq<byte>, trailer: seq<byte>, size: nat,
                         p: nat, q: nat, t: nat)
    requires Underway(packets, prefix, payload, trailer, size, p, q, t)
    ensures p <= |prefix| && q <= |payload| && |prefix| == CHUNK_PREFIX_SIZE && |trailer| == CHECKSUM_SIZE
    ensures Flatten(packets) <= prefix + payload + trailer
    ensures p == |prefix| && q == size && t == |trailer| ==> |payload| == size && Flatten(packets) == prefix + payload + trailer
  {
    hide Flatten, Sent, AllFull;
    SentIsPrefix(prefix, payload, trailer, p, q, t);
  }

  lemma UnderwayStep(packets: seq<seq<byte>>, prefix: seq<byte>, payload: seq<byte>, trailer: seq<byte>, size: nat,
                     p: nat, q: nat, t: nat, r: nat, u: nat, packet: seq<byte>)
    requires Underway(packets, prefix, payload, trailer, size, p, q, t)
    requires p < |prefix| || q < size || t < |trailer|
    requires q <= r <= |payload| && t <= u <= |trailer| && (u > t ==> r == size)
    requires packet == prefix[p..] + payload[q..r] + trailer[t..u]
    requires |packet| == BULK_PACKET_BYTES || (|packet| < BULK_PACKET_BYTES && r == size && u == |trailer|)
    ensures Underway(packets + [packet], prefix, payload, trailer, size, |prefix|, r, u)
  {
    hide Flatten, Sent, AllFull;
    SentExtends(prefix, payload, trailer, Flatten(packets), p, q, r, t, u);
    PacketAppended(packets, packet);
  }

  lemma UnderwayEnds(packets: seq<seq<byte>>, prefix: seq<byte>, payload: seq<byte>, trailer: seq<byte>, size: nat)
    requires Underway(packets, prefix, payload, trailer, size, |prefix|, size, |trailer|)
    ensures packets != [] && AllFull(packets[..|packets| - 1])
    ensures |packets| == (|Flatten(packets)| + BULK_PACKET_BYTES - 1) / BULK_PACKET_BYTES
  {
    hide Flatten, Sent, AllFull;
    PacketCount(packets);
  }

  /** The checksum as it travels, most significant byte first. */
  function Trailer(crc: u32): (trailer: seq<byte>)
    ensures trailer == StoreU32Be(crc) && |trailer| == CHECKSUM_SIZE
  {
    [crc / 0x100_0000, crc / 0x1_0000 % 256, crc / 256 % 256, crc % 256]
  }

  lemma NothingSent(prefix: seq<byte>, payload: seq<byte>, trailer: seq<byte>)
    ensures Flatten<byte>([]) == Sent(prefix[..0], payload[..0], trailer[..0])
  {
  }

  lemma NoPackets(packets: seq<seq<byte>>)
    requires packets == []
    ensures AllFull(packets)
  {
  }

  lemma PacketAppended(packets: seq<seq<byte>>, packet: seq<byte>)
    requires AllFull(packets)
    ensures Flatten(packets + [packet]) == Flatten(packets) + packet
    ensures AllFull((packets + [packet])[..|packets + [packet]| - 1])
    ensures |packet| == BULK_PACKET_BYTES ==> AllFull(packets + [packet])
  {
    FlattenAppend(packets, packet);
    assert (packets + [packet])[..|packets|] == packets;
  }

  lemma SentIsPrefix(prefix: seq<byte>, payload: seq<byte>, trailer: seq<byte>, p: nat, q: nat, t: nat)
    requires p <= |prefix| && q <= |payload| && t <= |trailer|
    requires q > 0 ==> p == |prefix|
    requires t > 0 ==> p == |prefix| && q == |payload|
    ensures Sent(prefix[..p], payload[..q], trailer[..t]) <= prefix + payload + trailer
    ensures p == |prefix| && q == |payload| && t == |trailer| ==>
              Sent(prefix[..p], payload[..q], trailer[..t]) == prefix + payload + trailer
  {
  }

  lemma SliceOfSlice(s: seq<byte>, a: nat, b: nat, i: nat, j: nat)
    requires a <= b <= |s| && i <= j <= b - a
    ensures s[a..b][i..j] == s[a + i..a + j]
  {
    var inner := s[a..b];
    assert forall k | 0 <= k < j - i :: inner[i..j][k] == inner[i + k] == s[a + i..a + j][k];
  }

  lemma SliceSplit(s: seq<byte>, i: nat, j: nat)
    requires i <= j <= |s|
    ensures s[..j] == s[..i] + s[i..j]
  {
  }

  lemma SentExtends(prefix: seq<byte>, payload: seq<byte>, trailer: seq<byte>, sent: seq<byte>,
                    p: nat, q: nat, r: nat, t: nat, u: nat)
    requires p <= |prefix| && q <= r <= |payload| && t <= u <= |trailer|
    requires p < |prefix| ==> q == 0 && t == 0
    requires t > 0 ==> q == r
    requires sent == Sent(prefix[..p], payload[..q], trailer[..t])
    ensures sent + (prefix[p..] + payload[q..r] + trailer[t..u])
         == Sent(prefix[..|prefix|], payload[..r], trailer[..u])
  {
    var a, b, c := prefix[p..], payload[q..r], trailer[t..u];
    assert prefix[..|prefix|] == prefix;
    if p < |prefix| {
      assert sent == prefix[..p];
      assert prefix == prefix[..p] + a;
      assert b == payload[..r] && c == trailer[..u];
    } else if t == 0 {
      assert a == [] && sent == prefix + payload[..q];
      SliceSplit(payload, q, r);
      assert c == trailer[..u];
    } else {
      assert a == [] && b == [];
      SliceSplit(trailer, t, u);
    }
  }

  /**
   * Both passes: on success the packets are exactly the built upload chunk of the file; and where nothing fails it
   * succeeds exactly for the file's own size, if a chunk can hold that.
   */
  method UploadFile(source: UploadSource, pipe: BulkPipe, size: nat) returns (ok: bool, packets: seq<seq<byte>>)
    requires source.Valid() && source.position == 0
    modifies source, pipe
    ensures pipe.sent == old(pipe.sent) + packets
    ensures !source.troubled && !pipe.troubled ==> (ok <==> |source.data| == size <= MAX_CHUNK_PAYLOAD)
    ensures ok ==> |source.data| == size <= MAX_CHUNK_PAYLOAD
    ensures ok ==> Flatten(packets) == ChunkBytes(source.data, UPLOAD_CHUNK_FLAG)
    ensures ok ==> packets != [] && AllFull(packets[..|packets| - 1])
    ensures ok ==> |packets| == (size + 11 + BULK_PACKET_BYTES - 1) / BULK_PACKET_BYTES
  {
    packets := [];
    var prefix := new byte[CHUNK_PREFIX_SIZE](_ => 0);
    var status := BuildChunkPrefix(size, UPLOAD_CHUNK_FLAG, prefix);
    if status != Ok {
      return false, [];
    }
    assert prefix[..] == prefix[..CHUNK_PREFIX_SIZE];
    var crc;
    ok, crc := CalculateChunkCrc(source, size, prefix[..]);
    if !ok {
      return false, [];
    }
    assert source.Ahead(size) == source.data;
    ok, packets := StreamUploadChunk(source, pipe, size, prefix[..], crc);
  }
}
