/** The manifest object: a fixed array and a count, changed in place. */
module SyncManifestLedger {
  import opened Bytes
  import opened LedgerText
  import opened SyncManifest
  import opened SyncManifestText

  class Manifest {
    const entries: array<Entry>
    var count: nat

    /** Every slot past the count is cleared. */
    ghost predicate Layout()
      reads this, entries
    {
      && entries.Length == CAPACITY
      && count <= CAPACITY
      && forall i | count <= i < CAPACITY :: entries[i] == NO_ENTRY
    }

    ghost function Rows(): Table
      requires count <= entries.Length
      reads this, entries
    {
      entries[..count]
    }

    ghost predicate Valid()
      reads this, entries
    {
      Layout() && NormalForm(Rows())
    }

    constructor ()
      ensures Valid() && Rows() == [] && fresh(entries)
    {
      entries := new Entry[CAPACITY](_ => NO_ENTRY);
      count := 0;
    }

    /** The scan every operation starts with. */
    method Locate(path: seq<byte>) returns (target: nat)
      requires Layout()
      ensures target == IndexOfPath(Rows(), path)
    {
      target := 0;
      while target < count && entries[target].path != path
        invariant target <= count
        invariant forall k | 0 <= k < target :: entries[k].path != path
      {
        target := target + 1;
      }
      IndexOfPathFirst(Rows(), path, target);
    }

    method Find(path: seq<byte>) returns (entry: Option<Entry>)
      requires Layout()
      ensures entry == FindSpec(Rows(), path)
    {
      if !ValidPath(path) {
        return None;
      }
      var target := Locate(path);
      return if target < count then Some(entries[target]) else None;
    }

    method UpsertAt(path: seq<byte>, deviceTime: u32, size: u32, initialSync: u64, sha256: Digest, cacheName: seq<byte>)
      returns (status: Status)
      requires Layout()
      modifies this, entries
      ensures Layout() && (old(Valid()) ==> Valid())
      ensures Upserted(status, Rows()) == UpsertSpec(old(Rows()), path, deviceTime, size, initialSync, sha256, cacheName)
    {
      hide ValidPath, ValidCacheName, WellFormed;
      if size == 0 || !ValidPath(path) || !ValidCacheName(cacheName) {
        return InvalidArgument;
      }
      ghost var rows := Rows();
      if NormalForm(rows) {
        UpsertKeepsNormalForm(rows, path, deviceTime, size, initialSync, sha256, cacheName);
      }
      var target := Locate(path);
      var hadEntry := target < count;
      if target == count {
        if count >= CAPACITY {
          return CapacityExceeded;
        }
        count := count + 1;
      }
      var sameVersion := hadEntry && entries[target].sha256 == sha256;
      var preservedSync := if sameVersion then entries[target].initialSync else initialSync;
      var preservedPresence := if hadEntry then entries[target].presence else Unknown;
      entries[target] := Entry(path, deviceTime, size, preservedSync, sha256, cacheName, preservedPresence);
      assert Rows() == if hadEntry then rows[target := entries[target]] else rows + [entries[target]];
      return Ok;
    }

    method SetPresence(path: seq<byte>, presence: Presence) returns (found: bool)
      requires Layout()
      modifies entries
      ensures Layout() && (old(Valid()) ==> Valid())
      ensures found == FindSpec(old(Rows()), path).Some?
      ensures Rows() == SetPresenceSpec(old(Rows()), path, presence)
    {
      hide ValidPath, ValidCacheName;
      if !ValidPath(path) {
        return false;
      }
      ghost var rows := Rows();
      if NormalForm(rows) {
        SetPresenceKeepsNormalForm(rows, path, presence);
      }
      var target := Locate(path);
      found := target < count;
      if found {
        entries[target] := entries[target].(presence := presence);
        assert Rows() == rows[target := rows[target].(presence := presence)];
      }
    }

    /** The last row moves into the gap and its old slot is cleared. */
    method Remove(path: seq<byte>) returns (found: bool)
      requires Layout()
      modifies this, entries
      ensures Layout() && (old(Valid()) ==> Valid())
      ensures found == FindSpec(old(Rows()), path).Some?
      ensures Rows() == RemoveSpec(old(Rows()), path)
    {
      hide ValidPath, ValidCacheName, WellFormed, NormalForm;
      if !ValidPath(path) {
        return false;
      }
      ghost var rows := Rows();
      if NormalForm(rows) {
        RemoveKeepsNormalForm(rows, path);
      }
      var target := Locate(path);
      found := target < count;
      if found {
        TakeOut(target);
      }
    }

    method TakeOut(target: nat)
      requires Layout() && target < count
      modifies this, entries
      ensures Layout()
      ensures Rows() == if target + 1 < old(count) then old(Rows())[target := old(Rows())[old(count) - 1]][..old(count) - 1]
                        else old(Rows())[..old(count) - 1]
    {
      if target + 1 < count {
        entries[target] := entries[count - 1];
      }
      entries[count - 1] := NO_ENTRY;
      count := count - 1;
    }

    method DigestUsers(sha256: Digest) returns (users: nat)
      requires Layout()
      ensures users == DigestUsersSpec(Rows(), sha256)
    {
      users := 0;
      for index := 0 to count
        invariant users == DigestUsersSpec(Rows()[..index], sha256)
      {
        UsersAppend(Rows()[..index], [entries[index]], sha256);
        UsersOfOne(entries[index], sha256);
        assert Rows()[..index + 1] == Rows()[..index] + [entries[index]];
        if entries[index].sha256 == sha256 {
          users := users + 1;
        }
      }
      assert Rows()[..count] == Rows();
    }

    /** Prints the rows; on success the buffer holds exactly the text of the table. */
    method Serialize(output: array<byte>) returns (status: Status, length: nat)
      requires Layout()
      modifies output
      ensures status == Ok <==> AllWellFormed(Rows()) && |Text(Rows())| <= output.Length
      ensures status == Ok ==> length == |Text(Rows())| && output[..length] == Text(Rows())
      ensures AllWellFormed(Rows()) && status != Ok ==>
                status == BufferTooSmall && output.Length < length <= |Text(Rows())|
      ensures status == InvalidArgument ==> !AllWellFormed(Rows())
    {
      hide EntryLine, Lines, WellFormed, AllWellFormed, Header, Text, EntryPieces;
      TextParts(Rows());
      var ok, used := Append(output, 0, Header(V3));
      if !ok {
        return BufferTooSmall, used;
      }
      for index := 0 to count
        invariant AllWellFormed(Rows()[..index]) && 0 <= used <= output.Length
        invariant output[..used] == Header(V3) + Lines(Rows()[..index])
      {
        var e := entries[index];
        if !WellFormed(e) {
          BadRow(Rows(), index);
          return InvalidArgument, 0;
        }
        NextLine(Rows(), index);
        var total;
        EntryPiecesAreLine(e);
        ok, total := AppendAll(output, used, EntryPieces(e));
        if !ok {
          return BufferTooSmall, total;
        }
        used := total;
      }
      assert Rows()[..count] == Rows();
      return Ok, used;
    }

    /** Transactional: a rejected text leaves the manifest untouched. */
    method Parse(input: seq<byte>, memory: bool) returns (status: Status)
      requires Layout()
      modifies this, entries
      ensures Layout() && (old(Valid()) ==> Valid())
      ensures status != AllocationFailed || memory ==>
                status == match ParseText(input) case Parsed(_) => Ok case Failed(s) => s
      ensures status == Ok ==> Valid() && ParseText(input) == Parsed(Rows())
      ensures status != Ok ==> Rows() == old(Rows())
    {
      hide NormalForm, ParseLines;
      var version := VersionOf(input);
      if version == None {
        return InvalidFormat;
      }
      if !memory {
        return AllocationFailed;
      }
      HeaderFits(input);
      var scratch := new Manifest();
      status := scratch.LoadLines(version.value, input);
      if status != Ok {
        return;
      }
      forall i | 0 <= i < CAPACITY {
        entries[i] := scratch.entries[i];
      }
      count := scratch.count;
      assert Rows() == scratch.Rows();
    }

    /** The line loop, filling an empty scratch manifest. */
    method LoadLines(version: Version, input: seq<byte>) returns (status: Status)
      requires Valid() && Rows() == [] && |input| >= HEADER_LENGTH
      modifies this, entries
      ensures Valid()
      ensures ParseLines(version, input[HEADER_LENGTH..], []) == if status == Ok then Parsed(Rows()) else Failed(status)
    {
      hide NormalForm, ParseLine, ParseLines, Admit;
      var offset := HEADER_LENGTH;
      while offset < |input|
        invariant HEADER_LENGTH <= offset <= |input|
        invariant Valid()
        invariant ParseLines(version, input[HEADER_LENGTH..], []) == ParseLines(version, input[offset..], Rows())
      {
        var length := LineLength(input, offset);
        ghost var rest := input[offset..];
        ParseLinesStep(version, rest, Rows());
        if length == |input| - offset || length == 0 {
          return InvalidFormat;
        }
        assert rest[..length] == input[offset..offset + length] && rest[length + 1..] == input[offset + length + 1..];
        var entry := ReadLine(version, input[offset..offset + length]);
        if entry == None {
          return InvalidFormat;
        }
        status := AdmitEntry(entry.value);
        if status != Ok {
          return if status == CapacityExceeded then CapacityExceeded else InvalidFormat;
        }
        offset := offset + length + 1;
      }
      ParseLinesEnd(version, Rows());
      assert input[offset..] == [];
      return Ok;
    }

    method AdmitEntry(e: Entry) returns (status: Status)
      requires Valid()
      modifies this, entries
      ensures Valid()
      ensures Upserted(status, Rows()) == Admit(old(Rows()), e)
    {
      hide NormalForm, UpsertSpec, SetPresenceSpec;
      status := UpsertAt(e.path, e.deviceTime, e.size, e.initialSync, e.sha256, e.cacheName);
      if status == Ok {
        var found := SetPresence(e.path, e.presence);
      }
    }
  }

  predicate AllWellFormed(t: Table) {
    forall i | 0 <= i < |t| :: WellFormed(t[i])
  }

  lemma HeaderFits(input: seq<byte>)
    ensures VersionOf(input).Some? ==> |input| >= HEADER_LENGTH
  {
  }

  lemma TextParts(t: Table)
    ensures Text(t) == Header(V3) + Lines(t)
    ensures Header(V3) + Lines(t[..0]) == Header(V3)
    ensures AllWellFormed(t[..0])
  {
    assert t[..0] == [];
  }

  lemma BadRow(t: Table, k: nat)
    requires k < |t| && !WellFormed(t[k])
    ensures !AllWellFormed(t)
  {
  }

  lemma OneLine(e: Entry)
    ensures Lines([e]) == EntryLine(e)
  {
    assert [e][1..] == [];
    assert EntryLine(e) + [] == EntryLine(e);
  }

  lemma {:induction false} LinesAppend(t: Table, u: Table)
    ensures Lines(t + u) == Lines(t) + Lines(u)
    decreases |t|
  {
    if t == [] {
      assert t + u == u;
    } else {
      LinesAppend(t[1..], u);
      assert (t + u)[1..] == t[1..] + u;
    }
  }

  lemma NextLine(t: Table, index: nat)
    requires index < |t|
    ensures Lines(t[..index + 1]) == Lines(t[..index]) + EntryLine(t[index])
    ensures |Lines(t[..index + 1])| <= |Lines(t)|
    ensures AllWellFormed(t[..index]) && WellFormed(t[index]) ==> AllWellFormed(t[..index + 1])
  {
    hide Lines, EntryLine, WellFormed;
    assert t[..index + 1] == t[..index] + [t[index]];
    assert t == t[..index + 1] + t[index + 1..];
    LinesAppend(t[..index], [t[index]]);
    OneLine(t[index]);
    LinesAppend(t[..index + 1], t[index + 1..]);
  }

  lemma ParseLinesEnd(version: Version, t: Table)
    ensures ParseLines(version, [], t) == Parsed(t)
  {
  }

  /** One turn of the line loop. */
  lemma ParseLinesStep(version: Version, input: seq<byte>, t: Table)
    requires input != []
    ensures var length := IndexOf(input, NEWLINE);
            ParseLines(version, input, t) ==
            if length == |input| || length == 0 then Failed(InvalidFormat)
            else if ParseLine(version, input[..length]) == None then Failed(InvalidFormat)
            else
              var admitted := Admit(t, ParseLine(version, input[..length]).value);
              if admitted.status == CapacityExceeded then Failed(CapacityExceeded)
              else if admitted.status != Ok then Failed(InvalidFormat)
              else ParseLines(version, input[length + 1..], admitted.table)
  {
    hide ParseLine, Admit;
  }

  /** What is appended for a row, piece by piece. */
  function EntryPieces(e: Entry): seq<seq<byte>> {
    var prefix := e.path + [TAB] + Decimal(e.deviceTime) + [TAB] + Decimal(e.size) + [TAB]
                  + Decimal(e.initialSync) + [TAB];
    [prefix, Hex(e.sha256), [TAB], e.cacheName, [TAB], [PresenceByte(e.presence)], [NEWLINE]]
  }

  lemma EntryPiecesAreLine(e: Entry)
    ensures Flatten(EntryPieces(e)) == EntryLine(e)
  {
    hide Decimal, Hex;
    var f, p := EntryFields(e), EntryPieces(e);
    JoinMore(f);
    JoinMore(f[1..]);
    JoinMore(f[2..]);
    JoinMore(f[3..]);
    JoinMore(f[4..]);
    JoinMore(f[5..]);
    assert f[6..] == [f[6]];
    assert Join(f) == f[0] + [TAB] + (f[1] + [TAB] + (f[2] + [TAB] + (f[3] + [TAB] + (f[4] + [TAB] + (f[5] + [TAB] + f[6])))));
    FlattenMore(p);
    FlattenMore(p[1..]);
    FlattenMore(p[2..]);
    FlattenMore(p[3..]);
    FlattenMore(p[4..]);
    FlattenMore(p[5..]);
    FlattenMore(p[6..]);
    assert p[7..] == [];
  }

  /** One line: split, check and convert each column. */
  method ReadLine(version: Version, line: seq<byte>) returns (result: Option<Entry>)
    ensures result == ParseLine(version, line)
  {
    hide Fields, ParseDecimal, Unhex, ValidPath, ValidCacheName, IndexOf;
    var split := SplitLine(line);
    if split == None || |split.value| != ExpectedFields(version) {
      return None;
    }
    var fields := split.value;
    var synced := version != V1;
    var cacheField := if synced then fields[5] else fields[4];
    var digestField := if synced then fields[4] else fields[3];
    if !ValidPath(fields[0]) || |cacheField| >= CACHE_NAME_CAPACITY {
      return None;
    }
    var cacheName := CString(cacheField);
    var deviceTime := ReadDecimal(fields[1], 10, U32_LIMIT);
    var size := ReadDecimal(fields[2], 10, U32_LIMIT);
    var initialSync := Some(0);
    if synced {
      initialSync := ReadDecimal(fields[3], 20, U64_LIMIT);
    }
    var digest := ReadHex(digestField, SHA256_BYTES);
    if deviceTime == None || size == None || size == Some(0) || initialSync == None || digest == None
       || !ValidCacheName(cacheName) {
      return None;
    }
    var presence := ParsePresence(version, fields);
    if presence == None {
      return None;
    }
    DecimalInRange(fields[1], 10, U32_LIMIT);
    DecimalInRange(fields[2], 10, U32_LIMIT);
    if synced {
      DecimalInRange(fields[3], 20, U64_LIMIT);
    }
    return Some(Entry(fields[0], deviceTime.value, size.value, initialSync.value, digest.value, cacheName, presence.value));
  }
}
