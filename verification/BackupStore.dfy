/** Staging an archive on the card, validating it, and merging it into the device files. */
module BackupStore {
  import opened Bytes
  import opened LedgerText
  import opened BackupArchive
  import opened BackupMerge

  // ---- The validation loop -------------------------------------------------------------

  /** The table of device keys seen so far. */
  method RememberDevice(devices: array<seq<byte>>, count: nat, path: seq<byte>) returns (ok: bool, known: nat)
    requires count <= devices.Length == DEVICE_CAPACITY
    modifies devices
    ensures known <= DEVICE_CAPACITY
    ensures Remember(old(devices[..count]), path) == if ok then Some(devices[..known]) else None
  {
    var key := DeviceKey(path);
    if key == None {
      return false, count;
    }
    hide DeviceKey;
    for index := 0 to count
      invariant key.value !in devices[..index]
    {
      if devices[index] == key.value {
        assert key.value in devices[..count];
        return true, count;
      }
      assert devices[..index + 1] == devices[..index] + [devices[index]];
    }
    if count >= DEVICE_CAPACITY {
      return false, count;
    }
    devices[count] := key.value;
    assert devices[..count + 1] == old(devices[..count]) + [key.value];
    return true, count + 1;
  }

  function Prepend(entries: seq<FileEntry>, r: Reading): Reading {
    match r
    case Refused(status) => Refused(status)
    case Contents(more, devices, rest) => Contents(entries + more, devices, rest)
  }

  /** The entry at a position, checked field by field in the order of the code. */
  method ReadNext(hash: Hash, bytes: seq<byte>, cursor: nat, devices: array<seq<byte>>, count: nat)
    returns (status: BackupStatus, entry: FileEntry, known: nat)
    requires cursor <= |bytes| && count <= devices.Length == DEVICE_CAPACITY
    modifies devices
    ensures known <= DEVICE_CAPACITY
    ensures ReadEntry(hash, bytes[cursor..], old(devices[..count]))
            == if status == BackupOk then EntryRead(entry, devices[..known]) else EntryRefused(status)
    ensures status == BackupOk ==> cursor + ENTRY_BYTES + |entry.content| <= |bytes|
  {
    hide SafePath, Remember, CString, LoadU16Le, LoadU64Le;
    entry, known := FileEntry([], []), count;
    ghost var rest := bytes[cursor..];
    if |bytes| - cursor < ENTRY_BYTES || bytes[cursor..cursor + 4] != ENTRY_MAGIC {
      assert |rest| >= ENTRY_BYTES ==> rest[..4] == bytes[cursor..cursor + 4];
      return InvalidResponse, entry, known;
    }
    var head := bytes[cursor..cursor + ENTRY_BYTES];
    HeadAgrees(rest, head);
    assert head == rest[..ENTRY_BYTES] && head[..4] == bytes[cursor..cursor + 4];
    var length, size := LoadU16Le(head[4..6]), LoadU64Le(head[8..16]);
    if length == 0 || length >= PATH_BYTES || size > MAX_FILE_BYTES || head[48 + length] != 0 {
      return InvalidSize, entry, known;
    }
    var path := CString(head[48..48 + length]);
    assert head[48..48 + length] == rest[48..48 + length];
    if !SafePath(path) {
      return InvalidArg, entry, known;
    }
    var ok;
    ok, known := RememberDevice(devices, count, path);
    if !ok {
      return InvalidArg, entry, known;
    }
    if |bytes| - cursor - ENTRY_BYTES < size {
      return InvalidCrc, entry, known;
    }
    var content := bytes[cursor + ENTRY_BYTES..cursor + ENTRY_BYTES + size];
    assert content == rest[ENTRY_BYTES..ENTRY_BYTES + size];
    if hash(content) != head[16..48] {
      return InvalidCrc, entry, known;
    }
    return BackupOk, FileEntry(path, content), known;
  }

  lemma HeadAgrees(rest: seq<byte>, head: seq<byte>)
    requires |rest| >= ENTRY_BYTES && head == rest[..ENTRY_BYTES]
    ensures head[..4] == rest[..4] && head[4..6] == rest[4..6] && head[8..16] == rest[8..16] && head[16..48] == rest[16..48]
    ensures forall i | 0 <= i < ENTRY_BYTES :: head[i] == rest[i]
  {
  }

  method ValidatePending(hash: Hash, bytes: seq<byte>) returns (v: Validation)
    ensures v == Validate(hash, bytes)
  {
    hide ReadEntry, LoadU32Le, LoadU64Le, Hex;
    if |bytes| < HEADER_BYTES || bytes[..8] != ARCHIVE_MAGIC || LoadU32Le(bytes[8..12]) != VERSION {
      return Invalid(InvalidResponse);
    }
    var files, data := LoadU32Le(bytes[12..16]), LoadU64Le(bytes[16..24]);
    if files > MAX_FILES {
      return Invalid(InvalidSize);
    }
    var status, entries, devices, total, cursor := ReadAll(hash, bytes, files);
    if status != BackupOk {
      return Invalid(status);
    }
    if total != data || cursor != |bytes| {
      return Invalid(InvalidSize);
    }
    return Accepted(Summary(files, devices, total, |bytes|, LoadU64Le(bytes[24..32]), Hex(hash(bytes))), entries);
  }

  method ReadAll(hash: Hash, bytes: seq<byte>, files: nat)
    returns (status: BackupStatus, entries: seq<FileEntry>, deviceCount: nat, data: nat, cursor: nat)
    requires |bytes| >= HEADER_BYTES
    ensures match ReadEntries(hash, bytes[HEADER_BYTES..], files, [])
            case Refused(s) => status == s != BackupOk
            case Contents(es, ds, rest) =>
              status == BackupOk && entries == es && deviceCount == |ds| && data == DataBytes(es)
              && HEADER_BYTES <= cursor <= |bytes| && rest == bytes[cursor..]
  {
    hide ReadEntry;
    var devices := new seq<byte>[DEVICE_CAPACITY](_ => []);
    entries, deviceCount, data, cursor := [], 0, 0, HEADER_BYTES;
    ghost var whole := ReadEntries(hash, bytes[HEADER_BYTES..], files, []);
    assert devices[..0] == [];
    for index := 0 to files
      invariant HEADER_BYTES <= cursor <= |bytes| && deviceCount <= DEVICE_CAPACITY
      invariant data == DataBytes(entries)
      invariant whole == Prepend(entries, ReadEntries(hash, bytes[cursor..], files - index, devices[..deviceCount]))
    {
      ghost var before := devices[..deviceCount];
      var entry, known;
      status, entry, known := ReadNext(hash, bytes, cursor, devices, deviceCount);
      RefusalIsAnError(hash, bytes[cursor..], before);
      if status != BackupOk {
        return;
      }
      assert bytes[cursor..][ENTRY_BYTES + |entry.content|..] == bytes[cursor + ENTRY_BYTES + |entry.content|..];
      DataSnoc(entries, entry);
      PrependOne(entries, entry, ReadEntries(hash, bytes[cursor + ENTRY_BYTES + |entry.content|..], files - index - 1, devices[..known]));
      entries := entries + [entry];
      deviceCount, data := known, data + |entry.content|;
      cursor := cursor + ENTRY_BYTES + |entry.content|;
    }
    status := BackupOk;
    assert entries + [] == entries;
  }

  lemma RefusalIsAnError(hash: Hash, bytes: seq<byte>, devices: seq<seq<byte>>)
    ensures ReadEntry(hash, bytes, devices).EntryRefused? ==> ReadEntry(hash, bytes, devices).status !in {BackupOk, IoFailure}
  {
    hide SafePath, Remember, CString, LoadU16Le, LoadU64Le;
  }

  lemma PrependOne(entries: seq<FileEntry>, e: FileEntry, r: Reading)
    ensures Prepend(entries, Prepend([e], r)) == Prepend(entries + [e], r)
  {
    if r.Contents? {
      assert entries + ([e] + r.entries) == (entries + [e]) + r.entries;
    }
  }

  // ---- The store --------------------------------------------------------------------------

  /** What an entry that reads well holds, position by position. */
  lemma EntryFacts(hash: Hash, bytes: seq<byte>, devices: seq<seq<byte>>)
    requires ReadEntry(hash, bytes, devices).EntryRead?
    ensures var e := ReadEntry(hash, bytes, devices).entry;
            && |bytes| >= ENTRY_BYTES + |e.content|
            && LoadU64Le(bytes[8..16]) == |e.content|
            && 0 < LoadU16Le(bytes[4..6]) < PATH_BYTES
            && e.path == CString(bytes[48..48 + LoadU16Le(bytes[4..6])])
            && e.content == bytes[ENTRY_BYTES..ENTRY_BYTES + |e.content|]
            && hash(e.content) == bytes[16..48]
  {
    hide SafePath, Remember, CString, LoadU16Le, LoadU64Le;
  }

  /** The files agree except perhaps for one. */
  ghost predicate SameExcept(a: Tree, b: Tree, scratch: seq<byte>) {
    forall p | p != scratch :: (p in a <==> p in b) && (p in a ==> a[p] == b[p])
  }

  class Store {
    const hash: Hash
    const card: Medium
    var tree: Tree
    var pending: Option<seq<byte>>
    var streamOpen: bool
    var expected: nat
    var written: nat
    var summary: Option<Summary>

    /** A summary stands only for a pending archive that passed validation. */
    ghost predicate Valid()
      reads this
    {
      && (streamOpen ==> pending.Some? && written <= expected)
      && (summary.Some? ==>
            && !streamOpen && pending.Some?
            && Validate(hash, pending.value).Accepted?
            && summary.value == Validate(hash, pending.value).summary.(archiveBytes := written))
    }

    constructor (h: Hash, c: Medium, files: Tree)
      ensures hash == h && card == c && tree == files && Valid() && summary == None && !streamOpen
    {
      hash, card, tree, pending, summary := h, c, files, None, None;
      streamOpen, expected, written := false, 0, 0;
    }

    method StageAbort()
      modifies this`streamOpen, this`expected, this`written, this`summary, this`pending
      ensures Valid() && !streamOpen && summary == None && pending == None && written == 0
    {
      streamOpen, expected, written, summary, pending := false, 0, 0, None, None;
    }

    method StageBegin(archiveBytes: nat, idle: bool) returns (status: BackupStatus)
      requires Valid()
      modifies this, card
      ensures Valid() && tree == old(tree) && (old(card.troubled) ==> card.troubled)
      ensures status in {BackupOk, BadBackupState, InvalidSize, IoFailure} && (status == IoFailure ==> card.troubled)
      ensures status == BadBackupState <==> !idle
      ensures status == InvalidSize <==> idle && !Stageable(archiveBytes)
      ensures status in {BadBackupState, InvalidSize} ==>
                && pending == old(pending) && summary == old(summary) && streamOpen == old(streamOpen)
                && expected == old(expected) && written == old(written)
      ensures status == IoFailure ==> !streamOpen && summary == None
      ensures status == BackupOk ==> streamOpen && pending == Some([]) && expected == archiveBytes && written == 0 && summary == None
    {
      hide Validate;
      if !idle {
        return BadBackupState;
      }
      if archiveBytes < HEADER_BYTES || archiveBytes > MAX_ARCHIVE_BYTES {
        return InvalidSize;
      }
      StageAbort();
      var created := card.Attempt();
      if !created {
        return IoFailure;
      }
      pending, streamOpen, expected, written := Some([]), true, archiveBytes, 0;
      return BackupOk;
    }

    /** A failed write may leave part of the data behind without counting it. */
    method StageWrite(data: seq<byte>) returns (status: BackupStatus)
      requires Valid()
      modifies this`pending, this`written, card
      ensures Valid() && (old(card.troubled) ==> card.troubled) && (status == IoFailure ==> card.troubled)
      ensures status == BackupOk ==> old(pending).Some? && pending == Some(old(pending).value + data) && written == old(written) + |data|
      ensures status == BadBackupState <==> !streamOpen || old(written) + |data| > expected
      ensures status in {BackupOk, BadBackupState, IoFailure} && (status != BackupOk ==> written == old(written))
    {
      hide Validate;
      if !streamOpen || written + |data| > expected {
        return BadBackupState;
      }
      var whole := card.Attempt();
      if !whole {
        var stored: int := *;
        pending := Some(pending.value + data[..if 0 <= stored <= |data| then stored else 0]);
        return IoFailure;
      }
      pending := Some(pending.value + data);
      written := written + |data|;
      return BackupOk;
    }

    method StageCommit() returns (status: BackupStatus, result: Option<Summary>)
      requires Valid()
      modifies this`streamOpen, this`expected, this`written, this`summary, this`pending, card
      ensures Valid() && !streamOpen && (old(card.troubled) ==> card.troubled) && (status == IoFailure ==> card.troubled)
      ensures status == BackupOk ==>
                && old(streamOpen) && old(written) == old(expected) && pending == old(pending)
                && Validate(hash, pending.value).Accepted? && summary.Some? && result == summary
      ensures status != BackupOk ==> pending == None && summary == None && result == None
      ensures old(streamOpen) && old(written) == old(expected) ==>
                (status == BackupOk ==> Validate(hash, old(pending).value).Accepted?)
                && (Validate(hash, old(pending).value).Accepted? ==> status in {BackupOk, IoFailure})
      ensures !card.troubled ==>
                status == if !old(streamOpen) || old(written) != old(expected) then InvalidSize
                          else match Validate(hash, old(pending).value)
                               case Accepted(_, _) => BackupOk
                               case Invalid(error) => error
    {
      hide Validate;
      if !streamOpen || written != expected {
        StageAbort();
        return InvalidSize, None;
      }
      var flushed := card.Attempt();
      if !flushed {
        StageAbort();
        return IoFailure, None;
      }
      streamOpen := false;
      var v := ValidatePending(hash, pending.value);
      if v.Invalid? {
        RejectionIsAnError(hash, pending.value);
        pending, summary := None, None;
        return v.status, None;
      }
      summary := Some(v.summary.(archiveBytes := written));
      return BackupOk, summary;
    }

    /** The content in pieces of a buffer; a failed write leaves whatever it wrote. */
    method CopyOut(partial: seq<byte>, content: seq<byte>) returns (ok: bool)
      modifies this`tree, card
      ensures (old(card.troubled) ==> card.troubled) && (!ok ==> card.troubled)
      ensures partial in tree && SameExcept(tree, old(tree), partial)
      ensures ok ==> tree == old(tree)[partial := content]
    {
      tree := tree[partial := []];
      var stored := 0;
      ok := true;
      while ok && stored < |content|
        invariant 0 <= stored <= |content|
        invariant partial in tree && SameExcept(tree, old(tree), partial)
        invariant (old(card.troubled) ==> card.troubled) && (!ok ==> card.troubled)
        invariant ok ==> tree == old(tree)[partial := content[..stored]]
        decreases |content| - stored, ok
      {
        var requested := if |content| - stored < BUFFER_BYTES then |content| - stored else BUFFER_BYTES;
        tree := tree[partial := tree[partial] + content[stored..stored + requested]];
        assert content[..stored + requested] == content[..stored] + content[stored..stored + requested];
        ok := card.Attempt();
        stored := stored + requested;
      }
      assert ok ==> content[..stored] == content;
    }

    /** Writes beside the destination, checks the digest, and only then renames. */
    method RestoreFile(path: seq<byte>, content: seq<byte>, digest: Digest) returns (ok: bool)
      requires path !in tree && hash(content) == digest
      modifies this`tree, card
      ensures (old(card.troubled) ==> card.troubled) && (!ok ==> card.troubled)
      ensures ok ==> tree == (old(tree) - {PartialOf(path)})[path := content]
      ensures !ok ==> SameExcept(tree, old(tree), PartialOf(path))
    {
      hide PartialOf;
      DifferentName(path);
      var partial := PartialOf(path);
      var prepared := card.Attempt();
      if !prepared {
        return false;
      }
      ok := CopyOut(partial, content);
      if ok {
        ok := card.Attempt();
      }
      if ok && hash(tree[partial]) == digest {
        var renamed := card.Attempt();
        if renamed {
          tree := (tree - {partial})[path := tree[partial]];
          assert tree == (old(tree) - {partial})[path := content];
          return true;
        }
      }
      var removed := card.Attempt();
      if removed {
        tree := tree - {partial};
      }
      return false;
    }

    /**
     * The merge. When it completes, the files are exactly those of the merge specification, and so are the counters
     * unless an existing file could not be read back; interrupted, it has merged some first entries completely.
     */
    method RestoreMerge(token: seq<byte>, idle: bool)
      returns (status: BackupStatus, restored: nat, identical: nat, conflicting: nat, bytes: nat, ghost k: nat, ghost unread: bool)
      requires Valid()
      modifies this, card
      ensures Valid() && (old(card.troubled) ==> card.troubled)
      ensures status in {NotFound, IoFailure} || unread ==> card.troubled
      ensures status == BadBackupState <==> old(summary) != None && token == old(summary).value.token && !idle
      ensures status == InvalidArg <==> old(summary) == None || token != old(summary).value.token
      ensures status in {InvalidArg, BadBackupState, NotFound} ==> tree == old(tree)
      ensures status == BackupOk ==>
                && old(summary).Some? && pending == None && summary == None
                && var m := Merge(hash, old(tree), Validate(hash, old(pending).value).entries);
                tree == m.tree && restored == m.restored && bytes == m.bytes
                && identical + conflicting == m.identical + m.conflicting && (!unread ==> identical == m.identical)
      ensures status == IoFailure ==>
                && old(summary).Some? && pending == old(pending) && summary == old(summary)
                && var entries := Validate(hash, old(pending).value).entries;
                k < |entries|
                && SameExcept(tree, Merge(hash, old(tree), entries[..k]).tree, PartialOf(entries[k].path))
      ensures status in {BackupOk, InvalidArg, BadBackupState, NotFound, IoFailure}
    {
      hide Validate, Merge, PartialOf, SameExcept;
      restored, identical, conflicting, bytes, k, unread := 0, 0, 0, 0, 0, false;
      if summary == None || token != summary.value.token {
        return InvalidArg, 0, 0, 0, 0, 0, false;
      }
      if !idle {
        return BadBackupState, 0, 0, 0, 0, 0, false;
      }
      var readable := card.Attempt();
      if !readable {
        return NotFound, 0, 0, 0, 0, 0, false;
      }
      var ok;
      ok, restored, identical, conflicting, bytes, k, unread := MergePending();
      if !ok {
        return IoFailure, restored, identical, conflicting, bytes, k, unread;
      }
      pending, summary := None, None;
      status := BackupOk;
    }

    method MergePending() returns (ok: bool, restored: nat, identical: nat, conflicting: nat, bytes: nat, ghost k: nat, ghost unread: bool)
      requires pending.Some? && Validate(hash, pending.value).Accepted?
      modifies this`tree, card
      ensures (old(card.troubled) ==> card.troubled) && (!ok || unread ==> card.troubled)
      ensures var entries := Validate(hash, pending.value).entries;
              if ok then Counted(Merge(hash, old(tree), entries), tree, restored, identical, conflicting, bytes, unread)
              else k < |entries| && SameExcept(tree, Merge(hash, old(tree), entries[..k]).tree, PartialOf(entries[k].path))
    {
      AcceptedReads(hash, pending.value);
      hide SameExcept, ReadEntries, Merge, Validate, Counted, LoadU32Le;
      var files := LoadU32Le(pending.value[12..16]);
      ghost var entries := Validate(hash, pending.value).entries;
      ok, restored, identical, conflicting, bytes, k, unread := MergeFrom(pending.value, files, entries);
    }

    method MergeFrom(archive: seq<byte>, files: nat, ghost entries: seq<FileEntry>)
      returns (ok: bool, restored: nat, identical: nat, conflicting: nat, bytes: nat, ghost k: nat, ghost unread: bool)
      requires |archive| >= HEADER_BYTES && |entries| == files
      requires ReadEntries(hash, archive[HEADER_BYTES..], files, []).Contents?
      requires ReadEntries(hash, archive[HEADER_BYTES..], files, []).entries == entries
      modifies this`tree, card
      ensures (old(card.troubled) ==> card.troubled) && (!ok || unread ==> card.troubled)
      ensures if ok then Counted(Merge(hash, old(tree), entries), tree, restored, identical, conflicting, bytes, unread)
              else k < |entries| && SameExcept(tree, Merge(hash, old(tree), entries[..k]).tree, PartialOf(entries[k].path))
    {
      hide PartialOf, SameExcept, ReadEntries, MergeOne, Merge, EntryAt, Counted;
      ghost var devices: seq<seq<byte>> := [];
      ghost var tail := ReadEntries(hash, archive[HEADER_BYTES..], files, []);
      var cursor := HEADER_BYTES;
      ok, restored, identical, conflicting, bytes, k, unread := true, 0, 0, 0, 0, 0, false;
      MergeNothing(hash, tree, entries);
      for index := 0 to files
        invariant HEADER_BYTES <= cursor <= |archive| && ok
        invariant (old(card.troubled) ==> card.troubled) && (unread ==> card.troubled)
        invariant ReadEntries(hash, archive[cursor..], files - index, devices) == Contents(entries[index..], tail.devices, tail.rest)
        invariant Counted(Merge(hash, old(tree), entries[..index]), tree, restored, identical, conflicting, bytes, unread)
      {
        k := index;
        devices := NextEntry(hash, archive, cursor, files - index, devices, entries[index..], tail.devices, tail.rest);
        ghost var e := entries[index];
        EntryInside(hash, archive, cursor, e);
        TailSplits(entries, index);
        MergeNext(hash, old(tree), entries, index);
        ghost var m := Merge(hash, old(tree), entries[..index]);
        CountedTree(m, tree, restored, identical, conflicting, bytes, unread);
        var size;
        ok, restored, identical, conflicting, bytes, size, unread :=
          MergeEntryAt(archive, cursor, e, m, restored, identical, conflicting, bytes, unread);
        if !ok {
          return;
        }
        cursor := cursor + ENTRY_BYTES + size;
      }
      assert entries[..files] == entries;
    }

    /** One entry of the archive against the card. */
    method MergeEntryAt(archive: seq<byte>, cursor: nat, ghost e: FileEntry, ghost m: Merged, restored: nat, identical: nat,
                        conflicting: nat, bytes: nat, ghost unread: bool)
      returns (done: bool, restored': nat, identical': nat, conflicting': nat, bytes': nat, size: nat, ghost unread': bool)
      requires EntryAt(hash, archive, cursor, e)
      requires Counted(m, tree, restored, identical, conflicting, bytes, unread) && (unread ==> card.troubled)
      modifies this`tree, card
      ensures (old(card.troubled) ==> card.troubled) && (!done || unread' ==> card.troubled)
      ensures size == |e.content|
      ensures done ==> Counted(MergeOne(hash, m, e), tree, restored', identical', conflicting', bytes', unread')
      ensures !done ==> SameExcept(tree, old(tree), PartialOf(e.path))
    {
      hide LoadU16Le, LoadU64Le, CString, PartialOf;
      restored', identical', conflicting', bytes', unread' := restored, identical, conflicting, bytes, unread;
      size := LoadU64Le(archive[cursor + 8..cursor + 16]);
      var path := CString(archive[cursor + 48..cursor + 48 + LoadU16Le(archive[cursor + 4..cursor + 6])]);
      var digest := archive[cursor + 16..cursor + 48];
      if path in tree {
        var same := |tree[path]| == size;
        if same {
          var readable := card.Attempt();
          unread' := unread || !readable;
          same := readable && hash(tree[path]) == digest;
        }
        if same {
          identical' := identical + 1;
        } else {
          conflicting' := conflicting + 1;
        }
        done := true;
        return;
      }
      done := RestoreFile(path, archive[cursor + ENTRY_BYTES..cursor + ENTRY_BYTES + size], digest);
      restored', bytes' := restored + 1, bytes + size;
    }
  }

  /** The running counters agree with the merge so far; after an unreadable file some identical ones count as conflicts. */
  predicate Counted(m: Merged, tree: Tree, restored: nat, identical: nat, conflicting: nat, bytes: nat, unread: bool) {
    && tree == m.tree && restored == m.restored && bytes == m.bytes
    && identical + conflicting == m.identical + m.conflicting && (!unread ==> identical == m.identical)
  }

  /** The archive holds this file at this position. */
  predicate EntryAt(hash: Hash, archive: seq<byte>, cursor: nat, e: FileEntry) {
    && cursor + ENTRY_BYTES + |e.content| <= |archive|
    && LoadU64Le(archive[cursor + 8..cursor + 16]) == |e.content|
    && LoadU16Le(archive[cursor + 4..cursor + 6]) < PATH_BYTES
    && e.path == CString(archive[cursor + 48..cursor + 48 + LoadU16Le(archive[cursor + 4..cursor + 6])])
    && e.content == archive[cursor + ENTRY_BYTES..cursor + ENTRY_BYTES + |e.content|]
    && hash(e.content) == archive[cursor + 16..cursor + 48]
  }

  lemma EntryInside(hash: Hash, archive: seq<byte>, cursor: nat, e: FileEntry)
    ensures EntryAt(hash, archive, cursor, e) ==> cursor + ENTRY_BYTES + |e.content| <= |archive|
  {
  }

  lemma TailSplits(entries: seq<FileEntry>, index: nat)
    requires index < |entries|
    ensures entries[index..][0] == entries[index] && entries[index..][1..] == entries[index + 1..]
  {
  }

  lemma CountedTree(m: Merged, tree: Tree, restored: nat, identical: nat, conflicting: nat, bytes: nat, unread: bool)
    ensures Counted(m, tree, restored, identical, conflicting, bytes, unread) ==> tree == m.tree
  {
  }

  lemma NextEntry(hash: Hash, archive: seq<byte>, cursor: nat, left: nat, devices: seq<seq<byte>>, es: seq<FileEntry>,
                  all: seq<seq<byte>>, rest: seq<byte>) returns (known: seq<seq<byte>>)
    requires left > 0 && cursor <= |archive|
    requires ReadEntries(hash, archive[cursor..], left, devices) == Contents(es, all, rest)
    ensures es != [] && EntryAt(hash, archive, cursor, es[0])
    ensures ReadEntries(hash, archive[cursor + ENTRY_BYTES + |es[0].content|..], left - 1, known) == Contents(es[1..], all, rest)
  {
    hide ReadEntry, LoadU16Le, LoadU64Le, CString;
    var b := archive[cursor..];
    var r := ReadEntry(hash, b, devices);
    known := r.devices;
    var e := r.entry;
    assert es[0] == e && es[1..] == ReadEntries(hash, b[ENTRY_BYTES + |e.content|..], left - 1, known).entries;
    assert b[ENTRY_BYTES + |e.content|..] == archive[cursor + ENTRY_BYTES + |e.content|..];
    EntryFacts(hash, b, devices);
    HeadOf(archive, cursor, LoadU16Le(b[4..6]), |e.content|);
  }

  lemma AcceptedReads(hash: Hash, archive: seq<byte>)
    requires Validate(hash, archive).Accepted?
    ensures |archive| >= HEADER_BYTES
    ensures ReadEntries(hash, archive[HEADER_BYTES..], LoadU32Le(archive[12..16]), []).Contents?
    ensures Validate(hash, archive).entries == ReadEntries(hash, archive[HEADER_BYTES..], LoadU32Le(archive[12..16]), []).entries
    ensures |Validate(hash, archive).entries| == LoadU32Le(archive[12..16])
  {
    hide ReadEntry, ReadEntries, LoadU32Le, LoadU64Le, Hex;
    EntriesCount(hash, archive[HEADER_BYTES..], LoadU32Le(archive[12..16]), []);
  }

  lemma DifferentName(path: seq<byte>)
    ensures PartialOf(path) != path
  {
    assert |PartialOf(path)| > |path|;
  }

  lemma HeadOf(archive: seq<byte>, cursor: nat, n: nat, size: nat)
    requires cursor + ENTRY_BYTES + size <= |archive| && n < PATH_BYTES
    ensures var rest := archive[cursor..];
            && rest[4..6] == archive[cursor + 4..cursor + 6] && rest[8..16] == archive[cursor + 8..cursor + 16]
            && rest[16..48] == archive[cursor + 16..cursor + 48]
            && rest[48..48 + n] == archive[cursor + 48..cursor + 48 + n]
            && rest[ENTRY_BYTES..ENTRY_BYTES + size] == archive[cursor + ENTRY_BYTES..cursor + ENTRY_BYTES + size]
  {
  }

  lemma {:induction false} EntriesCount(hash: Hash, bytes: seq<byte>, files: nat, devices: seq<seq<byte>>)
    ensures ReadEntries(hash, bytes, files, devices).Contents? ==> |ReadEntries(hash, bytes, files, devices).entries| == files
    decreases files
  {
    hide ReadEntry;
    if files > 0 && ReadEntry(hash, bytes, devices).EntryRead? {
      var r := ReadEntry(hash, bytes, devices);
      if ENTRY_BYTES + |r.entry.content| <= |bytes| {
        EntriesCount(hash, bytes[ENTRY_BYTES + |r.entry.content|..], files - 1, r.devices);
      }
    }
  }

  lemma MergeNothing(hash: Hash, tree: Tree, entries: seq<FileEntry>)
    ensures Counted(Merge(hash, tree, entries[..0]), tree, 0, 0, 0, 0, false)
    ensures entries[0..] == entries
  {
  }

  lemma MergeNext(hash: Hash, tree: Tree, entries: seq<FileEntry>, index: nat)
    requires index < |entries|
    ensures Merge(hash, tree, entries[..index + 1]) == MergeOne(hash, Merge(hash, tree, entries[..index]), entries[index])
  {
    hide MergeOne;
    assert entries[..index + 1][..index] == entries[..index];
  }

  lemma RejectionIsAnError(hash: Hash, bytes: seq<byte>)
    ensures Validate(hash, bytes).Invalid? ==> Validate(hash, bytes).status !in {BackupOk, IoFailure}
  {
    hide ReadEntry, Hex;
    if |bytes| >= HEADER_BYTES {
      RefusedIsAnError(hash, bytes[HEADER_BYTES..], LoadU32Le(bytes[12..16]), []);
    }
  }

  lemma {:induction false} RefusedIsAnError(hash: Hash, bytes: seq<byte>, files: nat, devices: seq<seq<byte>>)
    ensures ReadEntries(hash, bytes, files, devices).Refused? ==> ReadEntries(hash, bytes, files, devices).status !in {BackupOk, IoFailure}
    decreases files
  {
    hide ReadEntry;
    if files > 0 {
      RefusalIsAnError(hash, bytes, devices);
      var r := ReadEntry(hash, bytes, devices);
      if r.EntryRead? && ENTRY_BYTES + |r.entry.content| <= |bytes| {
        RefusedIsAnError(hash, bytes[ENTRY_BYTES + |r.entry.content|..], files - 1, r.devices);
      }
    }
  }
}
