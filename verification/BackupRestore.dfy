/** A backup taken from one card, uploaded to another and merged there, as the portal's three requests do it. */
module BackupRestore {
  import opened Bytes
  import opened LedgerText
  import opened BackupArchive
  import opened BackupMerge
  import opened BackupStore

  /**
   * The upload: staged in the pieces in which it arrives, then validated. When nothing fails it is accepted exactly
   * when its length may be staged and it is a valid archive.
   */
  method Preview(store: Store, link: Medium, body: seq<byte>, idle: bool) returns (status: BackupStatus)
    requires store.Valid() && link != store.card
    modifies store, store.card, link
    ensures store.Valid() && store.tree == old(store.tree)
    ensures (old(store.card.troubled) ==> store.card.troubled) && (old(link.troubled) ==> link.troubled)
    ensures status == BackupOk ==>
              && idle && Stageable(|body|) && Validate(store.hash, body).Accepted?
              && store.pending == Some(body) && store.summary.Some? && store.summary.value.token == Hex(store.hash(body))
    ensures !store.card.troubled && !link.troubled ==>
              (status == BackupOk <==> idle && Stageable(|body|) && Validate(store.hash, body).Accepted?)
    ensures !idle || !Stageable(|body|) ==> store.pending == old(store.pending) && store.summary == old(store.summary)
  {
    hide Validate;
    status := store.StageBegin(|body|, idle);
    if status != BackupOk {
      return;
    }
    var received := 0;
    while received < |body|
      invariant 0 <= received <= |body| && store.Valid() && store.tree == old(store.tree)
      invariant store.streamOpen && store.expected == |body| && store.written == received
      invariant store.pending == Some(body[..received])
      invariant (old(store.card.troubled) ==> store.card.troubled) && (old(link.troubled) ==> link.troubled)
    {
      var requested := if |body| - received < BUFFER_BYTES then |body| - received else BUFFER_BYTES;
      var count := link.Transfer(requested);
      if count == 0 {
        store.StageAbort();
        return IoFailure;
      }
      status := store.StageWrite(body[received..received + count]);
      if status != BackupOk {
        store.StageAbort();
        return IoFailure;
      }
      assert body[..received + count] == body[..received] + body[received..received + count];
      received := received + count;
    }
    assert body[..received] == body;
    var result;
    status, result := store.StageCommit();
    if status == BackupOk {
      TokenOf(store.hash, body);
    }
  }

  lemma TokenOf(hash: Hash, bytes: seq<byte>)
    requires Validate(hash, bytes).Accepted?
    ensures Validate(hash, bytes).summary.token == Hex(hash(bytes))
  {
    hide ReadEntries, Hex, LoadU32Le, LoadU64Le;
  }

  /** The files of the source card and the target's own, the latter where both have one. */
  ghost predicate Together(source: Tree, target: Tree, entries: seq<FileEntry>, after: Tree) {
    && (forall p | p in source && Visited(p) :: p in after && after[p] == if p in target then target[p] else source[p])
    && (forall p | p in target && !Scratch(target, entries, p) :: p in after && after[p] == target[p])
    && (forall p | p in after :: (p in source && Visited(p)) || (p in target && !Scratch(target, entries, p)))
  }

  lemma MergeBringsTogether(hash: Hash, source: Tree, order: seq<seq<byte>>, target: Tree)
    requires Lists(source, order)
    ensures Together(source, target, EntriesOf(source, order), Merge(hash, target, EntriesOf(source, order)).tree)
  {
    hide Visited, PartialOf, Merge, Scratch;
    var entries := EntriesOf(source, order);
    ExportedFilesMerge(source, order);
    MergeIsLeftUnion(hash, target, entries);
    forall p | p in source && Visited(p)
      ensures Paths(entries, p) && !Scratch(target, entries, p)
    {
      var i :| 0 <= i < |order| && order[i] == p;
      assert entries[i].path == p;
      NotScratch(target, entries, i);
    }
    PathsAreFiles(source, order);
    ContentsAreFiles(source, order);
  }

  lemma NotScratch(target: Tree, entries: seq<FileEntry>, i: nat)
    requires NoPartials(entries) && i < |entries|
    ensures !Scratch(target, entries, entries[i].path)
  {
    hide PartialOf;
  }

  lemma PathsAreFiles(source: Tree, order: seq<seq<byte>>)
    requires Lists(source, order)
    ensures forall p | Paths(EntriesOf(source, order), p) :: p in source && Visited(p)
  {
    hide Visited;
  }

  lemma ContentsAreFiles(source: Tree, order: seq<seq<byte>>)
    requires Lists(source, order)
    ensures forall i | 0 <= i < |order| :: EntriesOf(source, order)[i].content == source[EntriesOf(source, order)[i].path]
  {
  }

  /**
   * Export, upload and restore. When nothing fails, the export succeeds exactly within its limits, the upload exactly
   * when the files are restorable, and the restore then always; whatever failed before, a completed restore leaves
   * every backed-up file on the other card beside what that card had.
   */
  method CarryOver(source: Tree, order: seq<seq<byte>>, created: u64, from: Medium, sink: Sink, link: Medium, store: Store)
    returns (exported: BackupStatus, staged: BackupStatus, restored: BackupStatus)
    requires Lists(source, order) && store.Valid() && sink.written == []
    requires from != link && from != store.card && link != store.card
    modifies from, sink, link, store, store.card
    ensures store.Valid()
    ensures exported == BackupOk ==> Exportable(EntriesOf(source, order))
    ensures staged == BackupOk ==> exported == BackupOk && Restorable(EntriesOf(source, order))
    ensures restored == BackupOk ==>
              staged == BackupOk && Together(source, old(store.tree), EntriesOf(source, order), store.tree)
    ensures !from.troubled && !sink.troubled && !link.troubled && !store.card.troubled ==>
              && (Exportable(EntriesOf(source, order)) ==> exported == BackupOk)
              && (exported == BackupOk && Restorable(EntriesOf(source, order)) ==> staged == BackupOk && restored == BackupOk)
    ensures staged != BackupOk ==> store.tree == old(store.tree)
  {
    hide Validate, Archive, Exportable, Restorable, Together, Merge, Stageable, SameExcept, Visited;
    ghost var entries := EntriesOf(source, order);
    staged, restored := IoFailure, IoFailure;
    var announced;
    exported, announced := Export(source, order, store.hash, created, from, sink);
    if exported != BackupOk {
      return;
    }
    ArchiveAccepted(store.hash, entries, created, sink.written);
    staged := Preview(store, link, sink.written, true);
    if staged != BackupOk {
      return;
    }
    var files, identical, conflicting, bytes;
    ghost var k, unread;
    restored, files, identical, conflicting, bytes, k, unread := store.RestoreMerge(Hex(store.hash(sink.written)), true);
    MergeBringsTogether(store.hash, source, order, old(store.tree));
  }

  lemma ArchiveAccepted(hash: Hash, entries: seq<FileEntry>, created: u64, bytes: seq<byte>)
    requires Exportable(entries) && bytes == [] + Archive(hash, entries, created)
    ensures Stageable(|bytes|) && Validate(hash, bytes).Accepted? <==> Restorable(entries)
    ensures Validate(hash, bytes).Accepted? ==> Validate(hash, bytes).entries == entries
  {
    hide Validate, Archive, Restorable, SafePath, Depth, DeviceKey;
    assert bytes == Archive(hash, entries, created);
    ExportValidatesIff(hash, entries, created);
  }

  // ---- A tree that exports and cannot be restored ----------------------------------------------

  /** "000000000000000000000000" */
  function SharedKey(): (key: seq<byte>)
    ensures |key| == KEY_DIGITS && forall i | 0 <= i < KEY_DIGITS :: key[i] == 0x30
  {
    seq(KEY_DIGITS, _ => 0x30)
  }

  /** "revlink/devices/000000000000000000000000/" and one letter. */
  function LargePath(letter: byte): (path: seq<byte>)
    ensures |path| == |ROOT| + KEY_DIGITS + 2
    ensures path[..|ROOT|] == ROOT && path[|ROOT|..] == SharedKey() + [SLASH] + [letter] && path[|path| - 1] == letter
  {
    ROOT + (SharedKey() + [SLASH] + [letter])
  }

  lemma FirstSegment(first: seq<byte>, rest: seq<byte>)
    requires SLASH !in first
    ensures Segments(first + [SLASH] + rest) == [first] + Segments(rest)
  {
    var whole := first + [SLASH] + rest;
    IndexOfIs(whole, SLASH, |first|);
    assert whole[..|first|] == first && whole[|first| + 1..] == rest;
  }

  lemma OnlySegment(name: seq<byte>)
    requires SLASH !in name
    ensures Segments(name) == [name]
  {
    IndexOfIs(name, SLASH, |name|);
  }

  lemma TwoSegments(first: seq<byte>, second: seq<byte>)
    requires SLASH !in first && SLASH !in second
    ensures Segments(first + [SLASH] + second) == [first, second]
  {
    hide Segments;
    FirstSegment(first, second);
    OnlySegment(second);
  }

  lemma RootParts()
    ensures |ROOT| == 16 && ROOT == ROOT[..7] + [SLASH] + ROOT[8..15] + [SLASH] && SLASH !in ROOT[..7] && SLASH !in ROOT[8..15]
  {
  }

  /** "revlink" and "devices" come before whatever lies under the root. */
  lemma RootSegments(rest: seq<byte>)
    ensures Segments(ROOT + rest) == [ROOT[..7], ROOT[8..15]] + Segments(rest)
  {
    RootParts();
    hide Segments, ROOT;
    var first, second := ROOT[..7], ROOT[8..15];
    assert ROOT + rest == first + [SLASH] + (second + [SLASH] + rest);
    FirstSegment(first, second + [SLASH] + rest);
    FirstSegment(second, rest);
  }

  lemma PartIsIn(name: seq<byte>, part: seq<byte>, i: nat)
    requires PartAt(name, part, i) && part != []
    ensures part[0] in name
  {
    assert name[i..i + |part|][0] == name[i];
  }

  lemma PlainNameKept(name: seq<byte>)
    requires DOT !in name && name != TMP
    ensures !IgnoredName(name)
  {
    forall part | part in {DOT_TMP, DOT_BAK, DOT_PARTIAL, PARTIAL_SUFFIX}
      ensures !Contains(name, part) && !EndsIn(name, part)
    {
      NoPart(name, part);
    }
  }

  lemma NoPart(name: seq<byte>, part: seq<byte>)
    requires part != []
    ensures Contains(name, part) || EndsIn(name, part) ==> part[0] in name
  {
    if EndsIn(name, part) {
      PartIsIn(name, part, |name| - |part|);
    } else if Contains(name, part) {
      var i :| 0 <= i <= |name| && PartAt(name, part, i);
      PartIsIn(name, part, i);
    }
  }

  lemma LargePathSegments(letter: byte)
    requires 0x61 <= letter <= 0x7a
    ensures Segments(LargePath(letter)) == [ROOT[..7], ROOT[8..15], SharedKey(), [letter]]
    ensures Segments(LargePath(letter)[|ROOT|..]) == [SharedKey(), [letter]]
  {
    hide Segments;
    TwoSegments(SharedKey(), [letter]);
    RootSegments(SharedKey() + [SLASH] + [letter]);
  }

  lemma LargePathVisited(letter: byte)
    requires 0x61 <= letter <= 0x7a
    ensures Visited(LargePath(letter))
  {
    hide IgnoredName, Segments;
    LargePathSegments(letter);
    PlainNameKept(SharedKey());
    PlainNameKept([letter]);
  }

  lemma LargePathSafe(letter: byte)
    requires 0x61 <= letter <= 0x7a
    ensures SafePath(LargePath(letter))
  {
    hide Segments;
    LargePathSegments(letter);
    var path := LargePath(letter);
    assert path == ROOT + SharedKey() + [SLASH] + [letter];
  }

  lemma LargePathDepth(letter: byte)
    requires 0x61 <= letter <= 0x7a
    ensures Depth(LargePath(letter)) <= MAX_DEPTH
  {
    hide Segments;
    LargePathSegments(letter);
    RootSegments([]);
    assert ROOT + [] == ROOT;
  }

  lemma LargePathKey(letter: byte)
    requires 0x61 <= letter <= 0x7a
    ensures DeviceKey(LargePath(letter)) == Some(SharedKey())
  {
    var key := LargePath(letter)[|ROOT|..];
    IndexOfIs(key, SLASH, KEY_DIGITS);
    assert key[..KEY_DIGITS] == SharedKey();
    assert forall i | 0 <= i < KEY_DIGITS :: key[i] == SharedKey()[i] && IsHexDigit(key[i]);
  }

  lemma LargePathFits(letter: byte)
    requires 0x61 <= letter <= 0x7a
    ensures Visited(LargePath(letter)) && SafePath(LargePath(letter))
    ensures Depth(LargePath(letter)) <= MAX_DEPTH && DeviceKey(LargePath(letter)) == Some(SharedKey())
  {
    hide *;
    LargePathVisited(letter);
    LargePathSafe(letter);
    LargePathDepth(letter);
    LargePathKey(letter);
  }

  function NinePaths(): (order: seq<seq<byte>>)
    ensures |order| == 9 && forall i | 0 <= i < 9 :: order[i] == LargePath(0x61 + i)
  {
    seq(9, i requires 0 <= i < 9 => LargePath(0x61 + i))
  }

  /** A card with these files, each of the largest size. */
  function NineFiles(): Tree {
    var large := Zeros(MAX_FILE_BYTES);
    map p | p in NinePaths() :: large
  }

  lemma NineFilesListed()
    ensures Lists(NineFiles(), NinePaths())
  {
    hide Visited, LargePath;
    forall i | 0 <= i < 9
      ensures Visited(NinePaths()[i]) && NinePaths()[i][|NinePaths()[i]| - 1] == 0x61 + i
    {
      LargePathVisited(0x61 + i);
    }
  }

  lemma NineEntries(i: nat)
    requires i < 9
    ensures Lists(NineFiles(), NinePaths())
    ensures var e := EntriesOf(NineFiles(), NinePaths())[i];
            && SafePath(e.path) && Fits(e) && Depth(e.path) <= MAX_DEPTH && DeviceKey(e.path) == Some(SharedKey())
            && |e.content| == MAX_FILE_BYTES
  {
    hide Visited, SafePath, Depth, DeviceKey, LargePath, Lists;
    NineFilesListed();
    LargePathFits(0x61 + i);
    assert NinePaths()[i] in NinePaths();
    PathLimit(NinePaths()[i]);
  }

  /**
   * Nine files of the largest size allowed, under one device key: the card exports them without complaint, and the
   * archive can neither be staged nor restored anywhere.
   */
  lemma ExportedButTooLarge() returns (tree: Tree, order: seq<seq<byte>>)
    ensures Lists(tree, order) && Exportable(EntriesOf(tree, order))
    ensures KeysOf(EntriesOf(tree, order)) == {Some(SharedKey())}
    ensures !Restorable(EntriesOf(tree, order))
    ensures forall hash, created :: !Stageable(|Archive(hash, EntriesOf(tree, order), created)|)
  {
    hide Visited, SafePath, Depth, DeviceKey, Archive, NinePaths, NineFiles, Lists;
    tree, order := NineFiles(), NinePaths();
    NineFilesListed();
    var entries := Entries(tree, order);
    forall i | 0 <= i < 9
      ensures SafePath(entries[i].path) && Fits(entries[i]) && Depth(entries[i].path) <= MAX_DEPTH
      ensures DeviceKey(entries[i].path) == Some(SharedKey()) && |entries[i].content| == MAX_FILE_BYTES
    {
      NineEntries(i);
    }
    SameSizes(entries, MAX_FILE_BYTES);
    assert DeviceKey(entries[0].path) == Some(SharedKey());
    forall hash, created
      ensures !Stageable(|Archive(hash, entries, created)|)
    {
      ArchiveLength(hash, entries, created);
    }
  }

  /** The entries of a tree that is listed. */
  ghost function Entries(tree: Tree, order: seq<seq<byte>>): (entries: seq<FileEntry>)
    requires Lists(tree, order)
    ensures entries == EntriesOf(tree, order)
  {
    EntriesOf(tree, order)
  }

  lemma {:induction false} SameSizes(entries: seq<FileEntry>, size: nat)
    requires forall i | 0 <= i < |entries| :: |entries[i].content| == size
    ensures DataBytes(entries) == |entries| * size
  {
    if entries != [] {
      SameSizes(entries[1..], size);
    }
  }
}
