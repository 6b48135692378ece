/** What bytes the validation of a backup accepts: exactly the images of safe files that carry their digests. */
module BackupImage {
  import opened Bytes
  import opened LedgerText
  import opened BackupArchive

  // ---- Paths ----------------------------------------------------------------------------------

  /** A stretch of the path between slashes, or between one and an end. */
  predicate Between(path: seq<byte>, i: int, j: int) {
    && 0 <= i <= j <= |path| && SLASH !in path[i..j]
    && (i == 0 || path[i - 1] == SLASH) && (j == |path| || path[j] == SLASH)
  }

  /** The first segment ends at the first slash, and the others are those behind it. */
  lemma SegmentsSplit(path: seq<byte>, k: nat)
    requires k == IndexOf(path, SLASH)
    ensures k == |path| ==> Segments(path) == [path]
    ensures k < |path| ==> Segments(path) == [path[..k]] + Segments(path[k + 1..])
  {
    hide IndexOf;
  }

  lemma FirstSlash(path: seq<byte>, k: nat)
    requires k == IndexOf(path, SLASH)
    ensures SLASH !in path[..k] && (k < |path| ==> path[k] == SLASH) && (k == |path| ==> SLASH !in path)
  {
    hide IndexOf;
    assert path[..|path|] == path;
  }

  lemma FirstIsBetween(path: seq<byte>, k: nat)
    requires k == IndexOf(path, SLASH)
    ensures Between(path, 0, k) && path[0..k] == path[..k]
  {
    FirstSlash(path, k);
    hide IndexOf;
    assert path[0..k] == path[..k];
  }

  lemma HeadIsBetween(path: seq<byte>, s: seq<byte>, k: nat)
    requires k == IndexOf(path, SLASH) && (s == path[..k] || (k == |path| && s in Segments(path)))
    ensures Between(path, 0, k) && s == path[0..k]
  {
    SegmentsSplit(path, k);
    FirstIsBetween(path, k);
    hide Segments, Between, IndexOf;
    assert path[..|path|] == path;
  }

  /** The stretches between slashes are the segments. */
  lemma {:induction false} SegmentIsBetween(path: seq<byte>, s: seq<byte>) returns (i: nat, j: nat)
    requires s in Segments(path)
    ensures i <= j <= |path| && Between(path, i, j) && s == path[i..j]
    decreases |path|
  {
    hide Segments, Between, IndexOf;
    var k := IndexOf(path, SLASH);
    if k == |path| || s == path[..k] {
      HeadIsBetween(path, s, k);
      i, j := 0, k;
    } else {
      SegmentsSplit(path, k);
      FirstSlash(path, k);
      FirstOrLater(path[..k], Segments(path[k + 1..]), s);
      i, j := SegmentIsBetween(path[k + 1..], s);
      BetweenInTail(path, k, i, j);
      i, j := k + 1 + i, k + 1 + j;
    }
  }

  lemma FirstOrLater<T>(first: T, rest: seq<T>, x: T)
    requires x in [first] + rest
    ensures x == first || x in rest
  {
  }

  lemma FirstIsSegment(path: seq<byte>, k: nat, i: nat, j: nat)
    requires k == IndexOf(path, SLASH) && Between(path, i, j) && i <= k
    ensures j <= |path| && i <= j && path[i..j] in Segments(path)
  {
    SegmentsSplit(path, k);
    FirstSlash(path, k);
    WithinPath(path, i, j);
    hide IndexOf, Segments;
    if k == |path| {
      WholeIsBetween(path, i, j);
    } else {
      BetweenAtHead(path, k, i, j);
      assert path[i..j] == path[..k];
      hide Between;
      InTail(path[..k], Segments(path[k + 1..]));
    }
  }

  lemma LaterIsSegment(path: seq<byte>, k: nat, s: seq<byte>)
    requires k == IndexOf(path, SLASH) && k < |path| && s in Segments(path[k + 1..])
    ensures s in Segments(path)
  {
    SegmentsSplit(path, k);
    hide Segments, IndexOf;
    InTail(path[..k], Segments(path[k + 1..]));
  }

  lemma InTail<T>(first: T, rest: seq<T>)
    ensures first in [first] + rest && forall x | x in rest :: x in [first] + rest
  {
  }

  lemma {:induction false} BetweenIsSegment(path: seq<byte>, i: nat, j: nat)
    requires Between(path, i, j)
    ensures j <= |path| && i <= j && path[i..j] in Segments(path)
    decreases |path|
  {
    hide Segments, Between, IndexOf;
    WithinPath(path, i, j);
    var k := IndexOf(path, SLASH);
    if i <= k {
      FirstIsSegment(path, k, i, j);
    } else {
      BetweenInTail(path, k, i - (k + 1), j - (k + 1));
      BetweenIsSegment(path[k + 1..], i - (k + 1), j - (k + 1));
      LaterIsSegment(path, k, path[i..j]);
    }
  }

  lemma WithinPath(path: seq<byte>, i: nat, j: nat)
    requires Between(path, i, j)
    ensures i <= j <= |path|
  {
  }

  lemma WholeIsBetween(path: seq<byte>, i: nat, j: nat)
    requires SLASH !in path && Between(path, i, j)
    ensures path[i..j] == path
  {
    assert forall m | 0 <= m < |path| :: path[m] in path;
    assert i == 0 && j == |path|;
  }

  lemma BetweenInTail(path: seq<byte>, k: nat, i: nat, j: nat)
    requires k < |path| && path[k] == SLASH && i <= j <= |path| - (k + 1)
    ensures Between(path, k + 1 + i, k + 1 + j) <==> Between(path[k + 1..], i, j)
    ensures path[k + 1 + i..k + 1 + j] == path[k + 1..][i..j]
  {
    assert path[k + 1 + i..k + 1 + j] == path[k + 1..][i..j];
  }

  lemma BetweenAtHead(path: seq<byte>, k: nat, i: nat, j: nat)
    requires k < |path| && path[k] == SLASH && SLASH !in path[..k] && Between(path, i, j) && i <= k
    ensures i == 0 && j == k
  {
    assert path[0..k] == path[..k];
    NoSlashIn(path, 0, k);
    NoSlashIn(path, i, j);
  }

  lemma NoSlashIn(path: seq<byte>, i: nat, j: nat)
    requires i <= j <= |path| && SLASH !in path[i..j]
    ensures forall m | i <= m < j :: path[m] != SLASH
  {
    assert forall m | i <= m < j :: path[i..j][m - i] == path[m];
  }

  /**
   * A path is safe exactly when it lies below the root, fits its field, and between its slashes there is never nothing,
   * a dot or two dots, and otherwise only printable characters and no backslash.
   */
  lemma SafePathIff(path: seq<byte>)
    ensures SafePath(path) <==>
            && 16 < |path| < 256 && path[..16] == ROOT && BACKSLASH !in path
            && (forall b | b in path :: 0x20 <= b <= 0x7e)
            && (forall i, j | Between(path, i, j) :: path[i..j] !in {[], [DOT], [DOT, DOT]})
  {
    hide SafePath;
    SafeSegmentsIff(path);
    if forall i, j | Between(path, i, j) :: path[i..j] !in {[], [DOT], [DOT, DOT]} {
      NoSlashAtEnd(path);
    }
    SafePathUnfold(path);
  }

  lemma SafePathUnfold(path: seq<byte>)
    ensures SafePath(path) <==>
            && |ROOT| < |path| < PATH_BYTES && path[..|ROOT|] == ROOT && path[|path| - 1] != SLASH && BACKSLASH !in path
            && forall s | s in Segments(path) :: GoodSegment(s)
  {
  }

  lemma NoSlashAtEnd(path: seq<byte>)
    requires forall i, j | Between(path, i, j) :: path[i..j] !in {[], [DOT], [DOT, DOT]}
    ensures |path| > 0 ==> path[|path| - 1] != SLASH
  {
    assert path[|path|..|path|] == [];
    assert |path| > 0 && path[|path| - 1] == SLASH ==> Between(path, |path|, |path|);
  }

  lemma SafeSegmentsIff(path: seq<byte>)
    ensures (forall s | s in Segments(path) :: GoodSegment(s)) <==>
            && (forall b | b in path :: 0x20 <= b <= 0x7e)
            && (forall i, j | Between(path, i, j) :: path[i..j] !in {[], [DOT], [DOT, DOT]})
  {
    PrintableIff(path);
    if forall s | s in Segments(path) :: GoodSegment(s) {
      forall i, j | Between(path, i, j)
        ensures path[i..j] !in {[], [DOT], [DOT, DOT]}
      {
        BetweenIsSegment(path, i, j);
        assert GoodSegment(path[i..j]);
      }
    }
    if (forall b | b in path :: 0x20 <= b <= 0x7e) && (forall i, j | Between(path, i, j) :: path[i..j] !in {[], [DOT], [DOT, DOT]}) {
      forall s | s in Segments(path)
        ensures GoodSegment(s)
      {
        var i, j := SegmentIsBetween(path, s);
        assert forall k | 0 <= k < |s| :: s[k] in s;
      }
    }
  }

  /** The slash itself is printable, so it is enough to look between slashes. */
  lemma {:induction false} PrintableIff(path: seq<byte>)
    ensures (forall b | b in path :: 0x20 <= b <= 0x7e) <==>
            forall s, b | s in Segments(path) && b in s :: 0x20 <= b <= 0x7e
    decreases |path|
  {
    var k := IndexOf(path, SLASH);
    if k == |path| {
      assert Segments(path) == [path];
    } else {
      var head, tail := path[..k], path[k + 1..];
      PrintableIff(tail);
      assert path == head + [SLASH] + tail;
      assert head in Segments(path) && Segments(path) == [head] + Segments(tail);
      assert forall b | b in path :: b in head || b == SLASH || b in tail;
      assert forall b | b in head || b in tail :: b in path;
    }
  }

  ghost predicate EndsWith(name: seq<byte>, suffix: seq<byte>) {
    exists front: seq<byte> :: name == front + suffix
  }

  ghost predicate Holding(name: seq<byte>, part: seq<byte>) {
    exists front: seq<byte>, back: seq<byte> :: name == front + part + back
  }

  lemma EndsInIff(name: seq<byte>, suffix: seq<byte>)
    ensures EndsIn(name, suffix) <==> EndsWith(name, suffix)
  {
    if EndsIn(name, suffix) {
      assert name == name[..|name| - |suffix|] + suffix;
    }
    if front: seq<byte> :| name == front + suffix {
      assert (front + suffix)[|front|..] == suffix;
    }
  }

  lemma ContainsIff(name: seq<byte>, part: seq<byte>)
    ensures Contains(name, part) <==> Holding(name, part)
  {
    if i :| 0 <= i <= |name| && PartAt(name, part, i) {
      assert name == name[..i] + part + name[i + |part|..];
    }
    if front: seq<byte>, back: seq<byte> :| name == front + part + back {
      assert name[|front|..|front| + |part|] == part;
      assert PartAt(name, part, |front|);
    }
  }

  /** Names of working files: "tmp", and anything that ends in ".tmp" or ".bak" or holds ".partial" or ".restore-partial". */
  ghost predicate WorkingName(name: seq<byte>) {
    || name == [0x74, 0x6d, 0x70]
    || EndsWith(name, [0x2e, 0x74, 0x6d, 0x70]) || EndsWith(name, [0x2e, 0x62, 0x61, 0x6b])
    || Holding(name, [0x2e, 0x70, 0x61, 0x72, 0x74, 0x69, 0x61, 0x6c])
    || Holding(name, [0x2e, 0x72, 0x65, 0x73, 0x74, 0x6f, 0x72, 0x65, 0x2d, 0x70, 0x61, 0x72, 0x74, 0x69, 0x61, 0x6c])
  }

  lemma IgnoredIff(name: seq<byte>)
    ensures IgnoredName(name) <==> WorkingName(name)
  {
    EndsInIff(name, DOT_TMP);
    EndsInIff(name, DOT_BAK);
    ContainsIff(name, DOT_PARTIAL);
    ContainsIff(name, PARTIAL_SUFFIX);
    hide EndsIn, Contains, EndsWith, Holding;
  }

  /**
   * A file is part of a backup exactly when it lies below the root, and no name on the way to it is empty, hidden, or
   * that of a working file.
   */
  lemma VisitedIff(path: seq<byte>)
    ensures Visited(path) <==>
            && |path| > 16 && path[..16] == ROOT
            && forall i, j | Between(path[16..], i, j) :: VisitedName(path[16..][i..j])
  {
    hide IgnoredName, WorkingName, Between, Segments;
    if |path| > 16 && path[..16] == ROOT {
      var rest := path[16..];
      assert |ROOT| == 16 && path[|ROOT|..] == rest;
      if forall s | s in Segments(rest) :: s != [] && s[0] != DOT && !IgnoredName(s) {
        forall i, j | Between(rest, i, j)
          ensures 0 <= i <= j <= |rest| && VisitedName(rest[i..j])
        {
          NotNegative(rest, i, j);
          BetweenIsSegment(rest, i, j);
          IgnoredIff(rest[i..j]);
        }
      }
      forall s | s in Segments(rest) && !(s != [] && s[0] != DOT && !IgnoredName(s))
        ensures exists i, j :: Between(rest, i, j) && 0 <= i <= j <= |rest| && !VisitedName(rest[i..j])
      {
        var i, j := SegmentIsBetween(rest, s);
        IgnoredIff(s);
        assert !VisitedName(rest[i..j]);
      }
    }
  }

  ghost predicate VisitedName(s: seq<byte>) {
    s != [] && s[0] != DOT && !WorkingName(s)
  }

  lemma NotNegative(path: seq<byte>, i: int, j: int)
    requires Between(path, i, j)
    ensures 0 <= i <= j <= |path|
  {
  }

  predicate HexDigits(s: seq<byte>) {
    forall i | 0 <= i < |s| :: 0x30 <= s[i] <= 0x39 || 0x41 <= s[i] <= 0x46 || 0x61 <= s[i] <= 0x66
  }

  /** A device key is 24 hexadecimal digits between the root and the next slash. */
  lemma DeviceKeyIs(path: seq<byte>)
    requires |path| > 16 && path[..16] == ROOT
    ensures DeviceKey(path) == if |path| > 40 && path[40] == SLASH && HexDigits(path[16..40]) then Some(path[16..40]) else None
  {
    var rest := path[16..];
    assert |ROOT| == 16 && path[|ROOT|..] == rest;
    if |path| > 40 {
      var key := path[16..40];
      assert rest[..24] == key && rest[24] == path[40];
      assert AllHex(key) <==> HexDigits(key);
      if HexDigits(key) && path[40] == SLASH {
        NoSlashAmongDigits(key);
        IndexOfIs(rest, SLASH, 24);
      }
    }
  }

  lemma NoSlashAmongDigits(key: seq<byte>)
    requires HexDigits(key)
    ensures SLASH !in key
  {
  }

  // ---- What may be exported ---------------------------------------------------------------------

  function Slashes(s: seq<byte>): nat {
    if s == [] then 0 else Slashes(s[..|s| - 1]) + if s[|s| - 1] == SLASH then 1 else 0
  }

  lemma {:induction false} SlashesConcat(a: seq<byte>, b: seq<byte>)
    ensures Slashes(a + b) == Slashes(a) + Slashes(b)
    decreases |b|
  {
    if b == [] {
      assert a + b == a;
    } else {
      SlashesConcat(a, b[..|b| - 1]);
      assert (a + b)[..|a + b| - 1] == a + b[..|b| - 1];
    }
  }

  lemma {:induction false} NoSlashes(s: seq<byte>)
    requires SLASH !in s
    ensures Slashes(s) == 0
    decreases |s|
  {
    if s != [] {
      NoSlashes(s[..|s| - 1]);
    }
  }

  lemma {:induction false} SegmentsCount(path: seq<byte>)
    ensures |Segments(path)| == Slashes(path) + 1
    decreases |path|
  {
    hide Segments, IndexOf, Slashes;
    var k := IndexOf(path, SLASH);
    SegmentsSplit(path, k);
    FirstSlash(path, k);
    if k == |path| {
      NoSlashes(path);
    } else {
      SegmentsCount(path[k + 1..]);
      assert path == path[..k] + ([SLASH] + path[k + 1..]);
      SlashesConcat(path[..k], [SLASH] + path[k + 1..]);
      SlashesConcat([SLASH], path[k + 1..]);
      NoSlashes(path[..k]);
      OneSlash();
    }
  }

  lemma OneSlash()
    ensures Slashes([SLASH]) == 1
  {
    assert [SLASH][..0] == [];
  }

  /** How many directories below the root a file lies. */
  lemma DepthIs(path: seq<byte>)
    requires |path| > 16 && path[..16] == ROOT
    ensures Depth(path) == Slashes(path[16..])
  {
    hide Segments, Slashes;
    SegmentsCount(path);
    SegmentsCount(ROOT);
    assert path == ROOT + path[16..];
    SlashesConcat(ROOT, path[16..]);
  }

  /** Up to 4096 safe files of up to 64 MiB, none more than ten directories below the root. */
  lemma ExportableIff(entries: seq<FileEntry>)
    ensures Exportable(entries) <==>
            && |entries| <= 4096
            && forall i | 0 <= i < |entries| ::
                 && SafePath(entries[i].path) && |entries[i].content| <= 67108864
                 && |entries[i].path| > 16 && Slashes(entries[i].path[16..]) <= 10
  {
    hide SafePath, Slashes, Depth;
    forall i | 0 <= i < |entries| && SafePath(entries[i].path)
      ensures 16 < |entries[i].path| < PATH_BYTES && Depth(entries[i].path) == Slashes(entries[i].path[16..])
    {
      SafePathUnfold(entries[i].path);
      DepthIs(entries[i].path);
    }
  }

  // ---- Entries ----------------------------------------------------------------------------------

  /** A header that describes this file: its length, its path, and the digest of its content. */
  predicate HeaderFor(hash: Hash, h: seq<byte>, e: FileEntry) {
    && |h| == 304 && h[..4] == ENTRY_MAGIC
    && LoadU64Le(h[8..16]) == |e.content| <= MAX_FILE_BYTES && h[16..48] == hash(e.content)
    && var length := LoadU16Le(h[4..6]);
    && 0 < length < 256 && h[48 + length] == 0 && CString(h[48..48 + length]) == e.path
  }

  /** Each header before its content. */
  function Image(headers: seq<seq<byte>>, entries: seq<FileEntry>): seq<byte>
    requires |headers| == |entries|
  {
    if entries == [] then [] else headers[0] + entries[0].content + Image(headers[1..], entries[1..])
  }

  predicate HeadersFor(hash: Hash, headers: seq<seq<byte>>, entries: seq<FileEntry>) {
    |headers| == |entries| && forall i | 0 <= i < |entries| :: HeaderFor(hash, headers[i], entries[i])
  }

  lemma ReadsHeader(hash: Hash, h: seq<byte>, e: FileEntry, tail: seq<byte>, devices: seq<seq<byte>>)
    requires HeaderFor(hash, h, e) && SafePath(e.path)
    ensures ReadEntry(hash, h + e.content + tail, devices)
            == match Remember(devices, e.path)
               case None => EntryRefused(InvalidArg)
               case Some(known) => EntryRead(e, known)
  {
    hide SafePath, Remember, LoadU16Le, LoadU64Le, CString;
    var b := h + e.content + tail;
    assert b[..4] == h[..4] && b[4..6] == h[4..6] && b[8..16] == h[8..16] && b[16..48] == h[16..48];
    var length := LoadU16Le(h[4..6]);
    assert b[48..48 + length] == h[48..48 + length] && b[48 + length] == h[48 + length];
    assert b[ENTRY_BYTES..ENTRY_BYTES + |e.content|] == e.content;
  }

  lemma HeaderWasRead(hash: Hash, bytes: seq<byte>, devices: seq<seq<byte>>, e: FileEntry, known: seq<seq<byte>>)
    requires ReadEntry(hash, bytes, devices) == EntryRead(e, known)
    ensures |bytes| >= ENTRY_BYTES + |e.content|
    ensures HeaderFor(hash, bytes[..ENTRY_BYTES], e) && SafePath(e.path) && Remember(devices, e.path) == Some(known)
    ensures bytes == bytes[..ENTRY_BYTES] + e.content + bytes[ENTRY_BYTES + |e.content|..]
  {
    hide SafePath, Remember, LoadU16Le, LoadU64Le, CString;
    var h := bytes[..ENTRY_BYTES];
    assert bytes[..4] == h[..4] && bytes[4..6] == h[4..6] && bytes[8..16] == h[8..16] && bytes[16..48] == h[16..48];
    var length := LoadU16Le(h[4..6]);
    assert bytes[48..48 + length] == h[48..48 + length] && bytes[48 + length] == h[48 + length];
    assert e.content == bytes[ENTRY_BYTES..ENTRY_BYTES + |e.content|];
  }

  lemma {:induction false} ReadsImage(hash: Hash, headers: seq<seq<byte>>, entries: seq<FileEntry>, devices: seq<seq<byte>>)
    requires HeadersFor(hash, headers, entries) && AllSafe(entries)
    ensures ReadEntries(hash, Image(headers, entries), |entries|, devices)
            == match RememberAll(devices, entries)
               case None => Refused(InvalidArg)
               case Some(all) => Contents(entries, all, [])
    decreases |entries|
  {
    hide ReadEntry, SafePath, Remember, HeaderFor;
    if entries != [] {
      var e, rest := entries[0], entries[1..];
      var after := Image(headers[1..], rest);
      var b := Image(headers, entries);
      assert HeaderFor(hash, headers[0], e);
      HeaderSize(hash, headers[0], e);
      ReadsHeader(hash, headers[0], e, after, devices);
      assert b[ENTRY_BYTES + |e.content|..] == after;
      match Remember(devices, e.path) {
        case None =>
        case Some(known) =>
          ReadsImage(hash, headers[1..], rest, known);
          assert [e] + rest == entries;
      }
    }
  }

  lemma HeaderSize(hash: Hash, h: seq<byte>, e: FileEntry)
    requires HeaderFor(hash, h, e)
    ensures |h| == ENTRY_BYTES
  {
  }

  lemma {:induction false} ImageWasRead(hash: Hash, bytes: seq<byte>, files: nat, devices: seq<seq<byte>>)
    returns (headers: seq<seq<byte>>)
    requires ReadEntries(hash, bytes, files, devices).Contents?
    ensures var r := ReadEntries(hash, bytes, files, devices);
            && |r.entries| == files && HeadersFor(hash, headers, r.entries) && AllSafe(r.entries)
            && bytes == Image(headers, r.entries) + r.rest && RememberAll(devices, r.entries) == Some(r.devices)
    decreases files
  {
    hide ReadEntry, SafePath, Remember, HeaderFor;
    if files == 0 {
      headers := [];
    } else {
      var first := ReadEntry(hash, bytes, devices);
      HeaderWasRead(hash, bytes, devices, first.entry, first.devices);
      var h, after := bytes[..ENTRY_BYTES], bytes[ENTRY_BYTES + |first.entry.content|..];
      var rest := ImageWasRead(hash, after, files - 1, first.devices);
      headers := [h] + rest;
      var r := ReadEntries(hash, after, files - 1, first.devices);
      var entries := [first.entry] + r.entries;
      assert headers[1..] == rest && entries[1..] == r.entries;
      assert bytes == h + first.entry.content + (Image(rest, r.entries) + r.rest);
    }
  }

  /** These bytes are an archive of these files, every one with the digest of its content. */
  ghost predicate Holds(hash: Hash, bytes: seq<byte>, entries: seq<FileEntry>) {
    && |bytes| >= 32 && bytes[..8] == ARCHIVE_MAGIC && LoadU32Le(bytes[8..12]) == 1
    && LoadU32Le(bytes[12..16]) == |entries| <= 4096 && LoadU64Le(bytes[16..24]) == DataBytes(entries)
    && exists headers :: HeadersFor(hash, headers, entries) && bytes[32..] == Image(headers, entries)
  }

  /**
   * Whatever the bytes: they are accepted as these files exactly when they are an archive of them, every file under a
   * safe path and a device key and beside its own digest, with at most sixteen keys in all.
   */
  lemma AcceptedIff(hash: Hash, bytes: seq<byte>, entries: seq<FileEntry>)
    ensures Validate(hash, bytes).Accepted? && Validate(hash, bytes).entries == entries <==>
            && Holds(hash, bytes, entries) && AllSafe(entries)
            && None !in KeysOf(entries) && |KeysOf(entries)| <= 16
  {
    hide ReadEntries, SafePath, DeviceKey, RememberAll, LoadU32Le, LoadU64Le, HeaderFor, Image, DataBytes, AllSafe;
    RememberAllIff([], entries);
    assert Known([]) + KeysOf(entries) == KeysOf(entries);
    if Validate(hash, bytes).Accepted? && Validate(hash, bytes).entries == entries {
      var files := LoadU32Le(bytes[12..16]);
      var headers := ImageWasRead(hash, bytes[HEADER_BYTES..], files, []);
      assert Image(headers, entries) + [] == Image(headers, entries);
    }
    if Holds(hash, bytes, entries) && AllSafe(entries) && None !in KeysOf(entries) && |KeysOf(entries)| <= 16 {
      var headers :| HeadersFor(hash, headers, entries) && bytes[32..] == Image(headers, entries);
      ReadsImage(hash, headers, entries, []);
    }
  }

  /** A file whose content was exchanged for one of the same length and another digest keeps the archive from being accepted. */
  lemma ExchangedContentRefused(hash: Hash, entries: seq<FileEntry>, created: u64, i: nat, content: seq<byte>)
    requires Archivable(entries) && AllSafe(entries) && i < |entries|
    requires |content| == |entries[i].content| && hash(content) != hash(entries[i].content)
    ensures var at := HEADER_BYTES + ENTRY_BYTES * (i + 1) + DataBytes(entries[..i]);
            var b := Archive(hash, entries, created);
            && at + |content| <= |b| && b[at..at + |content|] == entries[i].content
            && Validate(hash, b[..at] + content + b[at + |content|..]).Invalid?
  {
    hide Validate, ReadEntries, SafePath, EntryHeader, ArchiveHeader, Remember, Archive, EntriesBytes, AllFit, AllSafe, Fits, Archivable;
    var before, e := entries[..i], entries[i];
    FitsEach(entries, i);
    var start, after := ArchiveAround(hash, entries, created, i);
    var at := HEADER_BYTES + ENTRY_BYTES * (i + 1) + DataBytes(before);
    var b := Archive(hash, entries, created);
    Exchanged(b, start, e.content, after, content);
    var tail := EntryHeader(hash, e) + content + after;
    assert start + content + after
           == ArchiveHeader(|entries|, DataBytes(entries), created) + (EntriesBytes(hash, before) + tail);
    StopsAtExchanged(hash, before, e, content, after, |entries|, []);
    RefusedInside(hash, |entries|, DataBytes(entries), created, EntriesBytes(hash, before) + tail);
  }

  lemma FitsEach(entries: seq<FileEntry>, i: nat)
    requires Archivable(entries) && AllSafe(entries) && i < |entries|
    ensures AllFit(entries) && AllFit(entries[..i]) && AllSafe(entries[..i]) && Fits(entries[i]) && |entries| <= MAX_FILES
    ensures DataBytes(entries) <= MAX_FILES * MAX_FILE_BYTES
    ensures |entries[i].path| < PATH_BYTES && |entries[i].content| <= MAX_FILE_BYTES
  {
    hide SafePath;
    DataBounded(entries);
  }

  /** What lies before and behind the content of one file. */
  lemma ArchiveAround(hash: Hash, entries: seq<FileEntry>, created: u64, i: nat) returns (start: seq<byte>, after: seq<byte>)
    requires Archivable(entries) && i < |entries| && Fits(entries[i]) && AllFit(entries[..i])
    requires DataBytes(entries) <= MAX_FILES * MAX_FILE_BYTES && |entries| <= MAX_FILES
    ensures Archive(hash, entries, created) == start + entries[i].content + after
    ensures |start| == HEADER_BYTES + ENTRY_BYTES * (i + 1) + DataBytes(entries[..i])
    ensures start == ArchiveHeader(|entries|, DataBytes(entries), created)
                     + (EntriesBytes(hash, entries[..i]) + EntryHeader(hash, entries[i]))
  {
    hide EntryHeader, ArchiveHeader, EntriesBytes;
    ArchiveSplits(hash, entries, i);
    EntriesLength(hash, entries[..i]);
    start := ArchiveHeader(|entries|, DataBytes(entries), created) + (EntriesBytes(hash, entries[..i]) + EntryHeader(hash, entries[i]));
    after := EntriesBytes(hash, entries[i + 1..]);
  }

  lemma Exchanged(b: seq<byte>, start: seq<byte>, was: seq<byte>, after: seq<byte>, now: seq<byte>)
    requires b == start + was + after && |now| == |was|
    ensures |start| + |now| <= |b| && b[|start|..|start| + |now|] == was
    ensures b[..|start|] + now + b[|start| + |now|..] == start + now + after
  {
    assert b[..|start|] == start && b[|start| + |now|..] == after;
  }

  lemma RefusedInside(hash: Hash, files: u32, data: u64, created: u64, tail: seq<byte>)
    requires ReadEntries(hash, tail, files, []).Refused?
    ensures Validate(hash, ArchiveHeader(files, data, created) + tail).Invalid?
  {
    hide ReadEntries, ArchiveHeader, LoadU32Le, LoadU64Le;
    HeaderLayout(files, data, created, tail);
  }

  lemma {:induction false} ArchiveSplits(hash: Hash, entries: seq<FileEntry>, i: nat)
    requires AllFit(entries) && i < |entries|
    ensures AllFit(entries[..i]) && AllFit(entries[i + 1..])
    ensures EntriesBytes(hash, entries)
            == EntriesBytes(hash, entries[..i]) + EntryHeader(hash, entries[i]) + entries[i].content + EntriesBytes(hash, entries[i + 1..])
    decreases i
  {
    hide EntryHeader;
    if i == 0 {
      assert entries[..0] == [];
    } else {
      ArchiveSplits(hash, entries[1..], i - 1);
      assert entries[1..][..i - 1] == entries[..i][1..];
      assert entries[1..][i..] == entries[i + 1..];
      assert entries[..i][0] == entries[0];
    }
  }

  lemma {:induction false} StopsAtExchanged(hash: Hash, before: seq<FileEntry>, e: FileEntry, content: seq<byte>, tail: seq<byte>,
                                            files: nat, devices: seq<seq<byte>>)
    requires AllFit(before) && AllSafe(before) && Fits(e) && files > |before|
    requires |content| == |e.content| && hash(content) != hash(e.content)
    ensures ReadEntries(hash, EntriesBytes(hash, before) + (EntryHeader(hash, e) + content + tail), files, devices).Refused?
    decreases |before|
  {
    hide ReadEntry, SafePath, Remember, EntryHeader;
    var last := EntryHeader(hash, e) + content + tail;
    if before == [] {
      assert EntriesBytes(hash, before) + last == last;
      ExchangedEntryRefused(hash, e, content, tail, devices);
    } else {
      var b := EntriesBytes(hash, before) + last;
      var first, rest := before[0], EntriesBytes(hash, before[1..]) + last;
      assert b == EntryHeader(hash, first) + first.content + rest;
      ReadsItsEntry(hash, first, rest, devices);
      assert b[ENTRY_BYTES + |first.content|..] == rest;
      match Remember(devices, first.path) {
        case None =>
        case Some(known) => StopsAtExchanged(hash, before[1..], e, content, tail, files - 1, known);
      }
    }
  }

  lemma ExchangedEntryRefused(hash: Hash, e: FileEntry, content: seq<byte>, tail: seq<byte>, devices: seq<seq<byte>>)
    requires Fits(e) && |content| == |e.content| && hash(content) != hash(e.content)
    ensures ReadEntry(hash, EntryHeader(hash, e) + content + tail, devices).EntryRefused?
  {
    hide SafePath, Remember, EntryHeader, LoadU16Le, LoadU64Le, CString;
    var b := EntryHeader(hash, e) + (content + tail);
    assert EntryHeader(hash, e) + content + tail == b;
    EntryLayout(hash, e, content + tail);
    assert b[ENTRY_BYTES..ENTRY_BYTES + |content|] == content;
  }
}
