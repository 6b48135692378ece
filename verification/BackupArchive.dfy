/** The backup archive: which files it holds, its bytes, and the check before a restore. */
module BackupArchive {
  import opened Bytes
  import opened LedgerText

  const HEADER_BYTES: nat := 32
  const ENTRY_BYTES: nat := 304
  const PATH_BYTES: nat := 256
  const MAX_DEPTH: nat := 10
  const MAX_FILES: nat := 4096
  const MAX_FILE_BYTES: nat := 64 * 1024 * 1024
  const MAX_ARCHIVE_BYTES: nat := 512 * 1024 * 1024
  const DEVICE_CAPACITY: nat := 16
  const KEY_DIGITS: nat := 24
  const VERSION: u32 := 1

  const SLASH: byte := 0x2f
  const BACKSLASH: byte := 0x5c
  const DOT: byte := 0x2e

  type Hash = seq<byte> -> Digest

  /** "RVLBKP01" */
  const ARCHIVE_MAGIC: seq<byte> := [0x52, 0x56, 0x4c, 0x42, 0x4b, 0x50, 0x30, 0x31]

  /** "RLE1" */
  const ENTRY_MAGIC: seq<byte> := [0x52, 0x4c, 0x45, 0x31]

  /** "revlink/devices/" */
  const ROOT: seq<byte> := [0x72, 0x65, 0x76, 0x6c, 0x69, 0x6e, 0x6b, 0x2f, 0x64, 0x65, 0x76, 0x69, 0x63, 0x65, 0x73, 0x2f]

  /** ".restore-partial" */
  const PARTIAL_SUFFIX: seq<byte> :=
    [0x2e, 0x72, 0x65, 0x73, 0x74, 0x6f, 0x72, 0x65, 0x2d, 0x70, 0x61, 0x72, 0x74, 0x69, 0x61, 0x6c]

  /** "tmp", ".tmp", ".bak", ".partial" */
  const TMP: seq<byte> := [0x74, 0x6d, 0x70]
  const DOT_TMP: seq<byte> := [0x2e, 0x74, 0x6d, 0x70]
  const DOT_BAK: seq<byte> := [0x2e, 0x62, 0x61, 0x6b]
  const DOT_PARTIAL: seq<byte> := [0x2e, 0x70, 0x61, 0x72, 0x74, 0x69, 0x61, 0x6c]

  datatype BackupStatus = BackupOk | InvalidArg | InvalidSize | InvalidResponse | InvalidCrc | NotFound | IoFailure | BadBackupState

  datatype FileEntry = FileEntry(path: seq<byte>, content: seq<byte>)

  // ---- Names and paths ---------------------------------------------------------------

  predicate EndsIn(s: seq<byte>, suffix: seq<byte>) {
    |s| >= |suffix| && s[|s| - |suffix|..] == suffix
  }

  predicate PartAt(s: seq<byte>, part: seq<byte>, i: nat) {
    i + |part| <= |s| && s[i..i + |part|] == part
  }

  predicate Contains(s: seq<byte>, part: seq<byte>) {
    exists i | 0 <= i <= |s| :: PartAt(s, part, i)
  }

  /** Names of working files, and what a crashed restore leaves behind. */
  predicate IgnoredName(name: seq<byte>) {
    name == TMP || EndsIn(name, DOT_TMP) || EndsIn(name, DOT_BAK) || Contains(name, DOT_PARTIAL)
    || Contains(name, PARTIAL_SUFFIX)
  }

  function Segments(path: seq<byte>): (segments: seq<seq<byte>>)
    ensures segments != []
    decreases |path|
  {
    var k := IndexOf(path, SLASH);
    if k == |path| then [path] else [path[..k]] + Segments(path[k + 1..])
  }

  predicate GoodSegment(segment: seq<byte>) {
    segment != [] && segment != [DOT] && segment != [DOT, DOT]
    && forall i | 0 <= i < |segment| :: 0x20 <= segment[i] <= 0x7e
  }

  predicate SafePath(path: seq<byte>) {
    && |ROOT| < |path| < PATH_BYTES && path[..|ROOT|] == ROOT
    && path[|path| - 1] != SLASH && BACKSLASH !in path
    && forall s | s in Segments(path) :: GoodSegment(s)
  }

  /** The walk visits a file when no name on its way is hidden or ignored. */
  predicate Visited(path: seq<byte>) {
    && |path| > |ROOT| && path[..|ROOT|] == ROOT
    && forall s | s in Segments(path[|ROOT|..]) :: s != [] && s[0] != DOT && !IgnoredName(s)
  }

  function Depth(path: seq<byte>): int {
    |Segments(path)| - |Segments(ROOT)|
  }

  // ---- Devices -----------------------------------------------------------------------

  predicate IsHexDigit(b: byte) {
    IsDigit(b) || 0x41 <= b <= 0x46 || 0x61 <= b <= 0x66
  }

  predicate AllHex(s: seq<byte>) {
    forall i | 0 <= i < |s| :: IsHexDigit(s[i])
  }

  /** The name of the device directory, if it has the shape of a device key. */
  function DeviceKey(path: seq<byte>): Option<seq<byte>> {
    var key := if |path| > |ROOT| then path[|ROOT|..] else [];
    var slash := IndexOf(key, SLASH);
    if slash == |key| || slash != KEY_DIGITS || !AllHex(key[..KEY_DIGITS]) then None
    else Some(key[..KEY_DIGITS])
  }

  function Remember(devices: seq<seq<byte>>, path: seq<byte>): Option<seq<seq<byte>>> {
    match DeviceKey(path)
    case None => None
    case Some(key) =>
      if key in devices then Some(devices)
      else if |devices| >= DEVICE_CAPACITY then None
      else Some(devices + [key])
  }

  // ---- The bytes -----------------------------------------------------------------------

  function EntryHeader(hash: Hash, e: FileEntry): (h: seq<byte>)
    requires |e.path| < PATH_BYTES && |e.content| <= MAX_FILE_BYTES
    ensures |h| == ENTRY_BYTES
  {
    ENTRY_MAGIC + StoreU16Le(|e.path|) + [0, 0] + StoreU64Le(|e.content|) + hash(e.content)
    + e.path + Zeros(PATH_BYTES - |e.path|)
  }

  predicate Fits(e: FileEntry) {
    |e.path| < PATH_BYTES && |e.content| <= MAX_FILE_BYTES
  }

  predicate AllFit(entries: seq<FileEntry>) {
    forall i | 0 <= i < |entries| :: Fits(entries[i])
  }

  function EntriesBytes(hash: Hash, entries: seq<FileEntry>): seq<byte>
    requires AllFit(entries)
  {
    if entries == [] then []
    else EntryHeader(hash, entries[0]) + entries[0].content + EntriesBytes(hash, entries[1..])
  }

  function DataBytes(entries: seq<FileEntry>): nat {
    if entries == [] then 0 else |entries[0].content| + DataBytes(entries[1..])
  }

  function ArchiveHeader(files: u32, data: u64, created: u64): (h: seq<byte>)
    ensures |h| == HEADER_BYTES
  {
    ARCHIVE_MAGIC + StoreU32Le(VERSION) + StoreU32Le(files) + StoreU64Le(data) + StoreU64Le(created)
  }

  predicate Archivable(entries: seq<FileEntry>) {
    AllFit(entries) && |entries| <= MAX_FILES
  }

  lemma {:induction false} DataBounded(entries: seq<FileEntry>)
    requires AllFit(entries)
    ensures DataBytes(entries) <= |entries| * MAX_FILE_BYTES
  {
    if entries != [] {
      DataBounded(entries[1..]);
    }
  }

  function Archive(hash: Hash, entries: seq<FileEntry>, created: u64): seq<byte>
    requires Archivable(entries)
  {
    DataBounded(entries);
    ArchiveHeader(|entries|, DataBytes(entries), created) + EntriesBytes(hash, entries)
  }

  lemma {:induction false} EntriesLength(hash: Hash, entries: seq<FileEntry>)
    requires AllFit(entries)
    ensures |EntriesBytes(hash, entries)| == ENTRY_BYTES * |entries| + DataBytes(entries)
  {
    if entries != [] {
      EntriesLength(hash, entries[1..]);
    }
  }

  /** The size announced before the export is the size exported. */
  lemma ArchiveLength(hash: Hash, entries: seq<FileEntry>, created: u64)
    requires Archivable(entries)
    ensures |Archive(hash, entries, created)| == HEADER_BYTES + ENTRY_BYTES * |entries| + DataBytes(entries)
  {
    EntriesLength(hash, entries);
    DataBounded(entries);
  }

  // ---- Reading ---------------------------------------------------------------------------

  datatype EntryReading = EntryRead(entry: FileEntry, devices: seq<seq<byte>>) | EntryRefused(status: BackupStatus)

  function ReadEntry(hash: Hash, bytes: seq<byte>, devices: seq<seq<byte>>): EntryReading {
    if |bytes| < ENTRY_BYTES || bytes[..4] != ENTRY_MAGIC then EntryRefused(InvalidResponse)
    else
      var length, size := LoadU16Le(bytes[4..6]), LoadU64Le(bytes[8..16]);
      if length == 0 || length >= PATH_BYTES || size > MAX_FILE_BYTES || bytes[48 + length] != 0 then EntryRefused(InvalidSize)
      else
        var path := CString(bytes[48..48 + length]);
        if !SafePath(path) then EntryRefused(InvalidArg)
        else
          match Remember(devices, path)
          case None => EntryRefused(InvalidArg)
          case Some(known) =>
            if |bytes| - ENTRY_BYTES < size then EntryRefused(InvalidCrc)
            else
              var content := bytes[ENTRY_BYTES..ENTRY_BYTES + size];
              if hash(content) != bytes[16..48] then EntryRefused(InvalidCrc)
              else EntryRead(FileEntry(path, content), known)
  }

  datatype Reading = Contents(entries: seq<FileEntry>, devices: seq<seq<byte>>, rest: seq<byte>) | Refused(status: BackupStatus)

  function ReadEntries(hash: Hash, bytes: seq<byte>, files: nat, devices: seq<seq<byte>>): Reading
    decreases files
  {
    if files == 0 then Contents([], devices, bytes)
    else
      match ReadEntry(hash, bytes, devices)
      case EntryRefused(status) => Refused(status)
      case EntryRead(e, known) =>
        if ENTRY_BYTES + |e.content| > |bytes| then Refused(InvalidCrc)
        else
          match ReadEntries(hash, bytes[ENTRY_BYTES + |e.content|..], files - 1, known)
          case Refused(status) => Refused(status)
          case Contents(entries, all, rest) => Contents([e] + entries, all, rest)
  }

  datatype Summary = Summary(files: u32, devices: nat, data: nat, archiveBytes: nat, created: u64, token: seq<byte>)

  datatype Validation = Accepted(summary: Summary, entries: seq<FileEntry>) | Invalid(status: BackupStatus)

  function Validate(hash: Hash, bytes: seq<byte>): Validation {
    if |bytes| < HEADER_BYTES || bytes[..8] != ARCHIVE_MAGIC || LoadU32Le(bytes[8..12]) != VERSION then Invalid(InvalidResponse)
    else
      var files, data := LoadU32Le(bytes[12..16]), LoadU64Le(bytes[16..24]);
      if files > MAX_FILES then Invalid(InvalidSize)
      else
        match ReadEntries(hash, bytes[HEADER_BYTES..], files, [])
        case Refused(status) => Invalid(status)
        case Contents(entries, devices, rest) =>
          if DataBytes(entries) != data || rest != [] then Invalid(InvalidSize)
          else Accepted(Summary(files, |devices|, data, |bytes|, LoadU64Le(bytes[24..32]), Hex(hash(bytes))), entries)
  }

  // ---- Round trip ----------------------------------------------------------------------

  function RememberAll(devices: seq<seq<byte>>, entries: seq<FileEntry>): Option<seq<seq<byte>>>
    decreases |entries|
  {
    if entries == [] then Some(devices)
    else
      match Remember(devices, entries[0].path)
      case None => None
      case Some(known) => RememberAll(known, entries[1..])
  }

  predicate AllSafe(entries: seq<FileEntry>) {
    forall i | 0 <= i < |entries| :: SafePath(entries[i].path)
  }

  lemma WordSizes()
    ensures forall v: u16 :: |StoreU16Le(v)| == 2
    ensures forall v: u32 :: |StoreU32Le(v)| == 4
    ensures forall v: u64 :: |StoreU64Le(v)| == 8
  {
  }

  /** Where each field of an entry lies, whatever follows. */
  lemma EntryLayout(hash: Hash, e: FileEntry, tail: seq<byte>)
    requires Fits(e)
    ensures var b := EntryHeader(hash, e) + tail;
            && b[..4] == ENTRY_MAGIC && LoadU16Le(b[4..6]) == |e.path| && LoadU64Le(b[8..16]) == |e.content|
            && b[16..48] == hash(e.content) && b[48..48 + |e.path|] == e.path && b[48 + |e.path|] == 0
  {
    hide StoreU16Le, StoreU64Le, LoadU16Le, LoadU64Le;
    WordSizes();
    StoreLoadU16(|e.path|);
    StoreLoadU64(|e.content|);
    var b := EntryHeader(hash, e) + tail;
    assert b[4..6] == StoreU16Le(|e.path|);
    assert b[8..16] == StoreU64Le(|e.content|);
  }

  lemma SafePathHasNoZero(path: seq<byte>)
    requires SafePath(path)
    ensures CString(path) == path && |path| > 0
  {
    NoZeroInSegments(path);
    IndexOfIs(path, 0, |path|);
    assert path[..|path|] == path;
  }

  lemma {:induction false} NoZeroInSegments(path: seq<byte>)
    requires forall s | s in Segments(path) :: GoodSegment(s)
    ensures 0 !in path
    decreases |path|
  {
    var k := IndexOf(path, SLASH);
    if k < |path| {
      assert path == path[..k] + [SLASH] + path[k + 1..];
      assert path[..k] in Segments(path) && GoodSegment(path[..k]);
      NoZeroInSegments(path[k + 1..]);
    } else {
      assert path in Segments(path) && GoodSegment(path);
    }
  }

  lemma ReadsItsEntry(hash: Hash, e: FileEntry, tail: seq<byte>, devices: seq<seq<byte>>)
    requires Fits(e) && SafePath(e.path)
    ensures ReadEntry(hash, EntryHeader(hash, e) + e.content + tail, devices)
            == match Remember(devices, e.path)
               case None => EntryRefused(InvalidArg)
               case Some(known) => EntryRead(e, known)
  {
    hide SafePath, Remember, EntryHeader, LoadU16Le, LoadU64Le, CString;
    var b := EntryHeader(hash, e) + (e.content + tail);
    assert EntryHeader(hash, e) + e.content + tail == b;
    EntryLayout(hash, e, e.content + tail);
    SafePathHasNoZero(e.path);
    assert b[ENTRY_BYTES..ENTRY_BYTES + |e.content|] == e.content;
  }

  lemma {:induction false} ReadsItsEntries(hash: Hash, entries: seq<FileEntry>, tail: seq<byte>, devices: seq<seq<byte>>)
    requires AllFit(entries) && AllSafe(entries)
    ensures ReadEntries(hash, EntriesBytes(hash, entries) + tail, |entries|, devices)
            == match RememberAll(devices, entries)
               case None => Refused(InvalidArg)
               case Some(all) => Contents(entries, all, tail)
    decreases |entries|
  {
    hide ReadEntry, SafePath, Remember, EntryHeader;
    if entries == [] {
      assert EntriesBytes(hash, entries) + tail == tail;
    } else {
      var e, rest := entries[0], entries[1..];
      var b := EntriesBytes(hash, entries) + tail;
      var after := EntriesBytes(hash, rest) + tail;
      assert b == EntryHeader(hash, e) + e.content + after;
      ReadsItsEntry(hash, e, after, devices);
      assert b[ENTRY_BYTES + |e.content|..] == after;
      match Remember(devices, e.path) {
        case None =>
        case Some(known) =>
          ReadsItsEntries(hash, rest, tail, known);
          assert [e] + rest == entries;
      }
    }
  }

  lemma HeaderLayout(files: u32, data: u64, created: u64, tail: seq<byte>)
    ensures var b := ArchiveHeader(files, data, created) + tail;
            && b[..8] == ARCHIVE_MAGIC && LoadU32Le(b[8..12]) == VERSION && LoadU32Le(b[12..16]) == files
            && LoadU64Le(b[16..24]) == data && LoadU64Le(b[24..32]) == created && b[HEADER_BYTES..] == tail
  {
    hide StoreU32Le, StoreU64Le, LoadU32Le, LoadU64Le;
    WordSizes();
    StoreLoadU32(VERSION);
    StoreLoadU32(files);
    StoreLoadU64(data);
    StoreLoadU64(created);
    var b := ArchiveHeader(files, data, created) + tail;
    assert b[8..12] == StoreU32Le(VERSION) && b[12..16] == StoreU32Le(files);
    assert b[16..24] == StoreU64Le(data) && b[24..32] == StoreU64Le(created);
  }

  /**
   * An archive of safe files reads back as exactly those files, unless some file does not lie under a device key or
   * there are more than sixteen keys.
   */
  lemma ValidateInvertsArchive(hash: Hash, entries: seq<FileEntry>, created: u64)
    requires Archivable(entries) && AllSafe(entries)
    ensures var b := Archive(hash, entries, created);
            Validate(hash, b)
            == match RememberAll([], entries)
               case None => Invalid(InvalidArg)
               case Some(all) =>
                 Accepted(Summary(|entries|, |all|, DataBytes(entries), |b|, created, Hex(hash(b))), entries)
  {
    hide ReadEntries, SafePath, Remember, EntriesBytes, ArchiveHeader, LoadU32Le, LoadU64Le;
    DataBounded(entries);
    var b := Archive(hash, entries, created);
    HeaderLayout(|entries|, DataBytes(entries), created, EntriesBytes(hash, entries));
    ReadsItsEntries(hash, entries, [], []);
    assert EntriesBytes(hash, entries) + [] == EntriesBytes(hash, entries);
  }

  // ---- When the device table suffices ----------------------------------------------------

  function KeysOf(entries: seq<FileEntry>): set<Option<seq<byte>>> {
    set i | 0 <= i < |entries| :: DeviceKey(entries[i].path)
  }

  function Known(devices: seq<seq<byte>>): set<Option<seq<byte>>> {
    set i | 0 <= i < |devices| :: Some(devices[i])
  }

  predicate Distinct(devices: seq<seq<byte>>) {
    forall i, j | 0 <= i < j < |devices| :: devices[i] != devices[j]
  }

  lemma {:induction false} KnownSize(devices: seq<seq<byte>>)
    requires Distinct(devices)
    ensures |Known(devices)| == |devices|
    decreases |devices|
  {
    if devices != [] {
      var last := |devices| - 1;
      KnownSize(devices[..last]);
      assert Known(devices) == Known(devices[..last]) + {Some(devices[last])};
    }
  }

  /** Remembering succeeds exactly when every file has a device key and all keys together fit the table. */
  lemma {:induction false} RememberAllIff(devices: seq<seq<byte>>, entries: seq<FileEntry>)
    requires Distinct(devices) && |devices| <= DEVICE_CAPACITY
    ensures RememberAll(devices, entries).Some? <==>
            None !in KeysOf(entries) && |Known(devices) + KeysOf(entries)| <= DEVICE_CAPACITY
    ensures RememberAll(devices, entries).Some? ==>
              |RememberAll(devices, entries).value| == |Known(devices) + KeysOf(entries)|
    decreases |entries|
  {
    hide DeviceKey, KeysOf, Known, Distinct;
    KnownSize(devices);
    if entries == [] {
      NoKeys(entries);
      assert Known(devices) + {} == Known(devices);
    } else {
      var key, rest := DeviceKey(entries[0].path), entries[1..];
      KeysSplit(entries);
      if key.Some? {
        var together := Known(devices) + KeysOf(entries);
        if key.value in devices {
          KnownHas(devices, key.value);
          assert together == Known(devices) + KeysOf(rest);
          RememberAllIff(devices, rest);
        } else {
          var more := devices + [key.value];
          KeyIsNew(devices, key.value);
          assert together == Known(more) + KeysOf(rest);
          KnownSize(more);
          if |devices| < DEVICE_CAPACITY {
            RememberAllIff(more, rest);
          } else {
            SubsetCount(Known(more), together);
          }
        }
      }
    }
  }

  lemma NoKeys(entries: seq<FileEntry>)
    requires entries == []
    ensures KeysOf(entries) == {}
  {
  }

  lemma KnownHas(devices: seq<seq<byte>>, key: seq<byte>)
    requires key in devices
    ensures Some(key) in Known(devices)
  {
  }

  lemma KeysSplit(entries: seq<FileEntry>)
    requires entries != []
    ensures KeysOf(entries) == {DeviceKey(entries[0].path)} + KeysOf(entries[1..])
  {
    hide SafePath, DeviceKey;
    var rest := entries[1..];
    forall i | 0 <= i < |entries|
      ensures DeviceKey(entries[i].path) in {DeviceKey(entries[0].path)} + KeysOf(rest)
    {
      if i > 0 {
        assert entries[i] == rest[i - 1];
      }
    }
    forall i | 0 <= i < |rest|
      ensures DeviceKey(rest[i].path) in KeysOf(entries)
    {
      assert rest[i] == entries[i + 1];
    }
  }

  lemma KeyIsNew(devices: seq<seq<byte>>, key: seq<byte>)
    requires Distinct(devices) && key !in devices
    ensures Distinct(devices + [key]) && Known(devices + [key]) == Known(devices) + {Some(key)}
  {
    var more := devices + [key];
    assert more[|devices|] == key && more[..|devices|] == devices;
    assert forall i | 0 <= i < |devices| :: more[i] == devices[i];
    assert Some(key) in Known(more) by {
      assert Some(more[|devices|]) in Known(more);
    }
    assert forall x | x in Known(devices) :: x in Known(more);
  }

  lemma {:induction false} SubsetCount(a: set<Option<seq<byte>>>, b: set<Option<seq<byte>>>)
    requires a <= b
    ensures |a| <= |b|
  {
    if a != {} {
      var x :| x in a;
      SubsetCount(a - {x}, b - {x});
    }
  }

  /** An archive of this length may be staged at all. */
  predicate Stageable(archiveBytes: nat) {
    HEADER_BYTES <= archiveBytes <= MAX_ARCHIVE_BYTES
  }

  /** What the files must meet beyond the limits of the export. */
  predicate Restorable(entries: seq<FileEntry>) {
    && None !in KeysOf(entries) && |KeysOf(entries)| <= DEVICE_CAPACITY
    && HEADER_BYTES + ENTRY_BYTES * |entries| + DataBytes(entries) <= MAX_ARCHIVE_BYTES
  }

  /** The exact condition under which an exported archive may be staged and passes its validation. */
  lemma ExportValidatesIff(hash: Hash, entries: seq<FileEntry>, created: u64)
    requires Archivable(entries) && AllSafe(entries)
    ensures var b := Archive(hash, entries, created); Stageable(|b|) && Validate(hash, b).Accepted? <==> Restorable(entries)
    ensures Validate(hash, Archive(hash, entries, created)).Accepted? <==>
            None !in KeysOf(entries) && |KeysOf(entries)| <= DEVICE_CAPACITY
    ensures Validate(hash, Archive(hash, entries, created)).Accepted? ==>
              && Validate(hash, Archive(hash, entries, created)).entries == entries
              && Validate(hash, Archive(hash, entries, created)).summary.devices == |KeysOf(entries)|
  {
    hide Validate, Archive, SafePath, DeviceKey, RememberAll;
    ArchiveLength(hash, entries, created);
    ValidateInvertsArchive(hash, entries, created);
    RememberAllIff([], entries);
    assert Known([]) + KeysOf(entries) == KeysOf(entries);
  }

  // ---- Exporting -------------------------------------------------------------------------

  type Tree = map<seq<byte>, seq<byte>>

  /** The walk lists each visited file once, in whatever order the directories give. */
  ghost predicate Lists(tree: Tree, order: seq<seq<byte>>) {
    && (forall i | 0 <= i < |order| :: order[i] in tree && Visited(order[i]))
    && (forall i, j | 0 <= i < j < |order| :: order[i] != order[j])
    && (forall p | p in tree && Visited(p) :: p in order)
  }

  function EntriesOf(tree: Tree, order: seq<seq<byte>>): (entries: seq<FileEntry>)
    requires forall i | 0 <= i < |order| :: order[i] in tree
    ensures |entries| == |order| && forall i | 0 <= i < |order| :: entries[i] == FileEntry(order[i], tree[order[i]])
  {
    seq(|order|, i requires 0 <= i < |order| => FileEntry(order[i], tree[order[i]]))
  }

  /** Every limit the walk enforces. */
  predicate Exportable(entries: seq<FileEntry>) {
    Archivable(entries) && AllSafe(entries) && forall i | 0 <= i < |entries| :: Depth(entries[i].path) <= MAX_DEPTH
  }

  /** A card, of which any operation may fail. */
  class Medium {
    /** Some operation failed. */
    ghost var troubled: bool

    constructor ()
      ensures !troubled
    {
      troubled := false;
    }

    method Attempt() returns (ok: bool)
      modifies this
      ensures if ok then troubled == old(troubled) else troubled
    {
      ok := *;
      troubled := troubled || !ok;
    }

    /** How much of so many bytes it moves at a time. */
    method Transfer(wanted: nat) returns (count: nat)
      requires wanted > 0
      modifies this
      ensures count <= wanted && (if count > 0 then troubled == old(troubled) else troubled)
    {
      var moved: int := *;
      count := if 0 < moved <= wanted then moved else 0;
      troubled := troubled || count == 0;
    }
  }

  /** Where the archive goes; it may refuse any write. */
  class Sink {
    var written: seq<byte>
    /** Some write was refused. */
    ghost var troubled: bool

    constructor ()
      ensures written == [] && !troubled
    {
      written, troubled := [], false;
    }

    method Write(data: seq<byte>) returns (ok: bool)
      modifies this
      ensures written == if ok then old(written) + data else old(written)
      ensures if ok then troubled == old(troubled) else troubled
    {
      ok := *;
      if ok {
        written := written + data;
      }
      troubled := troubled || !ok;
    }
  }

  const BUFFER_BYTES: nat := 4096

  /** One file, its content in pieces of a buffer. */
  method ExportOne(hash: Hash, e: FileEntry, card: Medium, sink: Sink) returns (status: BackupStatus)
    modifies card, sink
    ensures status == BackupOk ==> SafePath(e.path) && Fits(e) && sink.written == old(sink.written) + EntryHeader(hash, e) + e.content
    ensures |e.path| >= PATH_BYTES ==> status == InvalidSize
    ensures SafePath(e.path) && Fits(e) && !card.troubled && !sink.troubled ==> status == BackupOk
    ensures (old(card.troubled) ==> card.troubled) && (old(sink.troubled) ==> sink.troubled)
    ensures status == InvalidArg ==> !SafePath(e.path)
    requires |e.content| <= MAX_FILE_BYTES
  {
    hide SafePath, EntryHeader;
    PathLimit(e.path);
    if |e.path| >= PATH_BYTES {
      return InvalidSize;
    }
    if !SafePath(e.path) {
      return InvalidArg;
    }
    var header := EntryHeader(hash, e);
    var ok := card.Attempt();
    if !ok {
      return IoFailure;
    }
    ok := sink.Write(header);
    if !ok {
      return IoFailure;
    }
    var sent := 0;
    while sent < |e.content|
      invariant 0 <= sent <= |e.content|
      invariant sink.written == old(sink.written) + header + e.content[..sent]
      invariant (old(card.troubled) ==> card.troubled) && (old(sink.troubled) ==> sink.troubled)
    {
      var requested := if |e.content| - sent < BUFFER_BYTES then |e.content| - sent else BUFFER_BYTES;
      ok := card.Attempt();
      if ok {
        ok := sink.Write(e.content[sent..sent + requested]);
      }
      if !ok {
        return IoFailure;
      }
      assert e.content[..sent + requested] == e.content[..sent] + e.content[sent..sent + requested];
      sent := sent + requested;
    }
    assert e.content[..sent] == e.content;
    return BackupOk;
  }

  lemma PathLimit(path: seq<byte>)
    ensures SafePath(path) ==> |path| < PATH_BYTES
  {
  }

  /** Counts and measures first, then writes. */
  method Scan(tree: Tree, order: seq<seq<byte>>) returns (status: BackupStatus, files: nat, data: nat)
    requires forall i | 0 <= i < |order| :: order[i] in tree
    ensures status in {BackupOk, InvalidSize}
    ensures status == BackupOk <==> var entries := EntriesOf(tree, order);
              |entries| <= MAX_FILES
              && forall i | 0 <= i < |entries| :: |entries[i].content| <= MAX_FILE_BYTES && Depth(entries[i].path) <= MAX_DEPTH
    ensures status == BackupOk ==> files == |order| && data == DataBytes(EntriesOf(tree, order))
  {
    hide Depth;
    files, data := 0, 0;
    for index := 0 to |order|
      invariant files == index <= MAX_FILES
      invariant data == DataBytes(EntriesOf(tree, order)[..index])
      invariant forall i | 0 <= i < index ::
                  |EntriesOf(tree, order)[i].content| <= MAX_FILE_BYTES && Depth(EntriesOf(tree, order)[i].path) <= MAX_DEPTH
    {
      assert EntriesOf(tree, order)[index] == FileEntry(order[index], tree[order[index]]);
      if Depth(order[index]) > MAX_DEPTH || |tree[order[index]]| > MAX_FILE_BYTES || files >= MAX_FILES {
        return InvalidSize, files, data;
      }
      ghost var entries := EntriesOf(tree, order);
      assert entries[..index + 1] == entries[..index] + [entries[index]];
      DataSnoc(entries[..index], entries[index]);
      files := files + 1;
      data := data + |tree[order[index]]|;
    }
    assert EntriesOf(tree, order)[..|order|] == EntriesOf(tree, order);
    status := BackupOk;
  }

  lemma {:induction false} DataSnoc(entries: seq<FileEntry>, e: FileEntry)
    ensures DataBytes(entries + [e]) == DataBytes(entries) + |e.content|
  {
    if entries == [] {
      assert entries + [e] == [e];
    } else {
      DataSnoc(entries[1..], e);
      assert (entries + [e])[1..] == entries[1..] + [e];
    }
  }

  lemma {:induction false} BytesSnoc(hash: Hash, entries: seq<FileEntry>, e: FileEntry)
    requires AllFit(entries) && Fits(e)
    ensures AllFit(entries + [e])
    ensures EntriesBytes(hash, entries + [e]) == EntriesBytes(hash, entries) + EntryHeader(hash, e) + e.content
  {
    hide EntryHeader;
    if entries == [] {
      assert entries + [e] == [e];
      assert EntriesBytes(hash, [e]) == EntryHeader(hash, e) + e.content + EntriesBytes(hash, []);
    } else {
      BytesSnoc(hash, entries[1..], e);
      assert (entries + [e])[1..] == entries[1..] + [e];
    }
  }

  /** A completed export wrote exactly the archive of every visited file, of the announced length. */
  method Export(tree: Tree, order: seq<seq<byte>>, hash: Hash, created: u64, card: Medium, sink: Sink)
    returns (status: BackupStatus, announced: nat)
    requires Lists(tree, order)
    modifies card, sink
    ensures status == BackupOk ==>
              && Exportable(EntriesOf(tree, order))
              && sink.written == old(sink.written) + Archive(hash, EntriesOf(tree, order), created)
              && announced == |Archive(hash, EntriesOf(tree, order), created)|
    ensures Exportable(EntriesOf(tree, order)) && !card.troubled && !sink.troubled ==> status == BackupOk
    ensures (old(card.troubled) ==> card.troubled) && (old(sink.troubled) ==> sink.troubled)
    ensures status == InvalidArg ==> exists p :: p in tree && Visited(p) && !SafePath(p)
  {
    hide SafePath, EntryHeader, ArchiveHeader, Depth, Visited;
    announced := 0;
    var files, data;
    status, files, data := Scan(tree, order);
    if status != BackupOk {
      return;
    }
    ghost var entries := EntriesOf(tree, order);
    announced := HEADER_BYTES + files * ENTRY_BYTES + data;
    ScanFits(entries);
    var header := ArchiveHeader(files, data, created);
    var ok := sink.Write(header);
    if !ok {
      return IoFailure, announced;
    }
    status := ExportAll(EntriesOf(tree, order), hash, card, sink);
    if status == BackupOk {
      ArchiveLength(hash, entries, created);
    }
  }

  method ExportAll(entries: seq<FileEntry>, hash: Hash, card: Medium, sink: Sink) returns (status: BackupStatus)
    requires forall i | 0 <= i < |entries| :: |entries[i].content| <= MAX_FILE_BYTES
    modifies card, sink
    ensures status == BackupOk ==>
              AllFit(entries) && AllSafe(entries) && sink.written == old(sink.written) + EntriesBytes(hash, entries)
    ensures AllFit(entries) && AllSafe(entries) && !card.troubled && !sink.troubled ==> status == BackupOk
    ensures (old(card.troubled) ==> card.troubled) && (old(sink.troubled) ==> sink.troubled)
    ensures status == InvalidArg ==> exists i :: 0 <= i < |entries| && !SafePath(entries[i].path)
  {
    hide SafePath, EntryHeader;
    status := BackupOk;
    assert entries[..0] == [];
    for index := 0 to |entries|
      invariant status == BackupOk && AllFit(entries[..index]) && AllSafe(entries[..index])
      invariant sink.written == old(sink.written) + EntriesBytes(hash, entries[..index])
      invariant (old(card.troubled) ==> card.troubled) && (old(sink.troubled) ==> sink.troubled)
    {
      status := ExportOne(hash, entries[index], card, sink);
      if status != BackupOk {
        return;
      }
      BytesSnoc(hash, entries[..index], entries[index]);
      assert entries[..index + 1] == entries[..index] + [entries[index]];
    }
    assert entries[..|entries|] == entries;
  }

  lemma ScanFits(entries: seq<FileEntry>)
    requires |entries| <= MAX_FILES && forall i | 0 <= i < |entries| :: |entries[i].content| <= MAX_FILE_BYTES
    ensures DataBytes(entries) <= MAX_FILES * MAX_FILE_BYTES
    decreases |entries|
  {
    SizesBounded(entries);
  }

  lemma {:induction false} SizesBounded(entries: seq<FileEntry>)
    requires forall i | 0 <= i < |entries| :: |entries[i].content| <= MAX_FILE_BYTES
    ensures DataBytes(entries) <= |entries| * MAX_FILE_BYTES
    decreases |entries|
  {
    if entries != [] {
      SizesBounded(entries[1..]);
    }
  }
}
