/** The sync manifest: a bounded table of cached files, its map meaning, and its text form. */
module SyncManifest {
  import opened Bytes
  import opened LedgerText

  const CAPACITY: nat := 128

  datatype Presence = Unknown | OnDevice | Absent

  datatype Entry = Entry(
    path: seq<byte>,
    deviceTime: u32,
    size: u32,
    initialSync: u64,
    sha256: Digest,
    cacheName: seq<byte>,
    presence: Presence)

  const NO_ENTRY: Entry := Entry([], 0, 0, 0, NO_DIGEST, [], Unknown)

  type Table = seq<Entry>

  // ---- Table invariant ---------------------------------------------------------

  predicate WellFormed(e: Entry) {
    ValidPath(e.path) && ValidCacheName(e.cacheName) && e.size != 0
  }

  predicate UniquePaths(t: Table) {
    forall i, j | 0 <= i < j < |t| :: t[i].path != t[j].path
  }

  predicate NormalForm(t: Table) {
    |t| <= CAPACITY && UniquePaths(t) && forall i | 0 <= i < |t| :: WellFormed(t[i])
  }

  /** Position of a path, or the table length. */
  function IndexOfPath(t: Table, path: seq<byte>): (i: nat)
    ensures i <= |t|
    ensures i < |t| ==> t[i].path == path
    ensures forall k | 0 <= k < i :: t[k].path != path
  {
    if t == [] || t[0].path == path then 0 else 1 + IndexOfPath(t[1..], path)
  }

  function FindSpec(t: Table, path: seq<byte>): Option<Entry> {
    if ValidPath(path) && IndexOfPath(t, path) < |t| then Some(t[IndexOfPath(t, path)]) else None
  }

  /** A zero device time is no identity, so such a file is never current. */
  predicate MetadataMatches(entry: Option<Entry>, deviceTime: u32, size: u32) {
    entry.Some? && deviceTime != 0 && entry.value.deviceTime == deviceTime && entry.value.size == size
  }

  /** Some row has this path, device time and size. */
  predicate Records(t: Table, path: seq<byte>, deviceTime: u32, size: u32) {
    exists i :: 0 <= i < |t| && t[i].path == path && t[i].deviceTime == deviceTime && t[i].size == size
  }

  /** Metadata matches exactly when the file has a device time and a row records path, time and size together. */
  lemma MatchesIffRecorded(t: Table, path: seq<byte>, deviceTime: u32, size: u32)
    requires NormalForm(t)
    ensures MetadataMatches(FindSpec(t, path), deviceTime, size) <==> deviceTime != 0 && Records(t, path, deviceTime, size)
  {
    if i :| 0 <= i < |t| && t[i].path == path && t[i].deviceTime == deviceTime && t[i].size == size {
      IndexOfPathIs(t, i);
      assert WellFormed(t[i]);
    }
  }

  // ---- Operations on the table -----------------------------------------------------

  datatype Upserted = Upserted(status: Status, table: Table)

  /** What an upsert stores, given the entry it replaces, if any. */
  function Merge(previous: Option<Entry>, path: seq<byte>, deviceTime: u32, size: u32, initialSync: u64,
                 sha256: Digest, cacheName: seq<byte>): Entry
  {
    Entry(
      path, deviceTime, size,
      if previous.Some? && previous.value.sha256 == sha256 then previous.value.initialSync else initialSync,
      sha256, cacheName,
      if previous.Some? then previous.value.presence else Unknown)
  }

  function UpsertSpec(t: Table, path: seq<byte>, deviceTime: u32, size: u32, initialSync: u64,
                      sha256: Digest, cacheName: seq<byte>): Upserted
  {
    if size == 0 || !ValidPath(path) || !ValidCacheName(cacheName) then Upserted(InvalidArgument, t)
    else
      var i := IndexOfPath(t, path);
      if i < |t| then
        Upserted(Ok, t[i := Merge(Some(t[i]), path, deviceTime, size, initialSync, sha256, cacheName)])
      else if |t| >= CAPACITY then Upserted(CapacityExceeded, t)
      else Upserted(Ok, t + [Merge(None, path, deviceTime, size, initialSync, sha256, cacheName)])
  }

  function SetPresenceSpec(t: Table, path: seq<byte>, presence: Presence): Table {
    var i := IndexOfPath(t, path);
    if ValidPath(path) && i < |t| then t[i := t[i].(presence := presence)] else t
  }

  /** The last entry moves into the gap. */
  function RemoveSpec(t: Table, path: seq<byte>): Table {
    var i := IndexOfPath(t, path);
    if !ValidPath(path) || i == |t| then t
    else if i + 1 < |t| then t[i := t[|t| - 1]][..|t| - 1]
    else t[..|t| - 1]
  }

  function DigestUsersSpec(t: Table, sha256: Digest): nat {
    if t == [] then 0 else (if t[0].sha256 == sha256 then 1 else 0) + DigestUsersSpec(t[1..], sha256)
  }

  // ---- The table as a map -------------------------------------------------------------

  function ByPath(t: Table): map<seq<byte>, Entry> {
    map path | path in PathSet(t) :: t[IndexOfPath(t, path)]
  }

  function PathSet(t: Table): (paths: set<seq<byte>>)
    ensures forall path :: path in paths <==> IndexOfPath(t, path) < |t|
  {
    var paths := set i | 0 <= i < |t| :: t[i].path;
    assert forall path :: IndexOfPath(t, path) < |t| ==> t[IndexOfPath(t, path)].path in paths;
    paths
  }

  lemma IndexOfPathIs(t: Table, i: nat)
    requires UniquePaths(t) && i < |t|
    ensures IndexOfPath(t, t[i].path) == i
  {
  }

  /** The lookup stops at the first row with the path. */
  lemma IndexOfPathFirst(t: Table, path: seq<byte>, i: nat)
    requires i <= |t| && (i < |t| ==> t[i].path == path)
    requires forall k | 0 <= k < i :: t[k].path != path
    ensures IndexOfPath(t, path) == i
  {
  }

  lemma UpsertKeepsNormalForm(t: Table, path: seq<byte>, deviceTime: u32, size: u32, initialSync: u64,
                              sha256: Digest, cacheName: seq<byte>)
    requires NormalForm(t)
    ensures NormalForm(UpsertSpec(t, path, deviceTime, size, initialSync, sha256, cacheName).table)
  {
  }

  lemma SetPresenceKeepsNormalForm(t: Table, path: seq<byte>, presence: Presence)
    requires NormalForm(t)
    ensures NormalForm(SetPresenceSpec(t, path, presence))
  {
  }

  lemma RemoveKeepsNormalForm(t: Table, path: seq<byte>)
    requires NormalForm(t)
    ensures NormalForm(RemoveSpec(t, path))
  {
  }

  /** Lookup in the map is lookup in the table. */
  lemma MapIsTable(t: Table)
    requires UniquePaths(t)
    ensures forall i | 0 <= i < |t| :: t[i].path in ByPath(t) && ByPath(t)[t[i].path] == t[i]
    ensures |ByPath(t)| == |t|
  {
    forall i | 0 <= i < |t|
      ensures t[i].path in ByPath(t) && ByPath(t)[t[i].path] == t[i]
    {
      IndexOfPathIs(t, i);
    }
    PathSetSize(t);
    assert ByPath(t).Keys == PathSet(t);
  }

  lemma {:induction false} PathSetSize(t: Table)
    requires UniquePaths(t)
    ensures |PathSet(t)| == |t|
  {
    if t != [] {
      PathSetSize(t[1..]);
      forall path
        ensures path in PathSet(t) <==> path in PathSet(t[1..]) + {t[0].path}
      {
      }
      assert PathSet(t) == PathSet(t[1..]) + {t[0].path};
    }
  }

  function Lookup(m: map<seq<byte>, Entry>, path: seq<byte>): Option<Entry> {
    if path in m then Some(m[path]) else None
  }

  /** A map that agrees with the table row by row is its map. */
  lemma MapEquals(t: Table, m: map<seq<byte>, Entry>)
    requires UniquePaths(t)
    requires forall i | 0 <= i < |t| :: t[i].path in m && m[t[i].path] == t[i]
    requires forall path | path in m :: exists i :: 0 <= i < |t| && t[i].path == path
    ensures ByPath(t) == m
  {
    MapIsTable(t);
    forall path
      ensures path in ByPath(t) <==> path in m
      ensures path in m ==> ByPath(t)[path] == m[path]
    {
      if path in m {
        var i :| 0 <= i < |t| && t[i].path == path;
      }
    }
  }

  /** An accepted upsert writes one path of the map, merged with what was there. */
  lemma UpsertRefinesMap(t: Table, path: seq<byte>, deviceTime: u32, size: u32, initialSync: u64,
                         sha256: Digest, cacheName: seq<byte>)
    requires NormalForm(t)
    requires UpsertSpec(t, path, deviceTime, size, initialSync, sha256, cacheName).status == Ok
    ensures ByPath(UpsertSpec(t, path, deviceTime, size, initialSync, sha256, cacheName).table)
         == ByPath(t)[path := Merge(Lookup(ByPath(t), path), path, deviceTime, size, initialSync, sha256, cacheName)]
    ensures var row := ByPath(UpsertSpec(t, path, deviceTime, size, initialSync, sha256, cacheName).table)[path];
            && row.path == path && row.deviceTime == deviceTime && row.size == size
            && row.sha256 == sha256 && row.cacheName == cacheName
            && (path !in ByPath(t) || ByPath(t)[path].sha256 != sha256 ==> row.initialSync == initialSync)
  {
    hide ValidPath, ValidCacheName, PathSet, WellFormed;
    var u := UpsertSpec(t, path, deviceTime, size, initialSync, sha256, cacheName).table;
    UpsertKeepsNormalForm(t, path, deviceTime, size, initialSync, sha256, cacheName);
    MapIsTable(t);
    var m, i := ByPath(t), IndexOfPath(t, path);
    LookupIsIndex(t, path);
    PutRow(t, i, u, Merge(Lookup(m, path), path, deviceTime, size, initialSync, sha256, cacheName));
  }

  lemma LookupIsIndex(t: Table, path: seq<byte>)
    requires UniquePaths(t)
    ensures Lookup(ByPath(t), path) == if IndexOfPath(t, path) < |t| then Some(t[IndexOfPath(t, path)]) else None
  {
  }

  /** Writing one row, in place or at the end, writes one path of the map. */
  lemma PutRow(t: Table, i: nat, u: Table, e: Entry)
    requires UniquePaths(t) && UniquePaths(u) && i <= |t|
    requires u == if i < |t| then t[i := e] else t + [e]
    requires i < |t| ==> t[i].path == e.path
    ensures ByPath(u) == ByPath(t)[e.path := e]
  {
    hide ByPath;
    MapIsTable(t);
    var m := ByPath(t)[e.path := e];
    forall k | 0 <= k < |u|
      ensures u[k].path in m && m[u[k].path] == u[k]
    {
      assert u[i] == e;
      if k != i {
        assert u[k].path != u[i].path && u[k] == t[k];
      }
    }
    forall path | path in m
      ensures exists k :: 0 <= k < |u| && u[k].path == path
    {
      if path == e.path {
        assert u[i].path == path;
      } else {
        var k := KeyHasRow(t, path);
        assert u[k].path == path;
      }
    }
    MapEquals(u, m);
  }

  lemma KeyHasRow(t: Table, path: seq<byte>) returns (k: nat)
    requires path in ByPath(t)
    ensures k < |t| && t[k].path == path
  {
    k := IndexOfPath(t, path);
  }

  lemma SetPresenceRefinesMap(t: Table, path: seq<byte>, presence: Presence)
    requires NormalForm(t)
    ensures ByPath(SetPresenceSpec(t, path, presence))
         == if path in ByPath(t) then ByPath(t)[path := ByPath(t)[path].(presence := presence)] else ByPath(t)
  {
    hide ValidPath, ValidCacheName, PathSet;
    var i := IndexOfPath(t, path);
    LookupIsIndex(t, path);
    if i < |t| {
      assert WellFormed(t[i]);
      SetPresenceKeepsNormalForm(t, path, presence);
      PutRow(t, i, SetPresenceSpec(t, path, presence), t[i].(presence := presence));
    }
  }

  lemma RemoveRefinesMap(t: Table, path: seq<byte>)
    requires NormalForm(t)
    ensures ByPath(RemoveSpec(t, path)) == ByPath(t) - {path}
  {
    hide ValidPath, ValidCacheName, PathSet;
    var u, i := RemoveSpec(t, path), IndexOfPath(t, path);
    LookupIsIndex(t, path);
    if i < |t| {
      assert WellFormed(t[i]);
      RemoveKeepsNormalForm(t, path);
      DropRow(t, i, u);
    } else {
      assert ByPath(t) - {path} == ByPath(t);
    }
  }

  /** Moving the last row into the gap removes one path of the map. */
  lemma DropRow(t: Table, i: nat, u: Table)
    requires UniquePaths(t) && UniquePaths(u) && i < |t|
    requires u == t[i := t[|t| - 1]][..|t| - 1]
    ensures ByPath(u) == ByPath(t) - {t[i].path}
  {
    hide ByPath;
    MapIsTable(t);
    var m, last := ByPath(t) - {t[i].path}, |t| - 1;
    forall k | 0 <= k < |u|
      ensures u[k].path in m && m[u[k].path] == u[k]
    {
      var source := if k == i then last else k;
      assert u[k] == t[source] && source != i;
    }
    forall path | path in m
      ensures exists k :: 0 <= k < |u| && u[k].path == path
    {
      var k := KeyHasRow(t, path);
      assert u[if k == last then i else k].path == path;
    }
    MapEquals(u, m);
  }

  // ---- Reference counts ------------------------------------------------------------

  /** The count of rows with a digest is the number of paths whose content it is. */
  lemma DigestUsersCountsPaths(t: Table, sha256: Digest)
    requires UniquePaths(t)
    ensures DigestUsersSpec(t, sha256) == |set path | path in ByPath(t) && ByPath(t)[path].sha256 == sha256|
  {
    MapIsTable(t);
    hide ByPath;
    var viaRows := PathsWith(t, sha256);
    PathsWithSize(t, sha256);
    forall path
      ensures path in viaRows <==> path in ByPath(t) && ByPath(t)[path].sha256 == sha256
    {
      if path in ByPath(t) {
        var k := KeyHasRow(t, path);
      }
    }
    assert viaRows == set path | path in ByPath(t) && ByPath(t)[path].sha256 == sha256;
  }

  function PathsWith(t: Table, sha256: Digest): set<seq<byte>> {
    set i | 0 <= i < |t| && t[i].sha256 == sha256 :: t[i].path
  }

  lemma {:induction false} PathsWithSize(t: Table, sha256: Digest)
    requires UniquePaths(t)
    ensures |PathsWith(t, sha256)| == DigestUsersSpec(t, sha256)
  {
    if t != [] {
      PathsWithSize(t[1..], sha256);
      var rest := PathsWith(t[1..], sha256);
      assert forall i | 0 <= i < |t[1..]| :: t[1..][i] == t[i + 1];
      if t[0].sha256 == sha256 {
        assert PathsWith(t, sha256) == rest + {t[0].path};
        assert t[0].path !in rest;
      } else {
        assert PathsWith(t, sha256) == rest;
      }
    }
  }

  function Uses(e: Option<Entry>, sha256: Digest): nat {
    if e.Some? && e.value.sha256 == sha256 then 1 else 0
  }

  lemma {:induction false} UsersAfterPut(t: Table, i: nat, e: Entry, sha256: Digest)
    requires i < |t|
    ensures DigestUsersSpec(t[i := e], sha256) ==
            DigestUsersSpec(t, sha256) - Uses(Some(t[i]), sha256) + Uses(Some(e), sha256)
    decreases |t|
  {
    if i > 0 {
      UsersAfterPut(t[1..], i - 1, e, sha256);
      assert t[i := e][1..] == t[1..][i - 1 := e];
    } else {
      assert t[i := e][1..] == t[1..];
    }
  }

  lemma {:induction false} UsersAppend(t: Table, u: Table, sha256: Digest)
    ensures DigestUsersSpec(t + u, sha256) == DigestUsersSpec(t, sha256) + DigestUsersSpec(u, sha256)
    decreases |t|
  {
    if t == [] {
      assert t + u == u;
    } else {
      UsersAppend(t[1..], u, sha256);
      assert (t + u)[1..] == t[1..] + u;
    }
  }

  lemma UsersOfOne(e: Entry, sha256: Digest)
    ensures DigestUsersSpec([e], sha256) == Uses(Some(e), sha256)
  {
    assert [e][1..] == [];
  }

  /** Each step moves the count by exactly the references it drops and adds. */
  lemma UpsertMovesUsers(t: Table, path: seq<byte>, deviceTime: u32, size: u32, initialSync: u64,
                         sha256: Digest, cacheName: seq<byte>, counted: Digest)
    requires NormalForm(t)
    ensures var r := UpsertSpec(t, path, deviceTime, size, initialSync, sha256, cacheName);
            DigestUsersSpec(r.table, counted) ==
            if r.status != Ok then DigestUsersSpec(t, counted)
            else DigestUsersSpec(t, counted) - Uses(FindSpec(t, path), counted) + if sha256 == counted then 1 else 0
  {
    var i := IndexOfPath(t, path);
    var previous := if i < |t| then Some(t[i]) else None;
    var e := Merge(previous, path, deviceTime, size, initialSync, sha256, cacheName);
    if i < |t| {
      UsersAfterPut(t, i, e, counted);
    } else {
      UsersAppend(t, [e], counted);
      UsersOfOne(e, counted);
    }
  }

  lemma RemoveMovesUsers(t: Table, path: seq<byte>, counted: Digest)
    requires NormalForm(t)
    ensures DigestUsersSpec(RemoveSpec(t, path), counted) ==
            DigestUsersSpec(t, counted) - Uses(FindSpec(t, path), counted)
  {
    hide ValidPath, WellFormed, UniquePaths;
    var i := IndexOfPath(t, path);
    if ValidPath(path) && i < |t| {
      var last := t[|t| - 1];
      var moved := t[i := last];
      UsersAfterPut(t, i, last, counted);
      assert moved == moved[..|t| - 1] + [last];
      UsersAppend(moved[..|t| - 1], [last], counted);
      UsersOfOne(last, counted);
      assert RemoveSpec(t, path) == moved[..|t| - 1];
    }
  }

  lemma SetPresenceKeepsUsers(t: Table, path: seq<byte>, presence: Presence, counted: Digest)
    ensures DigestUsersSpec(SetPresenceSpec(t, path, presence), counted) == DigestUsersSpec(t, counted)
  {
    var i := IndexOfPath(t, path);
    if i < |t| {
      UsersAfterPut(t, i, t[i].(presence := presence), counted);
    }
  }

  // ---- Runs ------------------------------------------------------------------------

  datatype Step =
    | Upsert(path: seq<byte>, deviceTime: u32, size: u32, initialSync: u64, sha256: Digest, cacheName: seq<byte>)
    | SetPresence(path: seq<byte>, presence: Presence)
    | Remove(path: seq<byte>)

  function Apply(t: Table, step: Step): Table {
    match step
    case Upsert(path, deviceTime, size, initialSync, sha256, cacheName) =>
      UpsertSpec(t, path, deviceTime, size, initialSync, sha256, cacheName).table
    case SetPresence(path, presence) => SetPresenceSpec(t, path, presence)
    case Remove(path) => RemoveSpec(t, path)
  }

  function Run(t: Table, steps: seq<Step>): Table
    decreases |steps|
  {
    if steps == [] then t else Run(Apply(t, steps[0]), steps[1..])
  }

  lemma {:induction false} RunKeepsNormalForm(t: Table, steps: seq<Step>)
    requires NormalForm(t)
    ensures NormalForm(Run(t, steps))
    decreases |steps|
  {
    if steps != [] {
      ApplyKeepsNormalForm(t, steps[0]);
      RunKeepsNormalForm(Apply(t, steps[0]), steps[1..]);
    }
  }

  lemma ApplyKeepsNormalForm(t: Table, step: Step)
    requires NormalForm(t)
    ensures NormalForm(Apply(t, step))
  {
    match step
    case Upsert(path, deviceTime, size, initialSync, sha256, cacheName) =>
      UpsertKeepsNormalForm(t, path, deviceTime, size, initialSync, sha256, cacheName);
    case SetPresence(path, presence) => SetPresenceKeepsNormalForm(t, path, presence);
    case Remove(path) => RemoveKeepsNormalForm(t, path);
  }

  /** A step that neither removes the path nor gives it other content. */
  predicate KeepsContent(step: Step, path: seq<byte>, sha256: Digest) {
    match step
    case Upsert(p, _, _, _, d, _) => p == path ==> d == sha256
    case SetPresence(_, _) => true
    case Remove(p) => p != path
  }

  lemma StepKeepsSyncTime(t: Table, step: Step, path: seq<byte>, e: Entry)
    requires NormalForm(t) && Lookup(ByPath(t), path) == Some(e) && KeepsContent(step, path, e.sha256)
    ensures Lookup(ByPath(Apply(t, step)), path).Some?
    ensures Lookup(ByPath(Apply(t, step)), path).value.sha256 == e.sha256
    ensures Lookup(ByPath(Apply(t, step)), path).value.initialSync == e.initialSync
    ensures step.Upsert? ==> Lookup(ByPath(Apply(t, step)), path).value.presence == e.presence
  {
    hide ByPath, NormalForm;
    match step
    case Upsert(p, deviceTime, size, initialSync, sha256, cacheName) =>
      if UpsertSpec(t, p, deviceTime, size, initialSync, sha256, cacheName).status == Ok {
        UpsertRefinesMap(t, p, deviceTime, size, initialSync, sha256, cacheName);
      }
    case SetPresence(p, presence) => SetPresenceRefinesMap(t, p, presence);
    case Remove(p) => RemoveRefinesMap(t, p);
  }

  /** However often the same content is observed again, the first sync time stays. */
  lemma {:induction false} FirstSyncTimeStays(t: Table, steps: seq<Step>, path: seq<byte>, e: Entry)
    requires NormalForm(t) && Lookup(ByPath(t), path) == Some(e)
    requires forall i | 0 <= i < |steps| :: KeepsContent(steps[i], path, e.sha256)
    ensures Lookup(ByPath(Run(t, steps)), path).Some?
    ensures Lookup(ByPath(Run(t, steps)), path).value.sha256 == e.sha256
    ensures Lookup(ByPath(Run(t, steps)), path).value.initialSync == e.initialSync
    ensures (forall i | 0 <= i < |steps| :: steps[i].Upsert?) ==>
              Lookup(ByPath(Run(t, steps)), path).value.presence == e.presence
    decreases |steps|
  {
    hide ByPath, NormalForm, Apply;
    if steps != [] {
      ApplyKeepsNormalForm(t, steps[0]);
      StepKeepsSyncTime(t, steps[0], path, e);
      FirstSyncTimeStays(Apply(t, steps[0]), steps[1..], path, Lookup(ByPath(Apply(t, steps[0])), path).value);
    }
  }

  /** No upsert, of whatever path and content, changes a presence already recorded; a fresh row starts as unknown. */
  lemma UpsertKeepsPresence(t: Table, step: Step, path: seq<byte>)
    requires NormalForm(t) && step.Upsert?
    ensures var before, after := Lookup(ByPath(t), path), Lookup(ByPath(Apply(t, step)), path);
            && (before.Some? ==> after.Some? && after.value.presence == before.value.presence)
            && (before == None && after.Some? ==> step.path == path && after.value.presence == Unknown)
  {
    hide ByPath, NormalForm;
    var Upsert(p, deviceTime, size, initialSync, sha256, cacheName) := step;
    if UpsertSpec(t, p, deviceTime, size, initialSync, sha256, cacheName).status == Ok {
      UpsertRefinesMap(t, p, deviceTime, size, initialSync, sha256, cacheName);
    }
  }
}
