/** One bounded sync batch over the device's collections, and the chain of continuation batches. */
module BatchSync {
  import opened Bytes
  import opened LedgerText
  import opened SyncManifest
  import opened BatchSelection
  import Store = SyncManifestLedger

  const MAX_DOWNLOADS: nat := 4
  const MAX_SESSION_BYTES: nat := 16 * 1024 * 1024

  type CacheName = s: seq<byte> | ValidCacheName(s) witness [0x61]

  /** What committing a downloaded file records about its content. */
  datatype Stored = Stored(sha256: Digest, cacheName: CacheName, initialSync: u64)

  datatype Progress = Progress(table: Table, fetched: seq<ListingEntry>, skipped: nat, bytes: nat)

  predicate Current(t: Table, e: ListingEntry) {
    MetadataMatches(FindSpec(t, e.path), e.deviceTime, e.size)
  }

  /** A row of the manifest has the path, device time and size the device lists. */
  predicate Recorded(t: Table, e: ListingEntry) {
    Records(t, e.path, e.deviceTime, e.size)
  }

  /** The batch skips exactly the files with a device time whose listed path, time and size a row records. */
  lemma CurrentIffRecorded(t: Table, e: ListingEntry)
    requires NormalForm(t)
    ensures Current(t, e) <==> e.deviceTime != 0 && Recorded(t, e)
  {
    MatchesIffRecorded(t, e.path, e.deviceTime, e.size);
  }

  function Commit(t: Table, e: ListingEntry, stored: Stored): Upserted {
    UpsertSpec(t, e.path, e.deviceTime, e.size, stored.initialSync, stored.sha256, stored.cacheName)
  }

  predicate OverBudget(p: Progress, e: ListingEntry)
    requires p.bytes <= MAX_SESSION_BYTES
  {
    |p.fetched| >= MAX_DOWNLOADS || e.size > MAX_SESSION_BYTES - p.bytes
  }

  /** The candidates of one collection in order: skip current ones, stop at the first over budget. */
  function CollectionRun(candidates: seq<ListingEntry>, p: Progress, content: ListingEntry -> Stored): (r: Progress)
    requires p.bytes <= MAX_SESSION_BYTES
    ensures r.bytes <= MAX_SESSION_BYTES
    decreases |candidates|
  {
    if candidates == [] then p
    else if Current(p.table, candidates[0]) then
      CollectionRun(candidates[1..], p.(skipped := p.skipped + 1), content)
    else if OverBudget(p, candidates[0]) then p
    else CollectionRun(candidates[1..], Fetch(p, candidates[0], content(candidates[0])), content)
  }

  function Fetch(p: Progress, e: ListingEntry, stored: Stored): Progress {
    Progress(Commit(p.table, e, stored).table, p.fetched + [e], p.skipped, p.bytes + e.size)
  }

  /** Leaving one collection early does not keep the batch from the next one. */
  function CollectionsRun(collections: seq<seq<ListingEntry>>, p: Progress, content: ListingEntry -> Stored): (r: Progress)
    requires p.bytes <= MAX_SESSION_BYTES
    ensures r.bytes <= MAX_SESSION_BYTES
    decreases |collections|
  {
    if collections == [] then p
    else CollectionsRun(collections[1..], CollectionRun(collections[0], p, content), content)
  }

  function Batch(collections: seq<seq<ListingEntry>>, t: Table, content: ListingEntry -> Stored): Progress {
    CollectionsRun(collections, Progress(t, [], 0, 0), content)
  }

  /** Every download along the way finds its row or room for one in the manifest. */
  predicate CollectionCommits(candidates: seq<ListingEntry>, p: Progress, content: ListingEntry -> Stored)
    requires p.bytes <= MAX_SESSION_BYTES
    decreases |candidates|
  {
    if candidates == [] then true
    else if Current(p.table, candidates[0]) then
      CollectionCommits(candidates[1..], p.(skipped := p.skipped + 1), content)
    else if OverBudget(p, candidates[0]) then true
    else
      Commit(p.table, candidates[0], content(candidates[0])).status == Ok
      && CollectionCommits(candidates[1..], Fetch(p, candidates[0], content(candidates[0])), content)
  }

  predicate CollectionsCommit(collections: seq<seq<ListingEntry>>, p: Progress, content: ListingEntry -> Stored)
    requires p.bytes <= MAX_SESSION_BYTES
    decreases |collections|
  {
    collections == []
    || (CollectionCommits(collections[0], p, content)
        && CollectionsCommit(collections[1..], CollectionRun(collections[0], p, content), content))
  }

  predicate Commits(collections: seq<seq<ListingEntry>>, t: Table, content: ListingEntry -> Stored) {
    CollectionsCommit(collections, Progress(t, [], 0, 0), content)
  }

  /** What the batch reports as still to do. */
  function Pending(collections: seq<seq<ListingEntry>>, p: Progress): int {
    |Flatten(collections)| - |p.fetched| - p.skipped
  }

  // ---- Hypotheses of convergence -----------------------------------------------------

  /** Distinct safe files. */
  predicate Safe(all: seq<ListingEntry>) {
    && DistinctPaths(all)
    && forall i | 0 <= i < |all| :: ValidPath(all[i].path) && 0 < all[i].size <= MAX_FILE_BYTES
  }

  /** Every file carries a real device time. */
  predicate Timed(all: seq<ListingEntry>) {
    forall i | 0 <= i < |all| :: all[i].deviceTime != 0
  }

  predicate Regular(all: seq<ListingEntry>) {
    Safe(all) && Timed(all)
  }

  function PathsOf(all: seq<ListingEntry>): set<seq<byte>> {
    set i | 0 <= i < |all| :: all[i].path
  }

  /** The manifest has room for every listed path beside those it already holds. */
  predicate Room(t: Table, all: seq<ListingEntry>) {
    NormalForm(t) && |PathSet(t) + PathsOf(all)| <= CAPACITY
  }

  function Stale(t: Table, all: seq<ListingEntry>): nat {
    if all == [] then 0 else (if Current(t, all[0]) then 0 else 1) + Stale(t, all[1..])
  }

  predicate AllCurrent(t: Table, all: seq<ListingEntry>) {
    forall i | 0 <= i < |all| :: Current(t, all[i])
  }

  // ---- One download ------------------------------------------------------------------

  lemma FindAfterCommit(t: Table, e: ListingEntry, stored: Stored, path: seq<byte>)
    requires NormalForm(t) && Commit(t, e, stored).status == Ok && ValidPath(e.path)
    ensures FindSpec(Commit(t, e, stored).table, path) ==
            if path == e.path
            then Some(Merge(FindSpec(t, path), path, e.deviceTime, e.size, stored.initialSync, stored.sha256, stored.cacheName))
            else FindSpec(t, path)
  {
    hide ValidPath, ValidCacheName, ByPath, PathSet, WellFormed;
    var u := Commit(t, e, stored).table;
    UpsertKeepsNormalForm(t, e.path, e.deviceTime, e.size, stored.initialSync, stored.sha256, stored.cacheName);
    UpsertRefinesMap(t, e.path, e.deviceTime, e.size, stored.initialSync, stored.sha256, stored.cacheName);
    LookupIsIndex(t, path);
    LookupIsIndex(u, path);
  }

  lemma CommitSucceeds(t: Table, all: seq<ListingEntry>, i: nat, stored: Stored)
    requires Safe(all) && Room(t, all) && i < |all|
    ensures Commit(t, all[i], stored).status == Ok
    ensures Room(Commit(t, all[i], stored).table, all)
  {
    hide ValidPath, ValidCacheName, WellFormed;
    var e := all[i];
    var together := PathSet(t) + PathsOf(all);
    assert e.path in PathsOf(all);
    PathSetSize(t);
    if e.path !in PathSet(t) {
      assert PathSet(t) + {e.path} <= together;
      SubsetSize(PathSet(t) + {e.path}, together);
    }
    var u := Commit(t, e, stored).table;
    UpsertKeepsNormalForm(t, e.path, e.deviceTime, e.size, stored.initialSync, stored.sha256, stored.cacheName);
    forall path | path in PathSet(u)
      ensures path in PathSet(t) || path == e.path
    {
      var k := IndexOfPath(u, path);
      assert k < |t| && path != e.path ==> u[k] == t[k];
    }
    assert PathSet(u) + PathsOf(all) <= together;
    SubsetSize(PathSet(u) + PathsOf(all), together);
  }

  lemma {:induction false} SubsetSize(a: set<seq<byte>>, b: set<seq<byte>>)
    requires a <= b
    ensures |a| <= |b|
  {
    if a != {} {
      var x :| x in a;
      SubsetSize(a - {x}, b - {x});
    }
  }

  /** A committed file with a device time is current, and no other file's status moves. */
  lemma CommitMakesCurrent(t: Table, all: seq<ListingEntry>, i: nat, stored: Stored)
    requires Safe(all) && Room(t, all) && i < |all|
    ensures all[i].deviceTime != 0 ==> Current(Commit(t, all[i], stored).table, all[i])
    ensures forall k | 0 <= k < |all| && k != i :: Current(Commit(t, all[i], stored).table, all[k]) == Current(t, all[k])
  {
    hide ValidPath, FindSpec, NormalForm;
    CommitSucceeds(t, all, i, stored);
    FindAfterCommit(t, all[i], stored, all[i].path);
    RoomNormal(t, all);
    forall k | 0 <= k < |all| && k != i
      ensures Current(Commit(t, all[i], stored).table, all[k]) == Current(t, all[k])
    {
      FindAfterCommit(t, all[i], stored, all[k].path);
      assert all[k].path != all[i].path;
    }
  }

  lemma RoomNormal(t: Table, all: seq<ListingEntry>)
    requires Room(t, all)
    ensures NormalForm(t)
  {
  }

  lemma {:induction false} StaleDropsByOne(t: Table, u: Table, all: seq<ListingEntry>, i: nat)
    requires i < |all| && !Current(t, all[i]) && Current(u, all[i])
    requires forall k | 0 <= k < |all| && k != i :: Current(u, all[k]) == Current(t, all[k])
    ensures Stale(u, all) == Stale(t, all) - 1
    decreases |all|
  {
    hide Current;
    var rest := all[1..];
    if i == 0 {
      StaleSame(t, u, rest);
    } else {
      StaleDropsByOne(t, u, rest, i - 1);
    }
  }

  lemma {:induction false} StaleSame(t: Table, u: Table, all: seq<ListingEntry>)
    requires forall k | 0 <= k < |all| :: Current(u, all[k]) == Current(t, all[k])
    ensures Stale(u, all) == Stale(t, all)
    decreases |all|
  {
    hide Current;
    if all != [] {
      StaleSame(t, u, all[1..]);
    }
  }

  lemma {:induction false} StaleZeroIffCurrent(t: Table, all: seq<ListingEntry>)
    ensures Stale(t, all) == 0 <==> AllCurrent(t, all)
    decreases |all|
  {
    hide Current;
    if all != [] {
      StaleZeroIffCurrent(t, all[1..]);
      assert forall i | 0 < i < |all| :: all[i] == all[1..][i - 1];
    }
  }

  // ---- One collection ------------------------------------------------------------------

  predicate Budgeted(p: Progress) {
    p.bytes <= MAX_SESSION_BYTES && p.bytes <= MAX_FILE_BYTES * |p.fetched|
  }

  /** The candidates lie in the listing from a position on. */
  predicate PartOf(candidates: seq<ListingEntry>, all: seq<ListingEntry>, at: nat) {
    at + |candidates| <= |all| && all[at..at + |candidates|] == candidates
  }

  /** How a stretch of candidates was left: everything handled, or stopped at a stale file. */
  predicate Handled(candidates: seq<ListingEntry>, p: Progress, r: Progress) {
    var handled := |r.fetched| + r.skipped - |p.fetched| - p.skipped;
    || (handled == |candidates| && AllCurrent(r.table, candidates))
    || (0 <= handled < |candidates| && |r.fetched| >= 2 && !AllCurrent(r.table, candidates))
  }

  /** What running from p to r keeps and counts, over the whole listing. */
  predicate Advances(all: seq<ListingEntry>, p: Progress, r: Progress) {
    && Budgeted(r) && Room(r.table, all)
    && |r.fetched| >= |p.fetched| && r.skipped >= p.skipped
    && |r.fetched| - |p.fetched| == Stale(p.table, all) - Stale(r.table, all)
    && (forall k | 0 <= k < |all| && Current(p.table, all[k]) :: Current(r.table, all[k]))
  }

  lemma AdvancesTransitive(all: seq<ListingEntry>, p: Progress, q: Progress, r: Progress)
    requires Advances(all, p, q) && Advances(all, q, r)
    ensures Advances(all, p, r)
  {
    hide Current, Room, Stale;
  }

  lemma AdvancesReflexive(all: seq<ListingEntry>, p: Progress)
    requires Budgeted(p) && Room(p.table, all)
    ensures Advances(all, p, p)
  {
  }

  /** Files outside the stretch from low to high keep their status. */
  predicate OnlyWithin(all: seq<ListingEntry>, low: nat, high: nat, t: Table, u: Table) {
    forall k | 0 <= k < |all| && !(low <= k < high) :: Current(u, all[k]) == Current(t, all[k])
  }

  lemma OnlyWithinJoins(all: seq<ListingEntry>, low: nat, middle: nat, high: nat, t: Table, u: Table, v: Table)
    requires low <= middle <= high
    requires OnlyWithin(all, low, middle, t, u) && OnlyWithin(all, middle, high, u, v)
    ensures OnlyWithin(all, low, high, t, v)
  {
    hide Current;
  }

  lemma FetchAdvances(all: seq<ListingEntry>, i: nat, p: Progress, stored: Stored)
    requires Regular(all) && Room(p.table, all) && i < |all| && Budgeted(p)
    requires !Current(p.table, all[i]) && !OverBudget(p, all[i])
    ensures Advances(all, p, Fetch(p, all[i], stored))
    ensures OnlyWithin(all, i, i + 1, p.table, Fetch(p, all[i], stored).table)
    ensures Current(Fetch(p, all[i], stored).table, all[i])
  {
    hide Current, Room, Commit, ValidPath;
    var u := Commit(p.table, all[i], stored).table;
    CommitSucceeds(p.table, all, i, stored);
    CommitMakesCurrent(p.table, all, i, stored);
    StaleDropsByOne(p.table, u, all, i);
  }

  lemma {:induction false} CollectionProgress(candidates: seq<ListingEntry>, all: seq<ListingEntry>, at: nat,
                                              p: Progress, content: ListingEntry -> Stored)
    requires Regular(all) && Room(p.table, all) && Budgeted(p) && PartOf(candidates, all, at)
    ensures Advances(all, p, CollectionRun(candidates, p, content))
    ensures Handled(candidates, p, CollectionRun(candidates, p, content))
    ensures OnlyWithin(all, at, at + |candidates|, p.table, CollectionRun(candidates, p, content).table)
    decreases |candidates|
  {
    hide Current, Room, Regular, Stale, Fetch, OnlyWithin;
    OnlyWithinNothing(all, at, at + |candidates|, p.table);
    if candidates == [] {
      AdvancesReflexive(all, p);
    } else {
      var e := candidates[0];
      assert e == all[at];
      if Current(p.table, e) {
        var q := p.(skipped := p.skipped + 1);
        CollectionProgress(candidates[1..], all, at + 1, q, content);
        var r := CollectionRun(candidates[1..], q, content);
        AdvancesFromSkip(all, p, q, r);
        OnlyWithinNothing(all, at, at + 1, p.table);
        OnlyWithinJoins(all, at, at + 1, at + |candidates|, p.table, q.table, r.table);
        HandledOneMore(candidates, p, q, r, all, at);
      } else if OverBudget(p, e) {
        AdvancesReflexive(all, p);
        RegularAt(all, at);
      } else {
        var q := Fetch(p, e, content(e));
        FetchAdvances(all, at, p, content(e));
        FetchCounts(p, e, content(e));
        CollectionProgress(candidates[1..], all, at + 1, q, content);
        var r := CollectionRun(candidates[1..], q, content);
        AdvancesTransitive(all, p, q, r);
        OnlyWithinJoins(all, at, at + 1, at + |candidates|, p.table, q.table, r.table);
        HandledOneMore(candidates, p, q, r, all, at);
      }
    }
  }

  lemma OnlyWithinNothing(all: seq<ListingEntry>, low: nat, high: nat, t: Table)
    ensures OnlyWithin(all, low, high, t, t)
  {
  }

  lemma FetchCounts(p: Progress, e: ListingEntry, stored: Stored)
    ensures |Fetch(p, e, stored).fetched| == |p.fetched| + 1 && Fetch(p, e, stored).skipped == p.skipped
  {
  }

  lemma RegularAt(all: seq<ListingEntry>, i: nat)
    requires Regular(all) && i < |all|
    ensures 0 < all[i].size <= MAX_FILE_BYTES
  {
  }

  lemma AdvancesFromSkip(all: seq<ListingEntry>, p: Progress, q: Progress, r: Progress)
    requires q == p.(skipped := p.skipped + 1) && Advances(all, q, r)
    ensures Advances(all, p, r)
  {
    hide Current, Room, Stale;
  }

  lemma HandledOneMore(candidates: seq<ListingEntry>, p: Progress, q: Progress, r: Progress, all: seq<ListingEntry>, at: nat)
    requires PartOf(candidates, all, at) && candidates != []
    requires |q.fetched| + q.skipped == |p.fetched| + p.skipped + 1
    requires Current(q.table, all[at]) && Advances(all, q, r)
    requires Handled(candidates[1..], q, r)
    ensures Handled(candidates, p, r)
  {
    hide Current, Room, Stale;
    assert candidates[0] == all[at] && Current(r.table, candidates[0]);
    assert forall i | 0 < i < |candidates| :: candidates[i] == candidates[1..][i - 1];
    assert forall i | 0 <= i < |candidates[1..]| :: candidates[1..][i] == candidates[i + 1];
  }

  // ---- A whole batch -----------------------------------------------------------------

  lemma SlicedInTwo<T>(all: seq<T>, at: nat, first: seq<T>, rest: seq<T>)
    requires at + |first| + |rest| <= |all| && all[at..at + |first| + |rest|] == first + rest
    ensures all[at..at + |first|] == first && all[at + |first|..at + |first| + |rest|] == rest
  {
    var both := all[at..at + |first| + |rest|];
    assert forall i | 0 <= i < |first| :: all[at + i] == both[i] == first[i];
    assert forall i | 0 <= i < |rest| :: all[at + |first| + i] == both[|first| + i] == rest[i];
  }

  lemma {:induction false} CollectionsProgress(collections: seq<seq<ListingEntry>>, all: seq<ListingEntry>, at: nat,
                                               p: Progress, content: ListingEntry -> Stored)
    requires Regular(all) && Room(p.table, all) && Budgeted(p) && PartOf(Flatten(collections), all, at)
    ensures Advances(all, p, CollectionsRun(collections, p, content))
    ensures Handled(Flatten(collections), p, CollectionsRun(collections, p, content))
    ensures OnlyWithin(all, at, at + |Flatten(collections)|, p.table, CollectionsRun(collections, p, content).table)
    decreases |collections|
  {
    hide Current, Room, Regular, Stale, CollectionRun, OnlyWithin;
    OnlyWithinNothing(all, at, at + |Flatten(collections)|, p.table);
    if collections == [] {
      AdvancesReflexive(all, p);
    } else {
      var first, rest := collections[0], collections[1..];
      var flat := Flatten(collections);
      assert flat == first + Flatten(rest);
      SlicedInTwo(all, at, first, Flatten(rest));
      var q := CollectionRun(first, p, content);
      CollectionProgress(first, all, at, p, content);
      CollectionsProgress(rest, all, at + |first|, q, content);
      var r := CollectionsRun(rest, q, content);
      AdvancesTransitive(all, p, q, r);
      OnlyWithinJoins(all, at, at + |first|, at + |flat|, p.table, q.table, r.table);
      HandledConcat(first, Flatten(rest), p, q, r, all, at);
    }
  }

  lemma HandledConcat(first: seq<ListingEntry>, rest: seq<ListingEntry>, p: Progress, q: Progress, r: Progress,
                      all: seq<ListingEntry>, at: nat)
    requires PartOf(first, all, at) && PartOf(rest, all, at + |first|)
    requires Regular(all) && Advances(all, p, q) && Advances(all, q, r)
    requires Handled(first, p, q) && Handled(rest, q, r)
    requires OnlyWithin(all, at + |first|, at + |first| + |rest|, q.table, r.table)
    ensures Handled(first + rest, p, r)
  {
    hide Current, Room, Stale, Regular;
    var flat := first + rest;
    assert forall i | 0 <= i < |first| :: flat[i] == first[i] == all[at + i];
    assert forall i | 0 <= i < |rest| :: flat[|first| + i] == rest[i];
  }

  lemma BatchProgress(collections: seq<seq<ListingEntry>>, t: Table, content: ListingEntry -> Stored)
    requires Regular(Flatten(collections)) && Room(t, Flatten(collections))
    ensures var all := Flatten(collections);
            var r := Batch(collections, t, content);
            && Room(r.table, all)
            && |r.fetched| == Stale(t, all) - Stale(r.table, all)
            && Pending(collections, r) >= 0
            && (Pending(collections, r) == 0 <==> AllCurrent(r.table, all))
            && (Pending(collections, r) > 0 ==> |r.fetched| >= 2)
  {
    hide Current, Room, Regular, Stale, CollectionsRun, OnlyWithin;
    var all := Flatten(collections);
    var p := Progress(t, [], 0, 0);
    assert all[0..0 + |all|] == all;
    CollectionsProgress(collections, all, 0, p, content);
  }

  // ---- Room in the manifest ------------------------------------------------------------------

  /** Room for all listed files is enough for every download of a batch to be committed, and stays. */
  lemma {:induction false} CollectionHasRoom(candidates: seq<ListingEntry>, all: seq<ListingEntry>, at: nat, p: Progress,
                                             content: ListingEntry -> Stored)
    requires Safe(all) && Room(p.table, all) && p.bytes <= MAX_SESSION_BYTES && PartOf(candidates, all, at)
    ensures CollectionCommits(candidates, p, content) && Room(CollectionRun(candidates, p, content).table, all)
    decreases |candidates|
  {
    hide Current, Room, Safe, Commit;
    if candidates != [] {
      var e := candidates[0];
      assert e == all[at];
      if Current(p.table, e) {
        CollectionHasRoom(candidates[1..], all, at + 1, p.(skipped := p.skipped + 1), content);
      } else if !OverBudget(p, e) {
        CommitSucceeds(p.table, all, at, content(e));
        CollectionHasRoom(candidates[1..], all, at + 1, Fetch(p, e, content(e)), content);
      }
    }
  }

  lemma {:induction false} CollectionsHaveRoom(collections: seq<seq<ListingEntry>>, all: seq<ListingEntry>, at: nat, p: Progress,
                                               content: ListingEntry -> Stored)
    requires Safe(all) && Room(p.table, all) && p.bytes <= MAX_SESSION_BYTES && PartOf(Flatten(collections), all, at)
    ensures CollectionsCommit(collections, p, content) && Room(CollectionsRun(collections, p, content).table, all)
    decreases |collections|
  {
    hide Room, Safe, CollectionRun, CollectionCommits;
    if collections != [] {
      var first, rest := collections[0], collections[1..];
      var flat := Flatten(collections);
      assert flat == first + Flatten(rest);
      assert all[at..at + |first|] == flat[..|first|] == first;
      assert all[at + |first|..at + |first| + |Flatten(rest)|] == flat[|first|..] == Flatten(rest);
      CollectionHasRoom(first, all, at, p, content);
      CollectionsHaveRoom(rest, all, at + |first|, CollectionRun(first, p, content), content);
    }
  }

  lemma BatchHasRoom(collections: seq<seq<ListingEntry>>, t: Table, content: ListingEntry -> Stored)
    requires Safe(Flatten(collections)) && Room(t, Flatten(collections))
    ensures Commits(collections, t, content) && Room(Batch(collections, t, content).table, Flatten(collections))
  {
    hide Room, Safe, CollectionsRun, CollectionsCommit;
    var all := Flatten(collections);
    assert all[0..0 + |all|] == all;
    CollectionsHaveRoom(collections, all, 0, Progress(t, [], 0, 0), content);
  }

  // ---- The chain of continuation batches ---------------------------------------------------

  /** The table after the first batches; each batch may store its files under its own sync time. */
  function AfterBatches(collections: seq<seq<ListingEntry>>, t: Table, content: nat -> ListingEntry -> Stored, n: nat): Table {
    if n == 0 then t
    else Batch(collections, AfterBatches(collections, t, content, n - 1), content(n - 1)).table
  }

  function BatchAt(collections: seq<seq<ListingEntry>>, t: Table, content: nat -> ListingEntry -> Stored, n: nat): Progress {
    Batch(collections, AfterBatches(collections, t, content, n), content(n))
  }

  /** A cleanly closed batch, every download committed, asks for another when it left work and did some. */
  predicate Continues(collections: seq<seq<ListingEntry>>, t: Table, content: nat -> ListingEntry -> Stored, n: nat) {
    var r := BatchAt(collections, t, content, n);
    && Commits(collections, AfterBatches(collections, t, content, n), content(n))
    && Pending(collections, r) > 0 && |r.fetched| > 0
  }

  /** The first batches all continue. */
  predicate ChainReaches(collections: seq<seq<ListingEntry>>, t: Table, content: nat -> ListingEntry -> Stored, n: nat) {
    forall k: nat | k < n :: Continues(collections, t, content, k)
  }

  function Downloads(collections: seq<seq<ListingEntry>>, t: Table, content: nat -> ListingEntry -> Stored, n: nat): nat {
    if n == 0 then 0
    else Downloads(collections, t, content, n - 1) + |BatchAt(collections, t, content, n - 1).fetched|
  }

  /** While the chain runs, each batch removes at least two stale files and leaves one. */
  lemma {:induction false} ChainProgress(collections: seq<seq<ListingEntry>>, t: Table, content: nat -> ListingEntry -> Stored, n: nat)
    requires Regular(Flatten(collections)) && Room(t, Flatten(collections))
    requires ChainReaches(collections, t, content, n)
    ensures var all := Flatten(collections);
            var u := AfterBatches(collections, t, content, n);
            && Room(u, all)
            && Downloads(collections, t, content, n) == Stale(t, all) - Stale(u, all) >= 2 * n
            && (n > 0 ==> Stale(u, all) > 0)
  {
    hide Current, Room, Regular, Stale, Batch;
    if n > 0 {
      ChainProgress(collections, t, content, n - 1);
      var u := AfterBatches(collections, t, content, n - 1);
      BatchProgress(collections, u, content(n - 1));
      assert Continues(collections, t, content, n - 1);
      StaleZeroIffCurrent(AfterBatches(collections, t, content, n), Flatten(collections));
    }
  }

  /**
   * The chain ends. With s stale files it takes at most one batch, or (s + 1) / 2 if that is more;
   * it downloads each stale file exactly once, and afterwards every file is current.
   */
  lemma ChainConverges(collections: seq<seq<ListingEntry>>, t: Table, content: nat -> ListingEntry -> Stored) returns (n: nat)
    requires Regular(Flatten(collections)) && Room(t, Flatten(collections))
    ensures ChainReaches(collections, t, content, n) && !Continues(collections, t, content, n)
    ensures var all := Flatten(collections);
            && AllCurrent(AfterBatches(collections, t, content, n + 1), all)
            && Pending(collections, BatchAt(collections, t, content, n)) == 0
            && Downloads(collections, t, content, n + 1) == Stale(t, all)
            && n + 1 <= if Stale(t, all) == 0 then 1 else (Stale(t, all) + 1) / 2
  {
    hide Current, Room, Regular, Stale, Batch, Continues;
    var all := Flatten(collections);
    n := 0;
    while Continues(collections, t, content, n)
      invariant ChainReaches(collections, t, content, n)
      decreases Stale(t, all) - n
    {
      n := n + 1;
      ChainProgress(collections, t, content, n);
    }
    ChainProgress(collections, t, content, n);
    LastBatch(collections, t, content, n);
  }

  lemma LastBatch(collections: seq<seq<ListingEntry>>, t: Table, content: nat -> ListingEntry -> Stored, n: nat)
    requires Regular(Flatten(collections)) && Room(AfterBatches(collections, t, content, n), Flatten(collections))
    requires !Continues(collections, t, content, n)
    ensures var all := Flatten(collections);
            var u := AfterBatches(collections, t, content, n);
            var v := AfterBatches(collections, t, content, n + 1);
            && AllCurrent(v, all) && Stale(v, all) == 0
            && Pending(collections, BatchAt(collections, t, content, n)) == 0
            && |BatchAt(collections, t, content, n).fetched| == Stale(u, all)
  {
    BatchHasRoom(collections, AfterBatches(collections, t, content, n), content(n));
    hide Current, Room, Regular, Stale, Batch, Commits;
    BatchProgress(collections, AfterBatches(collections, t, content, n), content(n));
    StaleZeroIffCurrent(AfterBatches(collections, t, content, n + 1), Flatten(collections));
  }

  lemma {:induction false} RoomStays(collections: seq<seq<ListingEntry>>, t: Table, content: nat -> ListingEntry -> Stored, n: nat)
    requires Safe(Flatten(collections)) && Room(t, Flatten(collections))
    ensures Room(AfterBatches(collections, t, content, n), Flatten(collections))
  {
    hide Room, Safe, Batch;
    if n > 0 {
      RoomStays(collections, t, content, n - 1);
      BatchHasRoom(collections, AfterBatches(collections, t, content, n - 1), content(n - 1));
    }
  }

  // ---- Files without a device time -----------------------------------------------------------

  /** Everything becomes current at some point exactly when every listed file has a device time. */
  lemma EverythingBecomesCurrentIff(collections: seq<seq<ListingEntry>>, t: Table, content: nat -> ListingEntry -> Stored)
    requires Safe(Flatten(collections)) && Room(t, Flatten(collections))
    ensures (exists n :: AllCurrent(AfterBatches(collections, t, content, n), Flatten(collections)))
            <==> Timed(Flatten(collections))
    ensures Timed(Flatten(collections)) ==>
              exists n :: AllRecorded(AfterBatches(collections, t, content, n), Flatten(collections))
  {
    hide Safe, Room;
    var all := Flatten(collections);
    if Timed(all) {
      var n := ChainConverges(collections, t, content);
      assert AllCurrent(AfterBatches(collections, t, content, n + 1), all);
      RoomStays(collections, t, content, n + 1);
      RoomNormal(AfterBatches(collections, t, content, n + 1), all);
      AllCurrentIsRecorded(AfterBatches(collections, t, content, n + 1), all);
    }
  }

  predicate AllRecorded(t: Table, all: seq<ListingEntry>) {
    forall i | 0 <= i < |all| :: Recorded(t, all[i])
  }

  /** With every file current, every row has the listed path, time and size. */
  lemma AllCurrentIsRecorded(t: Table, all: seq<ListingEntry>)
    requires NormalForm(t) && AllCurrent(t, all)
    ensures AllRecorded(t, all)
  {
    hide Current, Recorded;
    forall i | 0 <= i < |all|
      ensures Recorded(t, all[i])
    {
      CurrentIffRecorded(t, all[i]);
    }
  }

  function Untimed(files: seq<ListingEntry>): nat {
    if files == [] then 0 else (if files[0].deviceTime == 0 then 1 else 0) + Untimed(files[1..])
  }

  function UntimedBytes(files: seq<ListingEntry>): nat {
    if files == [] then 0 else (if files[0].deviceTime == 0 then files[0].size else 0) + UntimedBytes(files[1..])
  }

  lemma {:induction false} UntimedConcat(a: seq<ListingEntry>, b: seq<ListingEntry>)
    ensures Untimed(a + b) == Untimed(a) + Untimed(b) && UntimedBytes(a + b) == UntimedBytes(a) + UntimedBytes(b)
  {
    if a == [] {
      assert a + b == b;
    } else {
      UntimedConcat(a[1..], b);
      assert (a + b)[1..] == a[1..] + b;
    }
  }

  /** An untimed file is never skipped, and nothing is fetched beyond the budget of one batch. */
  lemma {:induction false} CollectionLeavesUntimed(candidates: seq<ListingEntry>, p: Progress, content: ListingEntry -> Stored)
    requires p.bytes <= MAX_SESSION_BYTES && |p.fetched| <= MAX_DOWNLOADS && (p.fetched == [] ==> p.bytes == 0)
    requires forall i | 0 <= i < |candidates| :: 0 < candidates[i].size <= MAX_FILE_BYTES
    ensures var r := CollectionRun(candidates, p, content);
            && |p.fetched| <= |r.fetched| <= MAX_DOWNLOADS
            && (r.fetched == [] ==> r.bytes == 0)
            && r.skipped - p.skipped <= |candidates| - Untimed(candidates)
            && (Untimed(candidates) > 0 ==> |r.fetched| > 0)
            && |r.fetched| - |p.fetched| + r.skipped - p.skipped <= |candidates|
            && (|r.fetched| - |p.fetched| + r.skipped - p.skipped == |candidates| ==>
                  r.bytes - p.bytes >= UntimedBytes(candidates))
    decreases |candidates|
  {
    hide Commit;
    UntimedBounded(candidates);
    if candidates != [] {
      var e, rest := candidates[0], candidates[1..];
      if Current(p.table, e) {
        CollectionLeavesUntimed(rest, p.(skipped := p.skipped + 1), content);
      } else if !OverBudget(p, e) {
        CollectionLeavesUntimed(rest, Fetch(p, e, content(e)), content);
      }
    }
  }

  lemma {:induction false} UntimedBounded(files: seq<ListingEntry>)
    ensures Untimed(files) <= |files|
  {
    if files != [] {
      UntimedBounded(files[1..]);
    }
  }

  lemma {:induction false} CollectionsLeaveUntimed(collections: seq<seq<ListingEntry>>, p: Progress, content: ListingEntry -> Stored)
    requires p.bytes <= MAX_SESSION_BYTES && |p.fetched| <= MAX_DOWNLOADS && (p.fetched == [] ==> p.bytes == 0)
    requires forall i | 0 <= i < |Flatten(collections)| :: 0 < Flatten(collections)[i].size <= MAX_FILE_BYTES
    ensures var r := CollectionsRun(collections, p, content);
            && |p.fetched| <= |r.fetched| <= MAX_DOWNLOADS
            && r.skipped - p.skipped <= |Flatten(collections)| - Untimed(Flatten(collections))
            && (Untimed(Flatten(collections)) > 0 ==> |r.fetched| > 0)
            && |r.fetched| - |p.fetched| + r.skipped - p.skipped <= |Flatten(collections)|
            && (|r.fetched| - |p.fetched| + r.skipped - p.skipped == |Flatten(collections)| ==>
                  r.bytes - p.bytes >= UntimedBytes(Flatten(collections)))
    decreases |collections|
  {
    hide CollectionRun;
    if collections != [] {
      var first, rest := collections[0], Flatten(collections[1..]);
      var flat := Flatten(collections);
      assert flat == first + rest;
      assert forall i | 0 <= i < |first| :: first[i] == flat[i];
      assert forall i | 0 <= i < |rest| :: rest[i] == flat[|first| + i];
      UntimedConcat(first, rest);
      CollectionLeavesUntimed(first, p, content);
      CollectionsLeaveUntimed(collections[1..], CollectionRun(first, p, content), content);
    }
  }

  lemma {:induction false} UntimedBytesNeedUntimed(files: seq<ListingEntry>)
    ensures UntimedBytes(files) > 0 ==> Untimed(files) > 0
  {
    if files != [] {
      UntimedBytesNeedUntimed(files[1..]);
    }
  }

  /**
   * Files without a device time that do not fit one batch, by number or by size, keep the chain running for ever, if
   * the manifest has room for the listed files.
   */
  lemma UntimedFilesChainForEver(collections: seq<seq<ListingEntry>>, t: Table, content: nat -> ListingEntry -> Stored, n: nat)
    requires Safe(Flatten(collections)) && Room(t, Flatten(collections))
    requires Untimed(Flatten(collections)) > MAX_DOWNLOADS || UntimedBytes(Flatten(collections)) > MAX_SESSION_BYTES
    ensures Continues(collections, t, content, n)
  {
    RoomStays(collections, t, content, n);
    BatchHasRoom(collections, AfterBatches(collections, t, content, n), content(n));
    hide Commits, Room;
    UntimedBytesNeedUntimed(Flatten(collections));
    CollectionsLeaveUntimed(collections, Progress(AfterBatches(collections, t, content, n), [], 0, 0), content(n));
  }

  /** With a full manifest and a first candidate it does not hold, the first batch is the last: it ends at a refused commit. */
  lemma FullManifestEndsChain(collections: seq<seq<ListingEntry>>, t: Table, content: nat -> ListingEntry -> Stored)
    requires NormalForm(t) && |t| == CAPACITY
    requires collections != [] && collections[0] != [] && 0 < collections[0][0].size <= MAX_FILE_BYTES
    requires collections[0][0].path !in PathSet(t)
    ensures Commit(t, collections[0][0], content(0)(collections[0][0])).status != Ok
    ensures !Continues(collections, t, content, 0)
  {
    hide NormalForm, Batch;
    var e := collections[0][0];
    assert IndexOfPath(t, e.path) == |t|;
    assert !Current(t, e);
  }

  // ---- From listings to candidates -----------------------------------------------------------

  datatype Listing = Listing(collection: Collection, entries: seq<ListingEntry>)

  function CandidatesOf(listings: seq<Listing>): seq<seq<ListingEntry>> {
    seq(|listings|, i requires 0 <= i < |listings| => Candidates(listings[i].entries, listings[i].collection))
  }

  predicate WellNamed(listings: seq<Listing>) {
    && (forall i | 0 <= i < |listings| ::
          && DistinctPaths(listings[i].entries)
          && |listings[i].collection.directory| < NAME_CAPACITY
          && (forall k | 0 <= k < |listings[i].collection.directory| :: IsPathByte(listings[i].collection.directory[k])))
    && (forall i, j | 0 <= i < j < |listings| :: listings[i].collection.directory != listings[j].collection.directory)
  }

  /** The device's own collections are named well. */
  lemma DeviceListingsWellNamed(listings: seq<Listing>)
    requires |listings| == |COLLECTIONS| && forall i | 0 <= i < |listings| :: listings[i].collection == COLLECTIONS[i]
    requires forall i | 0 <= i < |listings| :: DistinctPaths(listings[i].entries)
    ensures WellNamed(listings)
  {
    hide DistinctPaths;
    forall c: Collection | c in COLLECTIONS
      ensures |c.directory| < NAME_CAPACITY && forall b | b in c.directory :: IsPathByte(b)
    {
    }
    assert |DATALOGS.directory| == 7 && |MAPS.directory| == 4 && |IMAGES.directory| == 6 && |SCREENSHOTS.directory| == 11;
  }

  /** Files of two collections never share a path, because a file name holds no slash. */
  lemma CollectionsDisjoint(a: ListingEntry, c: Collection, b: ListingEntry, d: Collection)
    requires SafeEntry(a, c) && SafeEntry(b, d) && c.directory != d.directory
    ensures a.path != b.path
  {
    var m, n := |c.directory|, |d.directory|;
    assert a.path[m] == SLASH && b.path[n] == SLASH;
    assert a.path[..m] == c.directory && b.path[..n] == d.directory;
    assert m < n && n < |a.path| ==> a.path[n] == a.name[n - m - 1];
    assert n < m && m < |b.path| ==> b.path[m] == b.name[m - n - 1];
  }

  /** Whatever the device lists, the candidates are distinct safe files. */
  lemma {:induction false} ListedFilesAreSafe(listings: seq<Listing>)
    requires WellNamed(listings)
    ensures Safe(Flatten(CandidatesOf(listings)))
    ensures forall e :: e in Flatten(CandidatesOf(listings))
                        <==> exists i :: 0 <= i < |listings| && e in listings[i].entries && SafeEntry(e, listings[i].collection)
    decreases |listings|
  {
    hide SafeEntry, Candidates, ValidPath;
    if listings != [] {
      var first, rest := listings[0], listings[1..];
      assert CandidatesOf(listings)[1..] == CandidatesOf(rest);
      ListedFilesAreSafe(rest);
      CandidatesAreSafeFiles(first.entries, first.collection);
      var x, y := Candidates(first.entries, first.collection), Flatten(CandidatesOf(rest));
      forall i, j | 0 <= i < |x| && 0 <= j < |y|
        ensures x[i].path != y[j].path
      {
        assert x[i] in x && y[j] in y;
        var k :| 0 <= k < |rest| && y[j] in rest[k].entries && SafeEntry(y[j], rest[k].collection);
        assert rest[k] == listings[k + 1];
        CollectionsDisjoint(x[i], first.collection, y[j], rest[k].collection);
      }
      forall i | 0 <= i < |x|
        ensures ValidPath(x[i].path) && 0 < x[i].size <= MAX_FILE_BYTES
      {
        assert x[i] in x;
        SafeAlone(x[i], first.collection);
      }
      SafeJoins(x, y);
      assert Flatten(CandidatesOf(listings)) == x + y;
      forall e
        ensures e in x + y <==> exists i :: 0 <= i < |listings| && e in listings[i].entries && SafeEntry(e, listings[i].collection)
      {
        assert forall i | 0 <= i < |rest| :: rest[i] == listings[i + 1];
        assert forall i | 0 < i < |listings| :: listings[i] == rest[i - 1];
      }
    }
  }

  lemma SafeAlone(e: ListingEntry, c: Collection)
    requires SafeEntry(e, c) && |c.directory| < NAME_CAPACITY
    requires forall k | 0 <= k < |c.directory| :: IsPathByte(c.directory[k])
    ensures ValidPath(e.path) && 0 < e.size <= MAX_FILE_BYTES
  {
    SafePathIsValid(e, c);
  }

  lemma SafeJoins(x: seq<ListingEntry>, y: seq<ListingEntry>)
    requires DistinctPaths(x) && Safe(y)
    requires forall i | 0 <= i < |x| :: ValidPath(x[i].path) && 0 < x[i].size <= MAX_FILE_BYTES
    requires forall i, j | 0 <= i < |x| && 0 <= j < |y| :: x[i].path != y[j].path
    ensures Safe(x + y)
  {
    hide ValidPath;
  }

  /**
   * From the listings themselves: with a device time on every listed file and room in the manifest, chained batches
   * end with every safe listed file current.
   */
  lemma ListedFilesBecomeCurrent(listings: seq<Listing>, t: Table, content: nat -> ListingEntry -> Stored) returns (n: nat)
    requires WellNamed(listings) && Room(t, Flatten(CandidatesOf(listings)))
    requires forall i, e | 0 <= i < |listings| && e in listings[i].entries && SafeEntry(e, listings[i].collection) ::
               e.deviceTime != 0
    ensures ChainReaches(CandidatesOf(listings), t, content, n) && !Continues(CandidatesOf(listings), t, content, n)
    ensures n + 1 <= if Stale(t, Flatten(CandidatesOf(listings))) == 0 then 1
                     else (Stale(t, Flatten(CandidatesOf(listings))) + 1) / 2
    ensures forall i, e | 0 <= i < |listings| && e in listings[i].entries && SafeEntry(e, listings[i].collection) ::
              Recorded(AfterBatches(CandidatesOf(listings), t, content, n + 1), e)
  {
    hide Current, Room, Recorded, Safe, Stale, SafeEntry, AfterBatches, Continues, ChainReaches;
    var collections := CandidatesOf(listings);
    var all := Flatten(collections);
    ListedFilesAreSafe(listings);
    forall i | 0 <= i < |all|
      ensures all[i].deviceTime != 0
    {
      assert all[i] in all;
    }
    n := ChainConverges(collections, t, content);
    RoomStays(collections, t, content, n + 1);
    RoomNormal(AfterBatches(collections, t, content, n + 1), all);
    forall i, e | 0 <= i < |listings| && e in listings[i].entries && SafeEntry(e, listings[i].collection)
      ensures Recorded(AfterBatches(collections, t, content, n + 1), e)
    {
      CurrentIffRecorded(AfterBatches(collections, t, content, n + 1), e);
      assert e in all;
      var k :| 0 <= k < |all| && all[k] == e;
    }
  }

  // ---- The batch loop --------------------------------------------------------------------------

  /** The session with the device: a listing or a download may fail, and the user may cancel. */
  class Session {
    ghost var troubled: bool

    constructor ()
      ensures !troubled
    {
      troubled := false;
    }

    method Attempt() returns (ok: bool)
      modifies this
      ensures if ok then troubled == old(troubled) else troubled
    {
      ok := *;
      troubled := troubled || !ok;
    }
  }

  datatype Report = Report(candidates: nat, downloaded: nat, skipped: nat, bytes: nat, pending: nat)

  /** A clean batch up to one candidate of one collection. */
  function UpTo(collections: seq<seq<ListingEntry>>, start: Progress, content: ListingEntry -> Stored, c: nat, k: nat): Progress
    requires start.bytes <= MAX_SESSION_BYTES && c < |collections| && k <= |collections[c]|
  {
    CollectionRun(collections[c][..k], CollectionsRun(collections[..c], start, content), content)
  }

  predicate Reports(report: Report, candidates: nat, r: Progress) {
    report.downloaded == |r.fetched| && report.skipped == r.skipped && report.bytes == r.bytes
    && report.candidates == candidates == report.downloaded + report.skipped + report.pending
  }

  lemma {:induction false} CollectionsRunAppend(collections: seq<seq<ListingEntry>>, last: seq<ListingEntry>, p: Progress,
                                                content: ListingEntry -> Stored)
    requires p.bytes <= MAX_SESSION_BYTES
    ensures CollectionsRun(collections + [last], p, content)
            == CollectionRun(last, CollectionsRun(collections, p, content), content)
    decreases |collections|
  {
    hide CollectionRun;
    if collections != [] {
      assert (collections + [last])[1..] == collections[1..] + [last];
      CollectionsRunAppend(collections[1..], last, CollectionRun(collections[0], p, content), content);
    }
  }

  lemma {:induction false} HandledAtMost(candidates: seq<ListingEntry>, p: Progress, content: ListingEntry -> Stored)
    requires p.bytes <= MAX_SESSION_BYTES
    ensures var r := CollectionRun(candidates, p, content);
            r.skipped >= p.skipped && |r.fetched| + r.skipped <= |p.fetched| + p.skipped + |candidates|
    decreases |candidates|
  {
    hide Commit, Current;
    if candidates != [] {
      HandledAtMost(candidates[1..], p.(skipped := p.skipped + 1), content);
      if !OverBudget(p, candidates[0]) {
        HandledAtMost(candidates[1..], Fetch(p, candidates[0], content(candidates[0])), content);
      }
    }
  }

  lemma EmptyRuns(candidates: seq<ListingEntry>, at: nat, collections: seq<seq<ListingEntry>>, p: Progress,
                  content: ListingEntry -> Stored)
    requires p.bytes <= MAX_SESSION_BYTES && at <= |candidates|
    ensures CollectionRun(candidates[at..at], p, content) == p
    ensures CollectionsRun(collections[..0], p, content) == p
  {
  }

  /** Prefixes ending after a position continue from it in one step. */
  lemma RunSplits(candidates: seq<ListingEntry>, index: nat, r: Progress, content: ListingEntry -> Stored)
    requires index < |candidates| && r.bytes <= MAX_SESSION_BYTES
    ensures forall j | index < j <= |candidates| ::
              CollectionRun(candidates[index..j], r, content)
              == if Current(r.table, candidates[index]) then
                CollectionRun(candidates[index + 1..j], r.(skipped := r.skipped + 1), content)
              else if OverBudget(r, candidates[index]) then r
              else CollectionRun(candidates[index + 1..j], Fetch(r, candidates[index], content(candidates[index])), content)
    ensures CollectionRun(candidates[index..index], r, content) == r
  {
    hide Current, Fetch;
    forall j | index < j <= |candidates|
      ensures candidates[index..j] != [] && candidates[index..j][0] == candidates[index]
      ensures candidates[index..j][1..] == candidates[index + 1..j]
    {
    }
  }

  method IsCurrent(manifest: Store.Manifest, e: ListingEntry) returns (current: bool)
    requires manifest.Valid()
    ensures current == Current(manifest.Rows(), e)
    ensures current <==> e.deviceTime != 0 && Recorded(manifest.Rows(), e)
  {
    CurrentIffRecorded(manifest.Rows(), e);
    var entry := manifest.Find(e.path);
    return MetadataMatches(entry, e.deviceTime, e.size);
  }

  lemma RefusedCommitChangesNothing(t: Table, e: ListingEntry, stored: Stored)
    requires Commit(t, e, stored).status != Ok
    ensures Commit(t, e, stored).table == t
  {
  }

  /** One candidate further, the same commits are still to succeed. */
  lemma CommitsSplit(candidates: seq<ListingEntry>, index: nat, r: Progress, content: ListingEntry -> Stored)
    requires index < |candidates| && r.bytes <= MAX_SESSION_BYTES
    ensures CollectionCommits(candidates[index..], r, content)
            == if Current(r.table, candidates[index]) then
              CollectionCommits(candidates[index + 1..], r.(skipped := r.skipped + 1), content)
            else if OverBudget(r, candidates[index]) then true
            else
              Commit(r.table, candidates[index], content(candidates[index])).status == Ok
              && CollectionCommits(candidates[index + 1..], Fetch(r, candidates[index], content(candidates[index])), content)
  {
    hide Current, Fetch, Commit;
    assert candidates[index..][1..] == candidates[index + 1..];
  }

  /**
   * One collection of the batch loop. A cancellation, a failed transfer or a full manifest ends it unpassed, having
   * done what a clean run does up to that candidate; without the first two it passes exactly when every commit is
   * accepted, and otherwise ends at the first refused one.
   */
  method RunCollection(manifest: Store.Manifest, session: Session, candidates: seq<ListingEntry>, content: ListingEntry -> Stored,
                       downloaded0: nat, skipped0: nat, bytes0: nat, ghost p: Progress)
    returns (passed: bool, downloaded: nat, skipped: nat, bytes: nat, ghost k: nat)
    requires manifest.Valid() && bytes0 <= MAX_SESSION_BYTES
    requires manifest.Rows() == p.table && downloaded0 == |p.fetched| && skipped0 == p.skipped && bytes0 == p.bytes
    modifies manifest, manifest.entries, session
    ensures manifest.Valid() && (old(session.troubled) ==> session.troubled)
    ensures k <= |candidates| && (passed ==> k == |candidates|)
    ensures var r := CollectionRun(candidates[..k], p, content);
            manifest.Rows() == r.table && downloaded == |r.fetched| && skipped == r.skipped && bytes == r.bytes
    ensures passed ==> CollectionCommits(candidates, p, content)
    ensures !passed && !session.troubled ==>
              && !CollectionCommits(candidates, p, content) && k < |candidates|
              && Commit(manifest.Rows(), candidates[k], content(candidates[k])).status != Ok
  {
    hide NormalForm, Current, FindSpec, UpsertSpec, CollectionRun, CollectionCommits;
    passed, downloaded, skipped, bytes := true, downloaded0, skipped0, bytes0;
    ghost var r := p;
    k := 0;
    var index := 0;
    assert candidates[..0] == [] && candidates[0..] == candidates;
    while index < |candidates|
      invariant 0 <= index <= |candidates| && k == index && passed
      invariant manifest.Valid() && (old(session.troubled) ==> session.troubled)
      invariant r.bytes <= MAX_SESSION_BYTES
      invariant manifest.Rows() == r.table && downloaded == |r.fetched| && skipped == r.skipped && bytes == r.bytes
      invariant forall j | index <= j <= |candidates| ::
                  CollectionRun(candidates[..j], p, content) == CollectionRun(candidates[index..j], r, content)
      invariant CollectionCommits(candidates, p, content) == CollectionCommits(candidates[index..], r, content)
    {
      var e := candidates[index];
      RunSplits(candidates, index, r, content);
      CommitsSplit(candidates, index, r, content);
      var wanted := session.Attempt();
      if !wanted {
        passed := false;
        return;
      }
      var current := IsCurrent(manifest, e);
      if current {
        skipped := skipped + 1;
        r := r.(skipped := r.skipped + 1);
      } else if downloaded >= MAX_DOWNLOADS || e.size > MAX_SESSION_BYTES - bytes {
        k := |candidates|;
        return;
      } else {
        var transferred := session.Attempt();
        if !transferred {
          passed := false;
          return;
        }
        var stored := content(e);
        var status := manifest.UpsertAt(e.path, e.deviceTime, e.size, stored.initialSync, stored.sha256, stored.cacheName);
        if status != Ok {
          passed := false;
          RefusedCommitChangesNothing(r.table, e, stored);
          return;
        }
        downloaded := downloaded + 1;
        bytes := bytes + e.size;
        r := Fetch(r, e, stored);
      }
      index := index + 1;
      k := index;
    }
    EmptyRuns(candidates, index, [], r, content);
    NothingToCommit(candidates[index..], r, content);
  }

  lemma NothingToCommit(candidates: seq<ListingEntry>, p: Progress, content: ListingEntry -> Stored)
    requires candidates == [] && p.bytes <= MAX_SESSION_BYTES
    ensures CollectionCommits(candidates, p, content)
  {
  }

  /**
   * The whole batch over the listed collections; any listing may fail. Without a failure or a cancellation the batch
   * passes exactly when every commit is accepted.
   */
  method RunBatch(manifest: Store.Manifest, session: Session, listings: seq<Listing>, content: ListingEntry -> Stored)
    returns (passed: bool, report: Report, ghost c: nat, ghost k: nat)
    requires manifest.Valid()
    modifies manifest, manifest.entries, session
    ensures manifest.Valid()
    ensures passed ==> var r := Batch(CandidatesOf(listings), old(manifest.Rows()), content);
                       && manifest.Rows() == r.table
                       && Reports(report, |Flatten(CandidatesOf(listings))|, r)
                       && report.pending == Pending(CandidatesOf(listings), r)
                       && report.downloaded == |r.fetched| && report.skipped == r.skipped && report.bytes == r.bytes
                       && report.candidates == |Flatten(CandidatesOf(listings))|
    ensures !passed ==> var collections := CandidatesOf(listings);
                        && c < |collections| && k <= |collections[c]|
                        && var r := UpTo(collections, Progress(old(manifest.Rows()), [], 0, 0), content, c, k);
                        && manifest.Rows() == r.table
                        && Reports(report, report.candidates, r)
                        && report.candidates in {|Flatten(collections[..c])|, |Flatten(collections[..c + 1])|}
    ensures passed ==> Commits(CandidatesOf(listings), old(manifest.Rows()), content)
    ensures !passed && !session.troubled ==>
              var collections := CandidatesOf(listings);
              && !Commits(collections, old(manifest.Rows()), content) && k < |collections[c]|
              && Commit(manifest.Rows(), collections[c][k], content(collections[c][k])).status != Ok
  {
    hide NormalForm, CollectionRun, CollectionsRun, Candidates, CollectionCommits, CollectionsCommit, Commit;
    ghost var collections := CandidatesOf(listings);
    ghost var start := Progress(manifest.Rows(), [], 0, 0);
    ghost var r := start;
    var count, downloaded, skipped, bytes := 0, 0, 0, 0;
    c, k := 0, 0;
    EmptyRuns([], 0, collections, start, content);
    assert collections[0..] == collections;
    for index := 0 to |listings|
      invariant manifest.Valid() && (old(session.troubled) ==> session.troubled)
      invariant 0 <= count == |Flatten(collections[..index])|
      invariant 0 <= downloaded && 0 <= skipped && 0 <= bytes <= MAX_SESSION_BYTES
      invariant r == CollectionsRun(collections[..index], start, content)
      invariant manifest.Rows() == r.table && downloaded == |r.fetched| && skipped == r.skipped && bytes == r.bytes
      invariant downloaded + skipped <= count
      invariant Commits(collections, old(manifest.Rows()), content) == CollectionsCommit(collections[index..], r, content)
    {
      c, k := index, 0;
      var listed := session.Attempt();
      if !listed {
        StartOfCollection(collections, start, content, c);
        return false, Report(count, downloaded, skipped, bytes, count - downloaded - skipped), c, k;
      }
      CollectionsCommitSplit(collections, index, r, content);
      var candidates := SelectCandidates(listings[index].entries, listings[index].collection);
      assert candidates == collections[index];
      count := count + |candidates|;
      passed, downloaded, skipped, bytes, k :=
        RunCollection(manifest, session, candidates, content, downloaded, skipped, bytes, r);
      assert collections[..index + 1] == collections[..index] + [candidates];
      FlattenAppend(collections[..index], candidates);
      HandledAtMost(candidates[..k], r, content);
      if !passed {
        return false, Report(count, downloaded, skipped, bytes, count - downloaded - skipped), c, k;
      }
      assert candidates[..k] == candidates;
      CollectionsRunAppend(collections[..index], candidates, start, content);
      r := CollectionRun(candidates, r, content);
    }
    assert collections[..|listings|] == collections;
    NoCollectionToCommit(collections[|listings|..], r, content);
    return true, Report(count, downloaded, skipped, bytes, count - downloaded - skipped), c, k;
  }

  lemma NoCollectionToCommit(collections: seq<seq<ListingEntry>>, p: Progress, content: ListingEntry -> Stored)
    requires collections == [] && p.bytes <= MAX_SESSION_BYTES
    ensures CollectionsCommit(collections, p, content)
  {
  }

  lemma CollectionsCommitSplit(collections: seq<seq<ListingEntry>>, index: nat, r: Progress, content: ListingEntry -> Stored)
    requires index < |collections| && r.bytes <= MAX_SESSION_BYTES
    ensures CollectionsCommit(collections[index..], r, content)
            == (CollectionCommits(collections[index], r, content)
                && CollectionsCommit(collections[index + 1..], CollectionRun(collections[index], r, content), content))
  {
    hide CollectionCommits, CollectionRun;
    assert collections[index..][1..] == collections[index + 1..];
  }

  lemma StartOfCollection(collections: seq<seq<ListingEntry>>, start: Progress, content: ListingEntry -> Stored, c: nat)
    requires start.bytes <= MAX_SESSION_BYTES && c < |collections|
    ensures UpTo(collections, start, content, c, 0) == CollectionsRun(collections[..c], start, content)
  {
    assert collections[c][..0] == [];
  }
}
