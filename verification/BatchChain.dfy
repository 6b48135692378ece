/** When the chain of continuation batches ends although some listed files have no device time. */
module BatchChain {
  import opened Bytes
  import opened LedgerText
  import opened SyncManifest
  import opened BatchSelection
  import opened BatchSync

  /** The file still fits a batch that has already fetched every untimed file before it. */
  predicate Reachable(all: seq<ListingEntry>, i: nat)
    requires i < |all|
  {
    Untimed(all[..i]) < MAX_DOWNLOADS && UntimedBytes(all[..i]) + all[i].size <= MAX_SESSION_BYTES
  }

  /** At most three untimed files come before any file, and leave room for it. */
  predicate AllReachable(all: seq<ListingEntry>) {
    forall i | 0 <= i < |all| :: Reachable(all, i)
  }

  predicate Ends(collections: seq<seq<ListingEntry>>, t: Table, content: nat -> ListingEntry -> Stored, n: nat) {
    ChainReaches(collections, t, content, n) && !Continues(collections, t, content, n)
  }

  // ---- What a batch leaves alone -------------------------------------------------------------

  /** There is still room, and what was current in the first table is in the second. */
  predicate Keeps(all: seq<ListingEntry>, t: Table, u: Table) {
    Room(u, all) && forall k | 0 <= k < |all| && Current(t, all[k]) :: Current(u, all[k])
  }

  lemma FetchKeeps(all: seq<ListingEntry>, i: nat, p: Progress, stored: Stored)
    requires Safe(all) && Room(p.table, all) && i < |all| && !Current(p.table, all[i])
    ensures Keeps(all, p.table, Fetch(p, all[i], stored).table)
    ensures OnlyWithin(all, i, i + 1, p.table, Fetch(p, all[i], stored).table)
    ensures all[i].deviceTime != 0 ==> Current(Fetch(p, all[i], stored).table, all[i])
  {
    hide Current, Room, Commit, Safe;
    CommitSucceeds(p.table, all, i, stored);
    CommitMakesCurrent(p.table, all, i, stored);
  }

  lemma {:induction false} CollectionKeeps(candidates: seq<ListingEntry>, all: seq<ListingEntry>, at: nat, p: Progress,
                                           content: ListingEntry -> Stored)
    requires Safe(all) && Room(p.table, all) && p.bytes <= MAX_SESSION_BYTES && PartOf(candidates, all, at)
    ensures Keeps(all, p.table, CollectionRun(candidates, p, content).table)
    ensures OnlyWithin(all, at, at + |candidates|, p.table, CollectionRun(candidates, p, content).table)
    decreases |candidates|
  {
    hide Current, Room, Safe, Fetch, OnlyWithin;
    OnlyWithinNothing(all, at, at + |candidates|, p.table);
    if candidates != [] {
      var e := candidates[0];
      assert e == all[at];
      if Current(p.table, e) {
        var q := p.(skipped := p.skipped + 1);
        CollectionKeeps(candidates[1..], all, at + 1, q, content);
        OnlyWithinNothing(all, at, at + 1, p.table);
        OnlyWithinJoins(all, at, at + 1, at + |candidates|, p.table, q.table, CollectionRun(candidates[1..], q, content).table);
      } else if !OverBudget(p, e) {
        var q := Fetch(p, e, content(e));
        FetchKeeps(all, at, p, content(e));
        FetchAdds(p, e, content(e));
        CollectionKeeps(candidates[1..], all, at + 1, q, content);
        OnlyWithinJoins(all, at, at + 1, at + |candidates|, p.table, q.table, CollectionRun(candidates[1..], q, content).table);
      }
    }
  }

  lemma FetchAdds(p: Progress, e: ListingEntry, stored: Stored)
    ensures var q := Fetch(p, e, stored);
            q.fetched == p.fetched + [e] && q.skipped == p.skipped && q.bytes == p.bytes + e.size
            && q.table == Commit(p.table, e, stored).table
  {
  }

  lemma {:induction false} CollectionsKeep(collections: seq<seq<ListingEntry>>, all: seq<ListingEntry>, at: nat, p: Progress,
                                           content: ListingEntry -> Stored)
    requires Safe(all) && Room(p.table, all) && p.bytes <= MAX_SESSION_BYTES && PartOf(Flatten(collections), all, at)
    ensures Keeps(all, p.table, CollectionsRun(collections, p, content).table)
    ensures OnlyWithin(all, at, at + |Flatten(collections)|, p.table, CollectionsRun(collections, p, content).table)
    decreases |collections|
  {
    hide Current, Room, Safe, CollectionRun, OnlyWithin;
    OnlyWithinNothing(all, at, at + |Flatten(collections)|, p.table);
    if collections != [] {
      var first, rest := collections[0], collections[1..];
      PartSplits(first, Flatten(rest), all, at);
      var q := CollectionRun(first, p, content);
      CollectionKeeps(first, all, at, p, content);
      CollectionsKeep(rest, all, at + |first|, q, content);
      OnlyWithinJoins(all, at, at + |first|, at + |Flatten(collections)|, p.table, q.table, CollectionsRun(rest, q, content).table);
    }
  }

  lemma PartSplits(first: seq<ListingEntry>, rest: seq<ListingEntry>, all: seq<ListingEntry>, at: nat)
    requires PartOf(first + rest, all, at)
    ensures PartOf(first, all, at) && PartOf(rest, all, at + |first|)
  {
    assert all[at..at + |first|] == (first + rest)[..|first|];
    assert all[at + |first|..at + |first| + |rest|] == (first + rest)[|first|..];
  }

  // ---- Up to the first stale file with a device time ----------------------------------------------

  /** Nothing before this position is stale but untimed files, which still fit. */
  predicate OnlyUntimedStale(all: seq<ListingEntry>, t: Table, from: nat, to: nat)
    requires to <= |all|
  {
    forall k | from <= k < to :: Current(t, all[k]) || (all[k].deviceTime == 0 && Reachable(all, k))
  }

  /** All stale files up to this position have been fetched: all of them untimed, so that every file's status is as before. */
  predicate Clean(all: seq<ListingEntry>, t: Table, at: nat, p: Progress) {
    && at <= |all| && Room(p.table, all) && p.bytes <= MAX_SESSION_BYTES
    && |p.fetched| == Untimed(all[..at]) && p.bytes == UntimedBytes(all[..at]) && p.skipped == at - Untimed(all[..at])
    && forall k | 0 <= k < |all| :: Current(p.table, all[k]) == Current(t, all[k])
  }

  lemma OneMore(all: seq<ListingEntry>, at: nat)
    requires at < |all|
    ensures Untimed(all[..at + 1]) == Untimed(all[..at]) + if all[at].deviceTime == 0 then 1 else 0
    ensures UntimedBytes(all[..at + 1]) == UntimedBytes(all[..at]) + if all[at].deviceTime == 0 then all[at].size else 0
  {
    assert all[..at + 1] == all[..at] + [all[at]];
    UntimedConcat(all[..at], [all[at]]);
    assert Untimed([all[at]]) == if all[at].deviceTime == 0 then 1 else 0;
  }

  lemma NeverCurrent(t: Table, e: ListingEntry)
    ensures e.deviceTime == 0 ==> !Current(t, e)
  {
  }

  lemma CleanSkip(all: seq<ListingEntry>, t: Table, at: nat, p: Progress)
    requires Clean(all, t, at, p) && at < |all| && Current(p.table, all[at])
    ensures Clean(all, t, at + 1, p.(skipped := p.skipped + 1))
  {
    hide Current, Room;
    OneMore(all, at);
    NeverCurrent(p.table, all[at]);
  }

  lemma CleanFetch(all: seq<ListingEntry>, t: Table, at: nat, p: Progress, stored: Stored)
    requires Safe(all) && Clean(all, t, at, p) && at < |all| && all[at].deviceTime == 0 && Reachable(all, at)
    ensures !OverBudget(p, all[at])
    ensures Clean(all, t, at + 1, Fetch(p, all[at], stored))
  {
    hide Current, Room, Safe, Fetch;
    OneMore(all, at);
    var q := Fetch(p, all[at], stored);
    NeverCurrent(p.table, all[at]);
    NeverCurrent(q.table, all[at]);
    FetchAdds(p, all[at], stored);
    FetchKeeps(all, at, p, stored);
  }

  lemma {:induction false} CollectionClean(candidates: seq<ListingEntry>, all: seq<ListingEntry>, at: nat, t: Table, p: Progress,
                                           content: ListingEntry -> Stored)
    requires Safe(all) && PartOf(candidates, all, at) && Clean(all, t, at, p)
    requires OnlyUntimedStale(all, t, at, at + |candidates|)
    ensures Clean(all, t, at + |candidates|, CollectionRun(candidates, p, content))
    decreases |candidates|
  {
    hide Current, Room, Safe, Fetch, OverBudget, Reachable;
    if candidates != [] {
      var e := candidates[0];
      assert e == all[at];
      if Current(p.table, e) {
        CleanSkip(all, t, at, p);
        CollectionClean(candidates[1..], all, at + 1, t, p.(skipped := p.skipped + 1), content);
      } else {
        CleanFetch(all, t, at, p, content(e));
        CollectionClean(candidates[1..], all, at + 1, t, Fetch(p, e, content(e)), content);
      }
    }
  }

  /** What becomes of the first stale file with a device time: fetched if reachable, otherwise left stale. */
  lemma {:induction false} CollectionMeets(candidates: seq<ListingEntry>, all: seq<ListingEntry>, at: nat, t: Table, p: Progress,
                                           i: nat, content: ListingEntry -> Stored)
    requires Safe(all) && PartOf(candidates, all, at) && Clean(all, t, at, p)
    requires at <= i < at + |candidates| && all[i].deviceTime != 0 && !Current(t, all[i])
    requires OnlyUntimedStale(all, t, at, i)
    ensures Current(CollectionRun(candidates, p, content).table, all[i]) <==> Reachable(all, i)
    decreases |candidates|
  {
    hide Current, Room, Safe, Fetch;
    var e, rest := candidates[0], candidates[1..];
    assert e == all[at];
    if at == i {
      if !OverBudget(p, e) {
        var q := Fetch(p, e, content(e));
        FetchKeeps(all, at, p, content(e));
        FetchAdds(p, e, content(e));
        CollectionKeeps(rest, all, at + 1, q, content);
      }
    } else if Current(p.table, e) {
      CleanSkip(all, t, at, p);
      CollectionMeets(rest, all, at + 1, t, p.(skipped := p.skipped + 1), i, content);
    } else {
      CleanFetch(all, t, at, p, content(e));
      CollectionMeets(rest, all, at + 1, t, Fetch(p, e, content(e)), i, content);
    }
  }

  lemma {:induction false} CollectionsClean(collections: seq<seq<ListingEntry>>, all: seq<ListingEntry>, at: nat, t: Table, p: Progress,
                                            content: ListingEntry -> Stored)
    requires Safe(all) && PartOf(Flatten(collections), all, at) && Clean(all, t, at, p)
    requires OnlyUntimedStale(all, t, at, at + |Flatten(collections)|)
    ensures Clean(all, t, at + |Flatten(collections)|, CollectionsRun(collections, p, content))
    decreases |collections|
  {
    hide Current, Room, Safe, Reachable, CollectionRun;
    if collections != [] {
      var first, rest := collections[0], collections[1..];
      PartSplits(first, Flatten(rest), all, at);
      CollectionClean(first, all, at, t, p, content);
      CollectionsClean(rest, all, at + |first|, t, CollectionRun(first, p, content), content);
    }
  }

  lemma {:induction false} CollectionsMeet(collections: seq<seq<ListingEntry>>, all: seq<ListingEntry>, at: nat, t: Table, p: Progress,
                                           i: nat, content: ListingEntry -> Stored)
    requires Safe(all) && PartOf(Flatten(collections), all, at) && Clean(all, t, at, p)
    requires at <= i < at + |Flatten(collections)| && all[i].deviceTime != 0 && !Current(t, all[i])
    requires OnlyUntimedStale(all, t, at, i)
    ensures Current(CollectionsRun(collections, p, content).table, all[i]) <==> Reachable(all, i)
    decreases |collections|
  {
    hide Current, Room, Safe, Reachable, CollectionRun, Keeps;
    var first, rest := collections[0], collections[1..];
    PartSplits(first, Flatten(rest), all, at);
    var q := CollectionRun(first, p, content);
    if i < at + |first| {
      CollectionMeets(first, all, at, t, p, i, content);
      CollectionKeeps(first, all, at, p, content);
      KeepsRoom(all, p.table, q.table);
      CollectionsKeep(rest, all, at + |first|, q, content);
    } else {
      CollectionClean(first, all, at, t, p, content);
      CollectionsMeet(rest, all, at + |first|, t, q, i, content);
    }
  }

  lemma KeepsRoom(all: seq<ListingEntry>, t: Table, u: Table)
    requires Keeps(all, t, u)
    ensures Room(u, all)
  {
  }

  lemma CleanStart(all: seq<ListingEntry>, t: Table)
    requires Room(t, all)
    ensures Clean(all, t, 0, Progress(t, [], 0, 0)) && PartOf(all, all, 0)
  {
    assert all[..0] == [];
    assert all[0..|all|] == all;
  }

  /** A batch over files of which only reachable untimed ones are stale leaves nothing pending. */
  lemma BatchFinishes(collections: seq<seq<ListingEntry>>, t: Table, content: ListingEntry -> Stored)
    requires Safe(Flatten(collections)) && Room(t, Flatten(collections))
    requires OnlyUntimedStale(Flatten(collections), t, 0, |Flatten(collections)|)
    ensures Pending(collections, Batch(collections, t, content)) == 0
  {
    hide Current, Room, Safe, Reachable, CollectionsRun, OnlyUntimedStale;
    var all := Flatten(collections);
    CleanStart(all, t);
    CollectionsClean(collections, all, 0, t, Progress(t, [], 0, 0), content);
    assert all[..|all|] == all;
  }

  /** A batch fetches the first stale file with a device time exactly when it is reachable. */
  lemma BatchMeets(collections: seq<seq<ListingEntry>>, t: Table, i: nat, content: ListingEntry -> Stored)
    requires Safe(Flatten(collections)) && Room(t, Flatten(collections)) && i < |Flatten(collections)|
    requires Flatten(collections)[i].deviceTime != 0 && !Current(t, Flatten(collections)[i])
    requires OnlyUntimedStale(Flatten(collections), t, 0, i)
    ensures Current(Batch(collections, t, content).table, Flatten(collections)[i]) <==> Reachable(Flatten(collections), i)
    ensures Keeps(Flatten(collections), t, Batch(collections, t, content).table)
  {
    hide Current, Room, Safe, Reachable, CollectionsRun, OnlyUntimedStale, Keeps;
    var all := Flatten(collections);
    CleanStart(all, t);
    CollectionsMeet(collections, all, 0, t, Progress(t, [], 0, 0), i, content);
    CollectionsKeep(collections, all, 0, Progress(t, [], 0, 0), content);
  }

  // ---- The chain ends ------------------------------------------------------------------------

  /** Files with a device time that are not current. */
  function Waiting(t: Table, all: seq<ListingEntry>): nat {
    if all == [] then 0 else (if all[0].deviceTime != 0 && !Current(t, all[0]) then 1 else 0) + Waiting(t, all[1..])
  }

  lemma {:induction false} WaitingShrinks(t: Table, u: Table, all: seq<ListingEntry>)
    requires forall k | 0 <= k < |all| && Current(t, all[k]) :: Current(u, all[k])
    ensures Waiting(u, all) <= Waiting(t, all)
    ensures (exists k :: 0 <= k < |all| && all[k].deviceTime != 0 && !Current(t, all[k]) && Current(u, all[k])) ==>
              Waiting(u, all) < Waiting(t, all)
  {
    hide Current;
    if all != [] {
      var rest := all[1..];
      assert forall k | 0 <= k < |rest| :: rest[k] == all[k + 1];
      WaitingShrinks(t, u, rest);
      if k :| 0 < k < |all| && all[k].deviceTime != 0 && !Current(t, all[k]) && Current(u, all[k]) {
        assert rest[k - 1] == all[k];
      }
    }
  }

  /** The position of the first stale file with a device time. */
  function FirstWaiting(t: Table, all: seq<ListingEntry>, from: nat): (i: nat)
    requires from <= |all|
    ensures from <= i <= |all|
    ensures i < |all| ==> all[i].deviceTime != 0 && !Current(t, all[i])
    ensures forall k | from <= k < i :: Current(t, all[k]) || all[k].deviceTime == 0
    decreases |all| - from
  {
    if from == |all| || (all[from].deviceTime != 0 && !Current(t, all[from])) then from else FirstWaiting(t, all, from + 1)
  }

  /** Untimed files and stale ones are reachable in this table. */
  predicate StaleReachable(all: seq<ListingEntry>, t: Table) {
    forall i | 0 <= i < |all| && !Current(t, all[i]) :: Reachable(all, i)
  }

  /** Each batch that is not the last makes one more file with a device time current. */
  lemma BatchStep(collections: seq<seq<ListingEntry>>, t: Table, content: ListingEntry -> Stored)
    requires Safe(Flatten(collections)) && Room(t, Flatten(collections)) && StaleReachable(Flatten(collections), t)
    ensures var all, u := Flatten(collections), Batch(collections, t, content).table;
            Keeps(all, t, u) && StaleReachable(all, u)
            && (Pending(collections, Batch(collections, t, content)) > 0 ==> Waiting(u, all) < Waiting(t, all))
  {
    hide Current, Room, Safe, Reachable, Batch;
    var all := Flatten(collections);
    var i := FirstWaiting(t, all, 0);
    assert OnlyUntimedStale(all, t, 0, i) by {
      forall k | 0 <= k < i && all[k].deviceTime == 0
        ensures Reachable(all, k)
      {
        NeverCurrent(t, all[k]);
      }
    }
    if i == |all| {
      BatchFinishes(collections, t, content);
      BatchKeeps(collections, t, content);
    } else {
      BatchMeets(collections, t, i, content);
      WaitingShrinks(t, Batch(collections, t, content).table, all);
    }
  }

  lemma BatchKeeps(collections: seq<seq<ListingEntry>>, t: Table, content: ListingEntry -> Stored)
    requires Safe(Flatten(collections)) && Room(t, Flatten(collections))
    ensures Keeps(Flatten(collections), t, Batch(collections, t, content).table)
  {
    hide Current, Room, Safe, Keeps;
    CleanStart(Flatten(collections), t);
    CollectionsKeep(collections, Flatten(collections), 0, Progress(t, [], 0, 0), content);
  }

  /** Every file with a device time is current. */
  predicate TimedCurrent(t: Table, files: seq<ListingEntry>) {
    forall k | 0 <= k < |files| && files[k].deviceTime != 0 :: Current(t, files[k])
  }

  /** A stretch is left incomplete only with something fetched; completed, it has all its files with a device time current. */
  predicate Handles(files: seq<ListingEntry>, p: Progress, r: Progress) {
    var handled := |r.fetched| - |p.fetched| + r.skipped - p.skipped;
    && handled <= |files|
    && (handled == |files| ==> TimedCurrent(r.table, files))
    && (r.fetched == [] ==> handled == |files| && p.fetched == [] && r.bytes == 0)
  }

  lemma {:induction false} CollectionHandles(candidates: seq<ListingEntry>, all: seq<ListingEntry>, at: nat, p: Progress,
                                             content: ListingEntry -> Stored)
    requires Safe(all) && Room(p.table, all) && p.bytes <= MAX_SESSION_BYTES && PartOf(candidates, all, at)
    requires p.fetched == [] ==> p.bytes == 0
    ensures Handles(candidates, p, CollectionRun(candidates, p, content))
    decreases |candidates|
  {
    hide Current, Room, Safe, Fetch;
    if candidates != [] {
      var e, rest := candidates[0], candidates[1..];
      assert e == all[at];
      SafeAt(all, at);
      if Current(p.table, e) {
        var q := p.(skipped := p.skipped + 1);
        CollectionHandles(rest, all, at + 1, q, content);
        CollectionKeeps(rest, all, at + 1, q, content);
      } else if !OverBudget(p, e) {
        var q := Fetch(p, e, content(e));
        FetchAdds(p, e, content(e));
        FetchKeeps(all, at, p, content(e));
        CollectionHandles(rest, all, at + 1, q, content);
        CollectionKeeps(rest, all, at + 1, q, content);
      }
    }
  }

  lemma SafeAt(all: seq<ListingEntry>, i: nat)
    requires Safe(all) && i < |all|
    ensures 0 < all[i].size <= MAX_FILE_BYTES
  {
  }

  lemma {:induction false} CollectionsHandle(collections: seq<seq<ListingEntry>>, all: seq<ListingEntry>, at: nat, p: Progress,
                                             content: ListingEntry -> Stored)
    requires Safe(all) && Room(p.table, all) && p.bytes <= MAX_SESSION_BYTES && PartOf(Flatten(collections), all, at)
    requires p.fetched == [] ==> p.bytes == 0
    ensures Handles(Flatten(collections), p, CollectionsRun(collections, p, content))
    decreases |collections|
  {
    hide Current, Room, Safe, CollectionRun;
    if collections != [] {
      var first, rest := collections[0], collections[1..];
      PartSplits(first, Flatten(rest), all, at);
      var q := CollectionRun(first, p, content);
      CollectionHandles(first, all, at, p, content);
      CollectionKeeps(first, all, at, p, content);
      CollectionsHandle(rest, all, at + |first|, q, content);
      CollectionsKeep(rest, all, at + |first|, q, content);
      var r := CollectionsRun(rest, q, content);
      assert forall k | 0 <= k < |first| :: first[k] == all[at + k];
    }
  }

  /** Where the chain stops, every file with a device time has become current. */
  lemma StopsWhenCurrent(collections: seq<seq<ListingEntry>>, t: Table, content: nat -> ListingEntry -> Stored, n: nat)
    requires Safe(Flatten(collections)) && Room(AfterBatches(collections, t, content, n), Flatten(collections))
    requires !Continues(collections, t, content, n)
    ensures TimedCurrent(AfterBatches(collections, t, content, n + 1), Flatten(collections))
  {
    hide Current, Room, Safe, CollectionsRun, TimedCurrent;
    var all, u := Flatten(collections), AfterBatches(collections, t, content, n);
    BatchHasRoom(collections, u, content(n));
    CleanStart(all, u);
    CollectionsHandle(collections, all, 0, Progress(u, [], 0, 0), content(n));
  }

  /**
   * If every untimed file and every file that is stale at the start is reachable, the chain ends after at most one
   * batch more than there are stale files with a device time, and those are current then.
   */
  lemma ChainEnds(collections: seq<seq<ListingEntry>>, t: Table, content: nat -> ListingEntry -> Stored) returns (n: nat)
    requires Safe(Flatten(collections)) && Room(t, Flatten(collections)) && StaleReachable(Flatten(collections), t)
    ensures Ends(collections, t, content, n) && n <= Waiting(t, Flatten(collections))
    ensures TimedCurrent(AfterBatches(collections, t, content, n + 1), Flatten(collections))
    ensures forall e | e in Flatten(collections) && e.deviceTime != 0 :: Recorded(AfterBatches(collections, t, content, n + 1), e)
  {
    hide Current, Room, Safe, Continues, Batch, StaleReachable, Recorded;
    var all := Flatten(collections);
    n := 0;
    while Continues(collections, t, content, n)
      invariant ChainReaches(collections, t, content, n)
      invariant var u := AfterBatches(collections, t, content, n);
                Room(u, all) && StaleReachable(all, u) && Waiting(u, all) + n <= Waiting(t, all)
      decreases Waiting(AfterBatches(collections, t, content, n), all)
    {
      BatchStep(collections, AfterBatches(collections, t, content, n), content(n));
      ContinuesMeansPending(collections, t, content, n);
      n := n + 1;
    }
    StopsWhenCurrent(collections, t, content, n);
    RoomStays(collections, t, content, n + 1);
    RoomNormal(AfterBatches(collections, t, content, n + 1), all);
    forall e | e in all && e.deviceTime != 0
      ensures Recorded(AfterBatches(collections, t, content, n + 1), e)
    {
      CurrentIffRecorded(AfterBatches(collections, t, content, n + 1), e);
    }
  }

  lemma ContinuesMeansPending(collections: seq<seq<ListingEntry>>, t: Table, content: nat -> ListingEntry -> Stored, n: nat)
    requires Continues(collections, t, content, n)
    ensures Pending(collections, Batch(collections, AfterBatches(collections, t, content, n), content(n))) > 0
  {
    hide Batch, AfterBatches;
  }

  // ---- The chain does not end ------------------------------------------------------------------

  lemma {:induction false} UntimedGrows(all: seq<ListingEntry>, low: nat, high: nat)
    requires low <= high <= |all|
    ensures Untimed(all[..low]) <= Untimed(all[..high]) && UntimedBytes(all[..low]) <= UntimedBytes(all[..high])
  {
    assert all[..high] == all[..low] + all[low..high];
    UntimedConcat(all[..low], all[low..high]);
  }

  /** An untimed file out of reach means that the untimed files by themselves do not fit one batch. */
  lemma UntimedOutOfReach(all: seq<ListingEntry>, k: nat)
    requires k < |all| && all[k].deviceTime == 0 && !Reachable(all, k)
    ensures Untimed(all) > MAX_DOWNLOADS || UntimedBytes(all) > MAX_SESSION_BYTES
  {
    OneMore(all, k);
    UntimedGrows(all, k + 1, |all|);
    assert all[..|all|] == all;
  }

  /** Of the files with a device time only this one is stale. */
  predicate OnlyStale(all: seq<ListingEntry>, t: Table, i: nat)
    requires i < |all|
  {
    Room(t, all) && !Current(t, all[i]) && forall k | 0 <= k < |all| && k != i && all[k].deviceTime != 0 :: Current(t, all[k])
  }

  /** A stale file out of reach of untimed ones stays stale, and the chain goes on. */
  lemma {:induction false} StuckForEver(collections: seq<seq<ListingEntry>>, t: Table, content: nat -> ListingEntry -> Stored,
                                        i: nat, n: nat)
    requires Safe(Flatten(collections)) && i < |Flatten(collections)| && OnlyStale(Flatten(collections), t, i)
    requires Flatten(collections)[i].deviceTime != 0 && !Reachable(Flatten(collections), i)
    requires forall k | 0 <= k < i && Flatten(collections)[k].deviceTime == 0 :: Reachable(Flatten(collections), k)
    ensures OnlyStale(Flatten(collections), AfterBatches(collections, t, content, n), i)
    ensures Continues(collections, t, content, n)
  {
    hide Current, Room, Safe, Reachable, Batch;
    var all := Flatten(collections);
    if n > 0 {
      StuckForEver(collections, t, content, i, n - 1);
      BatchMeets(collections, AfterBatches(collections, t, content, n - 1), i, content(n - 1));
    }
    var u := AfterBatches(collections, t, content, n);
    BatchMeets(collections, u, i, content(n));
    if !Continues(collections, t, content, n) {
      StopsWhenCurrent(collections, t, content, n);
      assert false;
    }
  }

  lemma {:induction false} FewPaths(all: seq<ListingEntry>)
    ensures |PathsOf(all)| <= |all|
  {
    if all != [] {
      var rest := all[..|all| - 1];
      FewPaths(rest);
      assert PathsOf(all) == PathsOf(rest) + {all[|all| - 1].path};
    }
  }

  lemma EmptyRoom(all: seq<ListingEntry>)
    requires |all| <= CAPACITY
    ensures Room([], all) && forall i | 0 <= i < |all| :: !Current([], all[i])
  {
    FewPaths(all);
    assert PathSet([]) + PathsOf(all) == PathsOf(all);
  }

  /** A manifest in which one file is missing and all others with a device time are current. */
  lemma AllButOne(all: seq<ListingEntry>, i: nat, stored: Stored) returns (t: Table)
    requires Safe(all) && |all| <= CAPACITY && i < |all|
    ensures OnlyStale(all, t, i)
  {
    EmptyRoom(all);
    hide Current, Room, Safe, Commit;
    t := [];
    for k := 0 to |all|
      invariant Room(t, all) && !Current(t, all[i])
      invariant forall j | 0 <= j < k && j != i && all[j].deviceTime != 0 :: Current(t, all[j])
    {
      if k != i {
        CommitSucceeds(t, all, k, stored);
        CommitMakesCurrent(t, all, k, stored);
        t := Commit(t, all[k], stored).table;
      }
    }
  }

  /**
   * The exact condition: whatever the manifest holds at the start, the chain ends, if and only if at most three
   * untimed files come before any listed file and leave room for it in one batch.
   */
  lemma ChainEndsIff(collections: seq<seq<ListingEntry>>, content: nat -> ListingEntry -> Stored)
    requires Safe(Flatten(collections)) && |Flatten(collections)| <= CAPACITY
    ensures (forall t | Room(t, Flatten(collections)) :: exists n :: Ends(collections, t, content, n))
            <==> AllReachable(Flatten(collections))
  {
    hide Current, Room, Safe, Reachable, Continues;
    var all := Flatten(collections);
    if AllReachable(all) {
      forall t | Room(t, all)
        ensures exists n :: Ends(collections, t, content, n)
      {
        var n := ChainEnds(collections, t, content);
      }
    } else {
      var t := NeverEnds(collections, content);
      assert forall n :: !Ends(collections, t, content, n);
    }
  }

  lemma NeverEnds(collections: seq<seq<ListingEntry>>, content: nat -> ListingEntry -> Stored) returns (t: Table)
    requires Safe(Flatten(collections)) && |Flatten(collections)| <= CAPACITY && !AllReachable(Flatten(collections))
    ensures Room(t, Flatten(collections)) && forall n: nat :: Continues(collections, t, content, n)
  {
    hide Current, Room, Reachable, Continues;
    var all := Flatten(collections);
    if k :| 0 <= k < |all| && all[k].deviceTime == 0 && !Reachable(all, k) {
      UntimedOutOfReach(all, k);
      EmptyRoom(all);
      t := [];
      forall n: nat
        ensures Continues(collections, t, content, n)
      {
        UntimedFilesChainForEver(collections, t, content, n);
      }
    } else {
      var i :| 0 <= i < |all| && !Reachable(all, i);
      t := AllButOne(all, i, content(0)(all[i]));
      forall n: nat
        ensures Continues(collections, t, content, n)
      {
        StuckForEver(collections, t, content, i, n);
      }
    }
  }

  // ---- Concrete listings --------------------------------------------------------------------------

  /** A file "a/b" with the last letter given. */
  function FileAt(letter: byte, deviceTime: u32, size: u32): ListingEntry {
    ListingEntry([letter], deviceTime, size, false, [0x61, SLASH, letter])
  }

  /** Three files of 8 MiB without a device time are downloaded for ever, if the manifest has room for them. */
  lemma ThreeLargeUntimed(t: Table, content: nat -> ListingEntry -> Stored, n: nat)
    requires NormalForm(t) && |t| + 3 <= CAPACITY
    ensures var large := [FileAt(0x61, 0, MAX_FILE_BYTES), FileAt(0x62, 0, MAX_FILE_BYTES), FileAt(0x63, 0, MAX_FILE_BYTES)];
            Safe(Flatten([large])) && Continues([large], t, content, n)
  {
    hide Continues, NormalForm, Room, UntimedBytes;
    var large := [FileAt(0x61, 0, MAX_FILE_BYTES), FileAt(0x62, 0, MAX_FILE_BYTES), FileAt(0x63, 0, MAX_FILE_BYTES)];
    assert Flatten([large]) == large;
    RoomBeside(t, large);
    ThreeUntimed(large[0], large[1], large[2]);
    UntimedFilesChainForEver([large], t, content, n);
  }

  lemma ThreeUntimed(a: ListingEntry, b: ListingEntry, c: ListingEntry)
    requires a.deviceTime == b.deviceTime == c.deviceTime == 0
    ensures UntimedBytes([a, b, c]) == a.size + b.size + c.size
  {
    assert [a, b, c][1..] == [b, c] && [b, c][1..] == [c] && [c][1..] == [];
    assert UntimedBytes([c]) == c.size;
    assert UntimedBytes([b, c]) == b.size + UntimedBytes([c]);
  }

  /** Four small files without a device time keep a larger one that follows from ever being downloaded. */
  lemma FourUntimedAndOneMore(t: Table, content: nat -> ListingEntry -> Stored, n: nat)
    requires NormalForm(t) && |t| + 5 <= CAPACITY
    ensures var files := [FileAt(0x61, 0, 1), FileAt(0x62, 0, 1), FileAt(0x63, 0, 1), FileAt(0x64, 0, 1), FileAt(0x65, 7, 2)];
            && Safe(Flatten([files]))
            && (!Current(t, files[4]) ==>
                  Continues([files], t, content, n) && !Current(AfterBatches([files], t, content, n), files[4]))
  {
    hide Continues, Current, NormalForm, AfterBatches;
    var files := [FileAt(0x61, 0, 1), FileAt(0x62, 0, 1), FileAt(0x63, 0, 1), FileAt(0x64, 0, 1), FileAt(0x65, 7, 2)];
    assert Flatten([files]) == files;
    RoomBeside(t, files);
    if !Current(t, files[4]) {
      FourBefore(files);
      StuckForEver([files], t, content, 4, n);
    }
  }

  lemma RoomBeside(t: Table, all: seq<ListingEntry>)
    requires NormalForm(t) && |t| + |all| <= CAPACITY
    ensures Room(t, all)
  {
    hide WellFormed;
    FewPaths(all);
    PathSetSize(t);
  }

  lemma FourBefore(files: seq<ListingEntry>)
    requires |files| == 5 && forall i | 0 <= i < 4 :: files[i].deviceTime == 0 && files[i].size == 1
    ensures !Reachable(files, 4) && forall k | 0 <= k < 4 :: Reachable(files, k)
  {
    assert files[..0] == [];
    OneMore(files, 0);
    OneMore(files, 1);
    OneMore(files, 2);
    OneMore(files, 3);
  }
}
