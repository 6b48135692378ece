/** Restoring an archive beside what is already on the card. */
module BackupMerge {
  import opened Bytes
  import opened LedgerText
  import opened BackupArchive

  datatype Merged = Merged(tree: Tree, restored: nat, identical: nat, conflicting: nat, bytes: nat)

  function PartialOf(path: seq<byte>): seq<byte> {
    path + PARTIAL_SUFFIX
  }

  /** A present file stays, whatever it holds; an absent one is written through its partial file. */
  function MergeOne(hash: Hash, m: Merged, e: FileEntry): Merged {
    if e.path in m.tree then
      if |m.tree[e.path]| == |e.content| && hash(m.tree[e.path]) == hash(e.content)
      then m.(identical := m.identical + 1) else m.(conflicting := m.conflicting + 1)
    else
      m.(tree := (m.tree - {PartialOf(e.path)})[e.path := e.content], restored := m.restored + 1, bytes := m.bytes + |e.content|)
  }

  function Merge(hash: Hash, tree: Tree, entries: seq<FileEntry>): Merged {
    if entries == [] then Merged(tree, 0, 0, 0, 0)
    else MergeOne(hash, Merge(hash, tree, entries[..|entries| - 1]), entries[|entries| - 1])
  }

  // ---- The merge as a union --------------------------------------------------------------

  predicate Paths(entries: seq<FileEntry>, p: seq<byte>) {
    exists i :: 0 <= i < |entries| && entries[i].path == p
  }

  /** The partial files of the files to be restored. */
  predicate Scratch(tree: Tree, entries: seq<FileEntry>, p: seq<byte>) {
    exists i :: 0 <= i < |entries| && entries[i].path !in tree && PartialOf(entries[i].path) == p
  }

  predicate DistinctFiles(entries: seq<FileEntry>) {
    forall i, j | 0 <= i < j < |entries| :: entries[i].path != entries[j].path
  }

  predicate NoPartials(entries: seq<FileEntry>) {
    forall i, j | 0 <= i < |entries| && 0 <= j < |entries| :: entries[i].path != PartialOf(entries[j].path)
  }

  /**
   * The merge is a union that prefers what is there: every present file stays with its bytes, apart from partial
   * files of what is restored; every archived file that was absent is there with its own bytes; nothing else appears.
   */
  predicate LeftUnion(tree: Tree, entries: seq<FileEntry>, after: Tree) {
    && (forall p | p in tree && !Scratch(tree, entries, p) :: p in after && after[p] == tree[p])
    && (forall i | 0 <= i < |entries| :: entries[i].path in after)
    && (forall i | 0 <= i < |entries| && entries[i].path !in tree :: after[entries[i].path] == entries[i].content)
    && (forall p | p in after :: Paths(entries, p) || (p in tree && !Scratch(tree, entries, p)))
  }

  lemma {:induction false} MergeIsLeftUnion(hash: Hash, tree: Tree, entries: seq<FileEntry>)
    requires DistinctFiles(entries) && NoPartials(entries)
    ensures LeftUnion(tree, entries, Merge(hash, tree, entries).tree)
    ensures var m := Merge(hash, tree, entries); m.restored + m.identical + m.conflicting == |entries|
    decreases |entries|
  {
    hide PartialOf, LeftUnion, DistinctFiles, NoPartials;
    if entries == [] {
      EmptyUnion(tree, entries);
    } else {
      var n := |entries| - 1;
      var before, e := entries[..n], entries[n];
      assert entries == before + [e];
      PrefixKeeps(entries);
      MergeIsLeftUnion(hash, tree, before);
      UnionGrows(hash, tree, before, e, Merge(hash, tree, before));
    }
  }

  lemma EmptyUnion(tree: Tree, entries: seq<FileEntry>)
    requires entries == []
    ensures LeftUnion(tree, entries, tree)
  {
  }

  lemma UnionGrows(hash: Hash, tree: Tree, before: seq<FileEntry>, e: FileEntry, m: Merged)
    requires DistinctFiles(before + [e]) && NoPartials(before + [e]) && LeftUnion(tree, before, m.tree)
    ensures LeftUnion(tree, before + [e], MergeOne(hash, m, e).tree)
  {
    hide PartialOf, Paths, Scratch, DistinctFiles, NoPartials;
    var entries := before + [e];
    var after := MergeOne(hash, m, e).tree;
    GrowthFacts(tree, before, e);
    assert forall i | 0 <= i < |before| :: entries[i] == before[i];
    assert entries[|before|] == e;
    assert e.path in m.tree <==> e.path in tree;
  }

  /** What one more file changes about the archived paths and the partial files. */
  lemma GrowthFacts(tree: Tree, before: seq<FileEntry>, e: FileEntry)
    requires DistinctFiles(before + [e]) && NoPartials(before + [e])
    ensures forall p :: Paths(before + [e], p) <==> Paths(before, p) || p == e.path
    ensures forall p :: Scratch(tree, before + [e], p) <==> Scratch(tree, before, p) || (e.path !in tree && p == PartialOf(e.path))
    ensures !Scratch(tree, before, e.path) && !Paths(before, e.path) && e.path != PartialOf(e.path)
    ensures forall i | 0 <= i < |before| :: before[i].path != e.path && before[i].path != PartialOf(e.path)
  {
    hide PartialOf;
    var entries := before + [e];
    assert entries[|before|] == e;
    assert forall i | 0 <= i < |before| :: entries[i] == before[i];
    forall p
      ensures Paths(entries, p) <==> Paths(before, p) || p == e.path
    {
      assert p == e.path ==> entries[|before|].path == p;
    }
    forall p
      ensures Scratch(tree, entries, p) <==> Scratch(tree, before, p) || (e.path !in tree && p == PartialOf(e.path))
    {
      assert e.path !in tree && p == PartialOf(e.path) ==> PartialOf(entries[|before|].path) == p;
    }
  }

  /** The counters tell the files apart: restored ones were absent, the others present with or without equal digest. */
  lemma {:induction false} CountersMean(hash: Hash, tree: Tree, entries: seq<FileEntry>)
    requires DistinctFiles(entries) && NoPartials(entries)
    ensures Merge(hash, tree, entries).restored == 0 <==> forall i | 0 <= i < |entries| :: entries[i].path in tree
    ensures (forall i | 0 <= i < |entries| :: entries[i].path in tree) ==> Merge(hash, tree, entries).tree == tree
    decreases |entries|
  {
    hide PartialOf, LeftUnion, DistinctFiles, NoPartials;
    if entries != [] {
      var n := |entries| - 1;
      PrefixKeeps(entries);
      CountersMean(hash, tree, entries[..n]);
      MergeIsLeftUnion(hash, tree, entries[..n]);
      LastPresentIff(hash, tree, entries);
      assert forall i | 0 <= i < n :: entries[..n][i] == entries[i];
    }
  }

  function Absent(tree: Tree, entries: seq<FileEntry>): set<nat> {
    set i | 0 <= i < |entries| && entries[i].path !in tree
  }

  /** The archived files that are there already, with the same length and digest. */
  function Alike(hash: Hash, tree: Tree, entries: seq<FileEntry>): set<nat> {
    set i | 0 <= i < |entries| && HasAlike(hash, tree, entries[i])
  }

  predicate HasAlike(hash: Hash, tree: Tree, e: FileEntry) {
    e.path in tree && |tree[e.path]| == |e.content| && hash(tree[e.path]) == hash(e.content)
  }

  function AbsentBytes(tree: Tree, entries: seq<FileEntry>): nat {
    if entries == [] then 0
    else
      var last := entries[|entries| - 1];
      AbsentBytes(tree, entries[..|entries| - 1]) + if last.path in tree then 0 else |last.content|
  }

  lemma AbsentSplits(tree: Tree, entries: seq<FileEntry>)
    requires entries != []
    ensures var n := |entries| - 1;
            |Absent(tree, entries)| == |Absent(tree, entries[..n])| + if entries[n].path in tree then 0 else 1
  {
    var n := |entries| - 1;
    var before := entries[..n];
    assert forall i | 0 <= i < n :: before[i] == entries[i];
    assert Absent(tree, entries) == Absent(tree, before) + if entries[n].path in tree then {} else {n};
  }

  lemma AlikeSplits(hash: Hash, tree: Tree, entries: seq<FileEntry>)
    requires entries != []
    ensures var n := |entries| - 1;
            |Alike(hash, tree, entries)|
            == |Alike(hash, tree, entries[..n])| + if HasAlike(hash, tree, entries[n]) then 1 else 0
  {
    hide HasAlike;
    var n := |entries| - 1;
    var all, fewer := Alike(hash, tree, entries), Alike(hash, tree, entries[..n]);
    assert forall i | 0 <= i < n :: entries[..n][i] == entries[i];
    if HasAlike(hash, tree, entries[n]) {
      assert all == fewer + {n};
    } else {
      assert all == fewer;
    }
  }

  /** The counters are exact: restored files were absent, identical ones there alike, and every other one conflicts. */
  lemma {:induction false} CountersExact(hash: Hash, tree: Tree, entries: seq<FileEntry>)
    requires DistinctFiles(entries) && NoPartials(entries)
    ensures var m := Merge(hash, tree, entries);
            && m.restored == |Absent(tree, entries)| && m.identical == |Alike(hash, tree, entries)|
            && m.conflicting == |entries| - |Absent(tree, entries)| - |Alike(hash, tree, entries)|
            && m.bytes == AbsentBytes(tree, entries)
    decreases |entries|
  {
    hide PartialOf, LeftUnion, DistinctFiles, NoPartials, Absent, Alike;
    if entries == [] {
      NothingCounted(hash, tree, entries);
    } else {
      var n := |entries| - 1;
      PrefixKeeps(entries);
      CountersExact(hash, tree, entries[..n]);
      MergeIsLeftUnion(hash, tree, entries[..n]);
      LastPresentIff(hash, tree, entries);
      AbsentSplits(tree, entries);
      AlikeSplits(hash, tree, entries);
    }
  }

  lemma NothingCounted(hash: Hash, tree: Tree, entries: seq<FileEntry>)
    requires entries == []
    ensures Absent(tree, entries) == {} && Alike(hash, tree, entries) == {}
  {
  }

  lemma PrefixKeeps(entries: seq<FileEntry>)
    requires DistinctFiles(entries) && NoPartials(entries) && entries != []
    ensures DistinctFiles(entries[..|entries| - 1]) && NoPartials(entries[..|entries| - 1])
  {
    hide PartialOf;
  }

  /** A second merge of the same archive restores nothing and changes nothing; what was restored now counts as identical. */
  lemma SecondMergeRestoresNothing(hash: Hash, tree: Tree, entries: seq<FileEntry>)
    requires DistinctFiles(entries) && NoPartials(entries)
    ensures var first := Merge(hash, tree, entries);
            var second := Merge(hash, first.tree, entries);
            && second.restored == 0 && second.bytes == 0 && second.tree == first.tree
            && second.identical == first.identical + first.restored && second.conflicting == first.conflicting
  {
    var after := Merge(hash, tree, entries).tree;
    MergeIsLeftUnion(hash, tree, entries);
    CountAgain(hash, tree, entries, after);
  }

  lemma {:induction false} CountAgain(hash: Hash, tree: Tree, entries: seq<FileEntry>, after: Tree)
    requires DistinctFiles(entries) && NoPartials(entries)
    requires forall i | 0 <= i < |entries| :: entries[i].path in after
    requires forall i | 0 <= i < |entries| ::
               after[entries[i].path] == if entries[i].path in tree then tree[entries[i].path] else entries[i].content
    ensures var first := Merge(hash, tree, entries);
            var second := Merge(hash, after, entries);
            && second.restored == 0 && second.bytes == 0 && second.tree == after
            && second.identical == first.identical + first.restored && second.conflicting == first.conflicting
    decreases |entries|
  {
    hide PartialOf;
    if entries != [] {
      var n := |entries| - 1;
      var before := entries[..n];
      assert forall i | 0 <= i < n :: before[i] == entries[i];
      PrefixKeeps(entries);
      CountAgain(hash, tree, before, after);
      MergeIsLeftUnion(hash, tree, before);
      LastPresentIff(hash, tree, entries);
    }
  }

  /** At its turn a file is present exactly when it was present at the start, and then with its first bytes. */
  lemma LastPresentIff(hash: Hash, tree: Tree, entries: seq<FileEntry>)
    requires DistinctFiles(entries) && NoPartials(entries) && entries != []
    requires LeftUnion(tree, entries[..|entries| - 1], Merge(hash, tree, entries[..|entries| - 1]).tree)
    ensures var m, p := Merge(hash, tree, entries[..|entries| - 1]).tree, entries[|entries| - 1].path;
            (p in m <==> p in tree) && (p in tree ==> m[p] == tree[p])
  {
    hide PartialOf, Merge;
    var n := |entries| - 1;
    var before := entries[..n];
    assert forall i | 0 <= i < n :: before[i] == entries[i];
    assert !Scratch(tree, before, entries[n].path) && !Paths(before, entries[n].path);
  }

  // ---- Exported archives ---------------------------------------------------------------------

  lemma {:induction false} LastSegmentEnds(path: seq<byte>) returns (s: seq<byte>)
    requires SLASH !in PARTIAL_SUFFIX
    ensures s in Segments(path + PARTIAL_SUFFIX) && EndsIn(s, PARTIAL_SUFFIX)
    decreases |path|
  {
    var whole := path + PARTIAL_SUFFIX;
    var k := IndexOf(whole, SLASH);
    hide EndsIn;
    if k == |whole| {
      s := whole;
      SuffixEnds(path);
      assert Segments(whole) == [whole];
    } else {
      SlashIsInPath(path, k);
      assert whole[k + 1..] == path[k + 1..] + PARTIAL_SUFFIX;
      s := LastSegmentEnds(path[k + 1..]);
      assert Segments(whole) == [whole[..k]] + Segments(whole[k + 1..]);
    }
  }

  lemma SuffixEnds(path: seq<byte>)
    ensures EndsIn(path + PARTIAL_SUFFIX, PARTIAL_SUFFIX)
  {
  }

  lemma SlashIsInPath(path: seq<byte>, k: nat)
    requires k < |path + PARTIAL_SUFFIX| && (path + PARTIAL_SUFFIX)[k] == SLASH && SLASH !in PARTIAL_SUFFIX
    ensures k < |path|
  {
    assert forall i | |path| <= i < |path + PARTIAL_SUFFIX| :: (path + PARTIAL_SUFFIX)[i] == PARTIAL_SUFFIX[i - |path|];
  }

  lemma SuffixHasNoSlash()
    ensures SLASH !in PARTIAL_SUFFIX
  {
  }

  /** The walk never lists a partial file of a restore. */
  lemma PartialNotVisited(path: seq<byte>)
    requires |path| >= |ROOT|
    ensures !Visited(PartialOf(path))
  {
    hide IgnoredName;
    SuffixHasNoSlash();
    var whole := PartialOf(path);
    assert whole[|ROOT|..] == path[|ROOT|..] + PARTIAL_SUFFIX;
    var s := LastSegmentEnds(path[|ROOT|..]);
    SuffixIsIgnored(s);
  }

  lemma SuffixIsIgnored(s: seq<byte>)
    requires EndsIn(s, PARTIAL_SUFFIX)
    ensures IgnoredName(s)
  {
    assert PartAt(s, PARTIAL_SUFFIX, |s| - |PARTIAL_SUFFIX|);
  }

  lemma ExportedFilesMerge(tree: Tree, order: seq<seq<byte>>)
    requires Lists(tree, order)
    ensures DistinctFiles(EntriesOf(tree, order)) && NoPartials(EntriesOf(tree, order))
  {
    hide Visited;
    forall i, j | 0 <= i < |order| && 0 <= j < |order|
      ensures order[i] != PartialOf(order[j])
    {
      assert Visited(order[j]) && Visited(order[i]);
      VisitedLength(order[j]);
      PartialNotVisited(order[j]);
    }
  }

  lemma VisitedLength(path: seq<byte>)
    ensures Visited(path) ==> |path| > |ROOT|
  {
  }

  /**
   * A backup of one card merged into another: whatever the walk order, the archive passes validation when its files
   * lie under at most sixteen device keys; the merge then keeps what the other card has, adds every backed-up file it
   * lacks with its exact bytes, and a second merge finds nothing to restore.
   */
  lemma BackupReachesTheOtherCard(hash: Hash, source: Tree, order: seq<seq<byte>>, created: u64, target: Tree)
    requires Lists(source, order) && Exportable(EntriesOf(source, order))
    requires None !in KeysOf(EntriesOf(source, order)) && |KeysOf(EntriesOf(source, order))| <= DEVICE_CAPACITY
    ensures var v := Validate(hash, Archive(hash, EntriesOf(source, order), created));
            && v.Accepted?
            && var m := Merge(hash, target, v.entries);
            && (forall p | p in source && Visited(p) :: p in m.tree && m.tree[p] == if p in target then target[p] else source[p])
            && (forall p | p in target && !Scratch(target, v.entries, p) :: p in m.tree && m.tree[p] == target[p])
            && m.restored + m.identical + m.conflicting == |order|
            && Merge(hash, m.tree, v.entries).restored == 0
  {
    hide Validate, Archive, Visited, SafePath, DeviceKey, PartialOf, Merge;
    var entries := EntriesOf(source, order);
    ExportValidatesIff(hash, entries, created);
    ExportedFilesMerge(source, order);
    MergeIsLeftUnion(hash, target, entries);
    SecondMergeRestoresNothing(hash, target, entries);
    var m := Merge(hash, target, entries);
    forall p | p in source && Visited(p)
      ensures p in m.tree && m.tree[p] == if p in target then target[p] else source[p]
    {
      var i :| 0 <= i < |order| && order[i] == p;
      assert entries[i] == FileEntry(p, source[p]);
      assert !Scratch(target, entries, p);
    }
  }
}
