/** Which listed files a sync may fetch, and the order it takes them in. */
module BatchSelection {
  import opened Bytes
  import opened LedgerText

  const MAX_FILE_BYTES: nat := 8 * 1024 * 1024
  const NAME_CAPACITY: nat := 128
  const SLASH: byte := 0x2f

  datatype ListingEntry = ListingEntry(
    name: seq<byte>,
    deviceTime: u32,
    size: u32,
    isDirectory: bool,
    path: seq<byte>)

  datatype Collection = Collection(directory: seq<byte>, extension: seq<byte>, alternate: Option<seq<byte>>)

  // ---- The safety filter ---------------------------------------------------------

  predicate IsNameByte(b: byte) {
    IsPathByte(b) && b != SLASH
  }

  predicate EndsWith(name: seq<byte>, suffix: seq<byte>) {
    |name| > |suffix| && name[|name| - |suffix|..] == suffix
  }

  /** A plain file of allowed size directly inside the collection, with an allowed name and extension. */
  predicate SafeEntry(e: ListingEntry, c: Collection) {
    && !e.isDirectory
    && 0 < e.size <= MAX_FILE_BYTES
    && 0 < |e.name| < NAME_CAPACITY
    && e.path == c.directory + [SLASH] + e.name
    && (forall i | 0 <= i < |e.name| :: IsNameByte(e.name[i]))
    && (EndsWith(e.name, c.extension) || (c.alternate.Some? && EndsWith(e.name, c.alternate.value)))
  }

  /** Letters, digits, and the few other characters that a file name may hold. */
  predicate PlainCharacter(b: byte) {
    0x61 <= b <= 0x7a || 0x41 <= b <= 0x5a || 0x30 <= b <= 0x39 || b in {0x20, 0x28, 0x29, 0x2d, 0x2e, 0x5f}
  }

  /** Something, and then the extension. */
  ghost predicate HasExtension(name: seq<byte>, extension: seq<byte>) {
    exists stem: seq<byte> :: stem != [] && name == stem + extension
  }

  lemma EndsWithIff(name: seq<byte>, extension: seq<byte>)
    ensures EndsWith(name, extension) <==> HasExtension(name, extension)
  {
    if EndsWith(name, extension) {
      assert name == name[..|name| - |extension|] + extension;
    }
    if stem: seq<byte> :| stem != [] && name == stem + extension {
      assert (stem + extension)[|stem|..] == extension;
    }
  }

  /**
   * What a sync may fetch: files of 1 byte to 8 MiB, lying in the collection's directory itself under a plain name of at
   * most 127 bytes that has one of its extensions.
   */
  lemma SafeIff(e: ListingEntry, c: Collection)
    ensures SafeEntry(e, c) <==>
            && !e.isDirectory && 1 <= e.size <= 8388608 && |e.name| <= 127
            && e.path == c.directory + [0x2f] + e.name
            && (forall b | b in e.name :: PlainCharacter(b))
            && (HasExtension(e.name, c.extension) || (c.alternate.Some? && HasExtension(e.name, c.alternate.value)))
  {
    forall b: byte
      ensures IsNameByte(b) <==> PlainCharacter(b)
    {
    }
    EndsWithIff(e.name, c.extension);
    if c.alternate.Some? {
      EndsWithIff(e.name, c.alternate.value);
    }
    hide IsNameByte, PlainCharacter, EndsWith;
    assert HasExtension(e.name, c.extension) ==> |e.name| > 0;
    assert (forall b | b in e.name :: PlainCharacter(b)) <==> forall i | 0 <= i < |e.name| :: IsNameByte(e.name[i]);
  }

  // ---- The collections of the device ---------------------------------------------

  /** "datalog" with ".csv" and ".csv.gz" */
  const DATALOGS: Collection :=
    Collection([0x64, 0x61, 0x74, 0x61, 0x6c, 0x6f, 0x67], [0x2e, 0x63, 0x73, 0x76],
               Some([0x2e, 0x63, 0x73, 0x76, 0x2e, 0x67, 0x7a]))

  /** "maps" with ".ptm" */
  const MAPS: Collection := Collection([0x6d, 0x61, 0x70, 0x73], [0x2e, 0x70, 0x74, 0x6d], None)

  /** "images" with ".fb" */
  const IMAGES: Collection := Collection([0x69, 0x6d, 0x61, 0x67, 0x65, 0x73], [0x2e, 0x66, 0x62], None)

  /** "screenshots" with ".png" and ".bmp" */
  const SCREENSHOTS: Collection :=
    Collection([0x73, 0x63, 0x72, 0x65, 0x65, 0x6e, 0x73, 0x68, 0x6f, 0x74, 0x73], [0x2e, 0x70, 0x6e, 0x67],
               Some([0x2e, 0x62, 0x6d, 0x70]))

  const COLLECTIONS: seq<Collection> := [DATALOGS, MAPS, IMAGES, SCREENSHOTS]

  /** A safe file of a well-named collection has a path the manifest accepts. */
  lemma SafePathIsValid(e: ListingEntry, c: Collection)
    requires SafeEntry(e, c)
    requires |c.directory| <= NAME_CAPACITY - 1 && forall i | 0 <= i < |c.directory| :: IsPathByte(c.directory[i])
    ensures ValidPath(e.path)
  {
    forall i | 0 <= i < |e.path|
      ensures IsPathByte(e.path[i])
    {
      if i > |c.directory| {
        assert e.path[i] == e.name[i - |c.directory| - 1];
      }
    }
  }

  function Filter(entries: seq<ListingEntry>, c: Collection): seq<ListingEntry> {
    if entries == [] then []
    else Filter(entries[..|entries| - 1], c)
         + if SafeEntry(entries[|entries| - 1], c) then [entries[|entries| - 1]] else []
  }

  // ---- The order: size, then path bytes, then path length ------------------------------

  /** Sign of the byte-wise comparison of two blocks of one length. */
  function MemCompare(p: seq<byte>, q: seq<byte>): int
    requires |p| == |q|
  {
    if p == [] then 0
    else if p[0] < q[0] then -1
    else if p[0] > q[0] then 1
    else MemCompare(p[1..], q[1..])
  }

  predicate Precedes(candidate: ListingEntry, selected: ListingEntry) {
    if candidate.size < selected.size then true
    else if candidate.size > selected.size then false
    else
      var common := if |candidate.path| < |selected.path| then |candidate.path| else |selected.path|;
      var order := MemCompare(candidate.path[..common], selected.path[..common]);
      order < 0 || (order == 0 && |candidate.path| < |selected.path|)
  }

  /** Dictionary order on byte strings. */
  predicate PathLess(p: seq<byte>, q: seq<byte>) {
    q != [] && (p == [] || p[0] < q[0] || (p[0] == q[0] && PathLess(p[1..], q[1..])))
  }

  /** The comparison the code makes is size first, then dictionary order of the paths. */
  lemma PrecedesIsSizeThenPath(a: ListingEntry, b: ListingEntry)
    ensures Precedes(a, b) <==> a.size < b.size || (a.size == b.size && PathLess(a.path, b.path))
  {
    CompareIsPathLess(a.path, b.path);
  }

  lemma {:induction false} CompareIsPathLess(p: seq<byte>, q: seq<byte>)
    ensures var common := if |p| < |q| then |p| else |q|;
            var order := MemCompare(p[..common], q[..common]);
            PathLess(p, q) <==> order < 0 || (order == 0 && |p| < |q|)
    decreases |p|
  {
    if p != [] && q != [] && p[0] == q[0] {
      var common := if |p| < |q| then |p| else |q|;
      CompareIsPathLess(p[1..], q[1..]);
      assert p[..common][1..] == p[1..][..common - 1];
      assert q[..common][1..] == q[1..][..common - 1];
    }
  }

  lemma {:induction false} PathLessTransitive(p: seq<byte>, q: seq<byte>, r: seq<byte>)
    requires PathLess(p, q) && PathLess(q, r)
    ensures PathLess(p, r)
    decreases |p|
  {
    if p != [] && p[0] == q[0] == r[0] {
      PathLessTransitive(p[1..], q[1..], r[1..]);
    }
  }

  lemma {:induction false} PathLessTotal(p: seq<byte>, q: seq<byte>)
    ensures p == q || PathLess(p, q) || PathLess(q, p)
    ensures !(PathLess(p, q) && PathLess(q, p)) && !PathLess(p, p)
    decreases |p|
  {
    if p != [] {
      PathLessTotal(p[1..], p[1..]);
    }
    if p != [] && q != [] && p[0] == q[0] {
      PathLessTotal(p[1..], q[1..]);
      assert p == [p[0]] + p[1..] && q == [q[0]] + q[1..];
    }
  }

  lemma PrecedesTransitive(a: ListingEntry, b: ListingEntry, c: ListingEntry)
    requires Precedes(a, b) && Precedes(b, c)
    ensures Precedes(a, c)
  {
    hide Precedes, PathLess;
    PrecedesIsSizeThenPath(a, b);
    PrecedesIsSizeThenPath(b, c);
    PrecedesIsSizeThenPath(a, c);
    if PathLess(a.path, b.path) && PathLess(b.path, c.path) {
      PathLessTransitive(a.path, b.path, c.path);
    }
  }

  /** On files with different paths exactly one of the two comes first. */
  lemma PrecedesTotal(a: ListingEntry, b: ListingEntry)
    ensures a.path != b.path ==> Precedes(a, b) || Precedes(b, a)
    ensures !(Precedes(a, b) && Precedes(b, a))
  {
    hide Precedes, PathLess;
    PrecedesIsSizeThenPath(a, b);
    PrecedesIsSizeThenPath(b, a);
    PathLessTotal(a.path, b.path);
  }

  // ---- Insertion sort -----------------------------------------------------------------

  predicate DistinctPaths(s: seq<ListingEntry>) {
    forall i, j | 0 <= i < j < |s| :: s[i].path != s[j].path
  }

  predicate Ordered(s: seq<ListingEntry>) {
    forall i, j | 0 <= i < j < |s| :: Precedes(s[i], s[j])
  }

  /** Walks down from the end until the moving entry no longer precedes. */
  function InsertFromEnd(s: seq<ListingEntry>, moving: ListingEntry): seq<ListingEntry> {
    if s == [] || !Precedes(moving, s[|s| - 1]) then s + [moving]
    else InsertFromEnd(s[..|s| - 1], moving) + [s[|s| - 1]]
  }

  function Sort(s: seq<ListingEntry>): seq<ListingEntry> {
    if s == [] then [] else InsertFromEnd(Sort(s[..|s| - 1]), s[|s| - 1])
  }

  lemma {:induction false} InsertIsPermutation(s: seq<ListingEntry>, moving: ListingEntry)
    ensures multiset(InsertFromEnd(s, moving)) == multiset(s) + multiset{moving}
  {
    hide Precedes;
    if s != [] && Precedes(moving, s[|s| - 1]) {
      InsertIsPermutation(s[..|s| - 1], moving);
      assert s == s[..|s| - 1] + [s[|s| - 1]];
    }
  }

  lemma {:induction false} SortIsPermutation(s: seq<ListingEntry>)
    ensures multiset(Sort(s)) == multiset(s)
  {
    hide InsertFromEnd;
    if s != [] {
      SortIsPermutation(s[..|s| - 1]);
      InsertIsPermutation(Sort(s[..|s| - 1]), s[|s| - 1]);
      assert s == s[..|s| - 1] + [s[|s| - 1]];
    }
  }

  lemma {:induction false} InsertOrders(s: seq<ListingEntry>, moving: ListingEntry)
    requires Ordered(s) && forall i | 0 <= i < |s| :: s[i].path != moving.path
    ensures Ordered(InsertFromEnd(s, moving))
  {
    hide Precedes;
    if s != [] {
      var front, last := s[..|s| - 1], s[|s| - 1];
      if Precedes(moving, last) {
        InsertOrders(front, moving);
        InsertIsPermutation(front, moving);
        var inserted := InsertFromEnd(front, moving);
        forall i | 0 <= i < |inserted|
          ensures Precedes(inserted[i], last)
        {
          assert inserted[i] in multiset(inserted);
          assert inserted[i] in multiset(front) || inserted[i] == moving;
        }
      } else {
        PrecedesTotal(moving, last);
        forall i | 0 <= i < |s|
          ensures Precedes(s[i], moving)
        {
          if i < |s| - 1 {
            PrecedesTransitive(s[i], last, moving);
          }
        }
      }
    }
  }

  lemma {:induction false} SortOrders(s: seq<ListingEntry>)
    requires DistinctPaths(s)
    ensures Ordered(Sort(s))
  {
    hide InsertFromEnd, Precedes, Ordered;
    if s == [] {
      NothingOrdered(Sort(s));
    } else {
      var front, last := s[..|s| - 1], s[|s| - 1];
      SortOrders(front);
      SortIsPermutation(front);
      forall i | 0 <= i < |Sort(front)|
        ensures Sort(front)[i].path != last.path
      {
        assert Sort(front)[i] in multiset(front);
        var k :| 0 <= k < |front| && front[k] == Sort(front)[i];
        assert s[k].path != s[|s| - 1].path;
      }
      InsertOrders(Sort(front), last);
    }
  }

  lemma NothingOrdered(s: seq<ListingEntry>)
    requires s == []
    ensures Ordered(s)
  {
  }

  /** An order with unique arrangement: equal contents in order are equal sequences. */
  lemma {:induction false} OrderedUnique(s: seq<ListingEntry>, t: seq<ListingEntry>)
    requires Ordered(s) && Ordered(t) && multiset(s) == multiset(t)
    ensures s == t
  {
    hide Precedes, Ordered;
    assert |s| == |multiset(s)| == |multiset(t)| == |t|;
    if s != [] {
      SameFirst(s, t);
      OrderedTail(s);
      OrderedTail(t);
      SameTail(s, t);
      OrderedUnique(s[1..], t[1..]);
    }
  }

  lemma SameTail(s: seq<ListingEntry>, t: seq<ListingEntry>)
    requires s != [] && t != [] && s[0] == t[0] && multiset(s) == multiset(t)
    ensures multiset(s[1..]) == multiset(t[1..]) && s == [s[0]] + s[1..] && t == [t[0]] + t[1..]
  {
    assert s == [s[0]] + s[1..] && t == [t[0]] + t[1..];
    assert multiset(s[1..]) == multiset(s) - multiset{s[0]};
    assert multiset(t[1..]) == multiset(t) - multiset{t[0]};
  }

  lemma OrderedTail(s: seq<ListingEntry>)
    requires Ordered(s) && s != []
    ensures Ordered(s[1..])
  {
  }

  lemma SameFirst(s: seq<ListingEntry>, t: seq<ListingEntry>)
    requires Ordered(s) && Ordered(t) && multiset(s) == multiset(t) && s != [] && t != []
    ensures s[0] == t[0]
  {
    hide Precedes;
    assert s[0] in multiset(t) && t[0] in multiset(s);
    var j :| 0 <= j < |t| && t[j] == s[0];
    var i :| 0 <= i < |s| && s[i] == t[0];
    if j > 0 && i > 0 {
      assert Precedes(t[0], t[j]) && Precedes(s[0], s[i]);
      PrecedesTotal(s[0], t[0]);
      assert false;
    }
  }

  // ---- Selection ----------------------------------------------------------------------

  /** The candidates of one collection, in the order they are considered. */
  function Candidates(entries: seq<ListingEntry>, c: Collection): seq<ListingEntry> {
    Sort(Filter(entries, c))
  }

  lemma {:induction false} FilterMultiset(entries: seq<ListingEntry>, c: Collection, e: ListingEntry)
    ensures multiset(Filter(entries, c))[e] == if SafeEntry(e, c) then multiset(entries)[e] else 0
  {
    hide SafeEntry;
    if entries != [] {
      FilterMultiset(entries[..|entries| - 1], c, e);
      assert entries == entries[..|entries| - 1] + [entries[|entries| - 1]];
    }
  }

  lemma {:induction false} FilterKeepsDistinct(entries: seq<ListingEntry>, c: Collection)
    requires DistinctPaths(entries)
    ensures DistinctPaths(Filter(entries, c))
  {
    hide SafeEntry;
    if entries != [] {
      var front, last := entries[..|entries| - 1], entries[|entries| - 1];
      FilterKeepsDistinct(front, c);
      forall i | 0 <= i < |Filter(front, c)|
        ensures Filter(front, c)[i].path != last.path
      {
        var e := Filter(front, c)[i];
        FilterMultiset(front, c, e);
        assert e in multiset(Filter(front, c));
        assert e in multiset(front);
        var k :| 0 <= k < |front| && front[k] == e;
        assert entries[k].path != entries[|entries| - 1].path;
      }
    }
  }

  /** Listings that are permutations of each other are downloaded in the same order. */
  lemma SelectionIgnoresListingOrder(one: seq<ListingEntry>, other: seq<ListingEntry>, c: Collection)
    requires multiset(one) == multiset(other) && DistinctPaths(one) && DistinctPaths(other)
    ensures Candidates(one, c) == Candidates(other, c)
  {
    hide SafeEntry, Sort, Filter, Ordered;
    var f, g := Filter(one, c), Filter(other, c);
    forall e
      ensures multiset(f)[e] == multiset(g)[e]
    {
      FilterMultiset(one, c, e);
      FilterMultiset(other, c, e);
    }
    assert multiset(f) == multiset(g);
    FilterKeepsDistinct(one, c);
    FilterKeepsDistinct(other, c);
    SortOrders(f);
    SortOrders(g);
    SortIsPermutation(f);
    SortIsPermutation(g);
    OrderedUnique(Sort(f), Sort(g));
  }

  /** The candidates are exactly the safe listed files, smallest first. */
  lemma CandidatesAreSafeFiles(entries: seq<ListingEntry>, c: Collection)
    requires DistinctPaths(entries)
    ensures Ordered(Candidates(entries, c))
    ensures forall e :: e in Candidates(entries, c) <==> e in entries && SafeEntry(e, c)
    ensures DistinctPaths(Candidates(entries, c))
  {
    hide SafeEntry, Sort, Filter, Precedes;
    var f := Filter(entries, c);
    FilterKeepsDistinct(entries, c);
    SortOrders(f);
    SortIsPermutation(f);
    forall e
      ensures e in Candidates(entries, c) <==> e in entries && SafeEntry(e, c)
    {
      FilterMultiset(entries, c, e);
      assert e in Sort(f) <==> e in multiset(Sort(f));
      assert e in entries <==> e in multiset(entries);
    }
    DistinctUnderPermutation(f, Sort(f));
  }

  lemma DistinctUnderPermutation(s: seq<ListingEntry>, t: seq<ListingEntry>)
    requires multiset(s) == multiset(t) && Ordered(t)
    requires DistinctPaths(s)
    ensures DistinctPaths(t)
  {
    hide Precedes;
    forall i, j | 0 <= i < j < |t|
      ensures t[i].path != t[j].path
    {
      PrecedesTotal(t[i], t[j]);
      PrecedesTotal(t[i], t[i]);
      assert t[i] in multiset(s) && t[j] in multiset(s);
      var k :| 0 <= k < |s| && s[k] == t[i];
      var l :| 0 <= l < |s| && s[l] == t[j];
    }
  }

  // ---- The loops ----------------------------------------------------------------------

  lemma InsertSplit(s: seq<ListingEntry>, moving: ListingEntry, position: nat)
    requires position <= |s| && AllPreceded(moving, s[position..])
    ensures InsertFromEnd(s, moving) == InsertFromEnd(s[..position], moving) + s[position..]
    decreases |s|
  {
    hide Precedes;
    if position < |s| {
      var front := s[..|s| - 1];
      assert s[position..][|s| - 1 - position] == s[|s| - 1];
      assert front[position..] == s[position..][..|s| - 1 - position];
      InsertSplit(front, moving, position);
      assert front[..position] == s[..position];
      assert front[position..] + [s[|s| - 1]] == s[position..];
    } else {
      assert s[..position] == s && s[position..] == [];
    }
  }

  /** The in-place sort over the candidate array. */
  method SortCandidates(a: array<ListingEntry>, count: nat)
    requires count <= a.Length
    modifies a
    ensures a[..count] == Sort(old(a[..count]))
    ensures a[count..] == old(a[count..])
  {
    hide Precedes, InsertFromEnd;
    ghost var whole := a[..];
    ghost var s := whole[..count];
    if count == 0 {
      return;
    }
    SortOne(s[..1]);
    var index := 1;
    while index < count
      invariant 1 <= index <= count
      invariant a[..index] == Sort(s[..index])
      invariant forall k | index <= k < a.Length :: a[k] == whole[k]
    {
      assert a[index] == whole[index] == s[index];
      InsertMoving(a, index);
      SortNext(s, index);
      index := index + 1;
    }
    assert s[..count] == s;
    assert a[count..] == whole[count..];
  }

  lemma SortOne(s: seq<ListingEntry>)
    requires |s| == 1
    ensures Sort(s) == s
  {
    assert s[..0] == [];
  }

  lemma SortNext(s: seq<ListingEntry>, index: nat)
    requires index < |s|
    ensures Sort(s[..index + 1]) == InsertFromEnd(Sort(s[..index]), s[index])
  {
    hide InsertFromEnd;
    assert s[..index + 1][..index] == s[..index];
  }

  lemma InsertAtEnd(s: seq<ListingEntry>, moving: ListingEntry)
    requires s != [] ==> !Precedes(moving, s[|s| - 1])
    ensures InsertFromEnd(s, moving) == s + [moving]
  {
  }

  predicate AllPreceded(moving: ListingEntry, s: seq<ListingEntry>) {
    forall k | 0 <= k < |s| :: Precedes(moving, s[k])
  }

  /** One turn of the outer loop: shift larger entries up and drop the moving one in. */
  method InsertMoving(a: array<ListingEntry>, index: nat)
    requires index < a.Length
    modifies a
    ensures a[..index + 1] == InsertFromEnd(old(a[..index]), old(a[index]))
    ensures forall k | index < k < a.Length :: a[k] == old(a[k])
  {
    hide Precedes, InsertFromEnd, AllPreceded;
    ghost var t := a[..index];
    var moving := a[index];
    var position := ShiftUp(a, index, moving);
    a[position] := moving;
    InsertedIs(a[..index + 1], t, moving, position);
  }

  lemma InsertedIs(b: seq<ListingEntry>, t: seq<ListingEntry>, moving: ListingEntry, position: nat)
    requires position <= |t| && |b| == |t| + 1 && b[position] == moving
    requires forall k | 0 <= k < position :: b[k] == t[k]
    requires forall k | position < k <= |t| :: b[k] == t[k - 1]
    requires AllPreceded(moving, t[position..])
    requires position > 0 ==> !Precedes(moving, t[..position][position - 1])
    ensures b == InsertFromEnd(t, moving)
  {
    hide Precedes, InsertFromEnd, AllPreceded;
    InsertSplit(t, moving, position);
    InsertAtEnd(t[..position], moving);
    ShiftedIs(b, t, moving, position);
  }

  /** The entries that the moving one precedes go up by one slot; the slot that becomes free is returned. */
  method ShiftUp(a: array<ListingEntry>, index: nat, moving: ListingEntry) returns (position: nat)
    requires index < a.Length
    modifies a
    ensures position <= index
    ensures forall k | 0 <= k < position :: a[k] == old(a[k])
    ensures forall k | position < k <= index :: a[k] == old(a[k - 1])
    ensures forall k | index < k < a.Length :: a[k] == old(a[k])
    ensures AllPreceded(moving, old(a[..index])[position..])
    ensures position > 0 ==> !Precedes(moving, old(a[..index])[..position][position - 1])
  {
    hide Precedes, AllPreceded;
    ghost var t := a[..index];
    position := index;
    NonePreceded(moving, t[index..]);
    while position > 0 && Precedes(moving, a[position - 1])
      invariant 0 <= position <= index
      invariant forall k | 0 <= k < position :: a[k] == t[k]
      invariant forall k | position < k <= index :: a[k] == t[k - 1]
      invariant AllPreceded(moving, t[position..])
      invariant forall k | index < k < a.Length :: a[k] == old(a[k])
    {
      MorePreceded(moving, t, position);
      a[position] := a[position - 1];
      position := position - 1;
    }
  }

  lemma NonePreceded(moving: ListingEntry, s: seq<ListingEntry>)
    requires s == []
    ensures AllPreceded(moving, s)
  {
  }

  lemma MorePreceded(moving: ListingEntry, t: seq<ListingEntry>, position: nat)
    requires 0 < position <= |t| && Precedes(moving, t[position - 1]) && AllPreceded(moving, t[position..])
    ensures AllPreceded(moving, t[position - 1..])
  {
    hide Precedes;
    assert t[position - 1..] == [t[position - 1]] + t[position..];
  }

  lemma ShiftedIs(b: seq<ListingEntry>, t: seq<ListingEntry>, moving: ListingEntry, position: nat)
    requires position <= |t| && |b| == |t| + 1 && b[position] == moving
    requires forall k | 0 <= k < position :: b[k] == t[k]
    requires forall k | position < k <= |t| :: b[k] == t[k - 1]
    ensures b == t[..position] + [moving] + t[position..]
  {
  }

  /** Filter into a candidate array, then sort it. */
  method SelectCandidates(entries: seq<ListingEntry>, c: Collection) returns (candidates: seq<ListingEntry>)
    ensures candidates == Candidates(entries, c)
  {
    hide SafeEntry, Sort;
    var none := ListingEntry([], 0, 0, false, []);
    var slots := new ListingEntry[|entries|](_ => none);
    var count := 0;
    for index := 0 to |entries|
      invariant 0 <= count <= index
      invariant slots[..count] == Filter(entries[..index], c)
    {
      assert entries[..index + 1][..index] == entries[..index];
      if SafeEntry(entries[index], c) {
        slots[count] := entries[index];
        count := count + 1;
      }
    }
    assert entries[..|entries|] == entries;
    SortCandidates(slots, count);
    return slots[..count];
  }
}
