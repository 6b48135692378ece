/** Notes and map tags, keyed by content digest: a bounded ledger, its map meaning, its text form. */
module SyncAnnotations {
  import opened Bytes
  import opened LedgerText

  const ANNOTATION_CAPACITY: nat := 128
  const NOTE_CAPACITY: nat := 768
  const CARRIAGE_RETURN: byte := 0x0d
  const DASH: byte := 0x2d

  /** The note as a C string: the bytes before its terminator. */
  datatype Annotation = Annotation(sha256: Digest, updated: u64, note: seq<byte>, link: Option<Digest>)

  const NO_ANNOTATION: Annotation := Annotation(NO_DIGEST, 0, [], None)

  type Ledger = seq<Annotation>

  // ---- Invariant -------------------------------------------------------------------

  predicate ValidNote(note: seq<byte>) {
    |note| < NOTE_CAPACITY && 0 !in note && CARRIAGE_RETURN !in note
  }

  /** A kept annotation says something: a note or a map. */
  predicate Meaningful(a: Annotation) {
    ValidNote(a.note) && (a.note != [] || a.link.Some?)
  }

  predicate UniqueDigests(t: Ledger) {
    forall i, j | 0 <= i < j < |t| :: t[i].sha256 != t[j].sha256
  }

  predicate LedgerValid(t: Ledger) {
    |t| <= ANNOTATION_CAPACITY && UniqueDigests(t) && forall i | 0 <= i < |t| :: Meaningful(t[i])
  }

  function IndexOfDigest(t: Ledger, sha256: Digest): (i: nat)
    ensures i <= |t|
    ensures i < |t| ==> t[i].sha256 == sha256
    ensures forall k | 0 <= k < i :: t[k].sha256 != sha256
  {
    if t == [] || t[0].sha256 == sha256 then 0 else 1 + IndexOfDigest(t[1..], sha256)
  }

  lemma IndexOfDigestFirst(t: Ledger, sha256: Digest, i: nat)
    requires i <= |t| && (i < |t| ==> t[i].sha256 == sha256)
    requires forall k | 0 <= k < i :: t[k].sha256 != sha256
    ensures IndexOfDigest(t, sha256) == i
  {
  }

  // ---- Operations on the ledger ------------------------------------------------------

  datatype Outcome = Outcome(status: Status, ledger: Ledger)

  function RemoveAt(t: Ledger, i: nat): Ledger
    requires i < |t|
  {
    t[..i] + t[i + 1..]
  }

  /** An empty note keeps only a map link; any other note replaces the old one. */
  function SetNoteSpec(t: Ledger, sha256: Digest, note: seq<byte>, updated: u64): Outcome {
    var i := IndexOfDigest(t, sha256);
    if !ValidNote(note) then Outcome(InvalidArgument, t)
    else if note == [] then
      Outcome(Ok,
        if i == |t| then t
        else if t[i].link.Some? then t[i := t[i].(note := [], updated := updated)]
        else RemoveAt(t, i))
    else if i < |t| then Outcome(Ok, t[i := Annotation(sha256, updated, note, t[i].link)])
    else if |t| >= ANNOTATION_CAPACITY then Outcome(CapacityExceeded, t)
    else Outcome(Ok, t + [Annotation(sha256, updated, note, None)])
  }

  /** Linking needs room for a new digest; unlinking drops an annotation without a note. */
  function SetMapSpec(t: Ledger, sha256: Digest, link: Option<Digest>, updated: u64): Outcome {
    var i := IndexOfDigest(t, sha256);
    if link == None then
      Outcome(Ok,
        if i == |t| then t
        else if t[i].note == [] then RemoveAt(t, i)
        else t[i := t[i].(link := None, updated := updated)])
    else if i < |t| then Outcome(Ok, t[i := t[i].(link := link, updated := updated)])
    else if |t| >= ANNOTATION_CAPACITY then Outcome(CapacityExceeded, t)
    else Outcome(Ok, t + [Annotation(sha256, updated, [], link)])
  }

  lemma SetNoteKeepsValid(t: Ledger, sha256: Digest, note: seq<byte>, updated: u64)
    requires LedgerValid(t)
    ensures LedgerValid(SetNoteSpec(t, sha256, note, updated).ledger)
  {
  }

  lemma SetMapKeepsValid(t: Ledger, sha256: Digest, link: Option<Digest>, updated: u64)
    requires LedgerValid(t)
    ensures LedgerValid(SetMapSpec(t, sha256, link, updated).ledger)
  {
  }

  // ---- The ledger as a map -------------------------------------------------------------

  function ByDigest(t: Ledger): map<Digest, Annotation> {
    map sha256 | sha256 in DigestSet(t) :: t[IndexOfDigest(t, sha256)]
  }

  function DigestSet(t: Ledger): (digests: set<Digest>)
    ensures forall sha256: Digest :: sha256 in digests <==> IndexOfDigest(t, sha256) < |t|
  {
    var digests: set<Digest> := set i | 0 <= i < |t| :: t[i].sha256;
    assert forall sha256: Digest :: IndexOfDigest(t, sha256) < |t| ==> t[IndexOfDigest(t, sha256)].sha256 in digests;
    digests
  }

  function Lookup(m: map<Digest, Annotation>, sha256: Digest): Option<Annotation> {
    if sha256 in m then Some(m[sha256]) else None
  }

  lemma MapIsLedger(t: Ledger)
    requires UniqueDigests(t)
    ensures forall i | 0 <= i < |t| :: t[i].sha256 in ByDigest(t) && ByDigest(t)[t[i].sha256] == t[i]
  {
    forall i | 0 <= i < |t|
      ensures t[i].sha256 in ByDigest(t) && ByDigest(t)[t[i].sha256] == t[i]
    {
      IndexOfDigestFirst(t, t[i].sha256, i);
    }
  }

  lemma KeyHasRow(t: Ledger, sha256: Digest) returns (k: nat)
    requires sha256 in ByDigest(t)
    ensures k < |t| && t[k].sha256 == sha256
  {
    k := IndexOfDigest(t, sha256);
  }

  lemma LookupIsIndex(t: Ledger, sha256: Digest)
    ensures Lookup(ByDigest(t), sha256) ==
            if IndexOfDigest(t, sha256) < |t| then Some(t[IndexOfDigest(t, sha256)]) else None
  {
  }

  /** A map that agrees with the ledger row by row is its map. */
  lemma MapEquals(t: Ledger, m: map<Digest, Annotation>)
    requires UniqueDigests(t)
    requires forall i | 0 <= i < |t| :: t[i].sha256 in m && m[t[i].sha256] == t[i]
    requires forall sha256 | sha256 in m :: exists i :: 0 <= i < |t| && t[i].sha256 == sha256
    ensures ByDigest(t) == m
  {
    MapIsLedger(t);
    forall sha256: Digest
      ensures sha256 in ByDigest(t) <==> sha256 in m
      ensures sha256 in m ==> ByDigest(t)[sha256] == m[sha256]
    {
      if sha256 in m {
        var i :| 0 <= i < |t| && t[i].sha256 == sha256;
      }
    }
  }

  lemma PutRow(t: Ledger, i: nat, u: Ledger, a: Annotation)
    requires UniqueDigests(t) && UniqueDigests(u) && i <= |t|
    requires u == if i < |t| then t[i := a] else t + [a]
    requires i < |t| ==> t[i].sha256 == a.sha256
    ensures ByDigest(u) == ByDigest(t)[a.sha256 := a]
  {
    hide ByDigest;
    MapIsLedger(t);
    var m := ByDigest(t)[a.sha256 := a];
    forall k | 0 <= k < |u|
      ensures u[k].sha256 in m && m[u[k].sha256] == u[k]
    {
      assert u[i] == a;
      if k != i {
        assert u[k].sha256 != u[i].sha256 && u[k] == t[k];
      }
    }
    forall sha256 | sha256 in m
      ensures exists k :: 0 <= k < |u| && u[k].sha256 == sha256
    {
      if sha256 == a.sha256 {
        assert u[i].sha256 == sha256;
      } else {
        var k := KeyHasRow(t, sha256);
        assert u[k].sha256 == sha256;
      }
    }
    MapEquals(u, m);
  }

  lemma DropRow(t: Ledger, i: nat)
    requires UniqueDigests(t) && i < |t|
    ensures UniqueDigests(RemoveAt(t, i))
    ensures ByDigest(RemoveAt(t, i)) == ByDigest(t) - {t[i].sha256}
  {
    hide ByDigest;
    MapIsLedger(t);
    var u, m := RemoveAt(t, i), ByDigest(t) - {t[i].sha256};
    forall k | 0 <= k < |u|
      ensures u[k].sha256 in m && m[u[k].sha256] == u[k]
    {
      assert u[k] == t[if k < i then k else k + 1];
    }
    forall sha256 | sha256 in m
      ensures exists k :: 0 <= k < |u| && u[k].sha256 == sha256
    {
      var k := KeyHasRow(t, sha256);
      assert u[if k < i then k else k - 1].sha256 == sha256;
    }
    MapEquals(u, m);
  }

  /** The note operation on the map: what is stored, dropped or kept for the digest. */
  lemma SetNoteRefinesMap(t: Ledger, sha256: Digest, note: seq<byte>, updated: u64)
    requires LedgerValid(t) && SetNoteSpec(t, sha256, note, updated).status == Ok
    ensures var m := ByDigest(t);
            var previous := Lookup(m, sha256);
            var linked := if previous.Some? then previous.value.link else None;
            ByDigest(SetNoteSpec(t, sha256, note, updated).ledger) ==
            if note != [] || (previous.Some? && linked.Some?) then m[sha256 := Annotation(sha256, updated, note, linked)]
            else m - {sha256}
  {
    hide ValidNote, DigestSet, ByDigest;
    var u, i := SetNoteSpec(t, sha256, note, updated).ledger, IndexOfDigest(t, sha256);
    SetNoteKeepsValid(t, sha256, note, updated);
    LookupIsIndex(t, sha256);
    if note != [] || (i < |t| && t[i].link.Some?) {
      PutRow(t, i, u, Annotation(sha256, updated, note, if i < |t| then t[i].link else None));
    } else if i < |t| {
      DropRow(t, i);
    } else {
      assert ByDigest(t) - {sha256} == ByDigest(t);
    }
  }

  lemma SetMapRefinesMap(t: Ledger, sha256: Digest, link: Option<Digest>, updated: u64)
    requires LedgerValid(t) && SetMapSpec(t, sha256, link, updated).status == Ok
    ensures var m := ByDigest(t);
            var previous := Lookup(m, sha256);
            var note := if previous.Some? then previous.value.note else [];
            ByDigest(SetMapSpec(t, sha256, link, updated).ledger) ==
            if link.Some? || note != [] then m[sha256 := Annotation(sha256, updated, note, link)]
            else m - {sha256}
  {
    hide ValidNote, DigestSet, ByDigest;
    var u, i := SetMapSpec(t, sha256, link, updated).ledger, IndexOfDigest(t, sha256);
    SetMapKeepsValid(t, sha256, link, updated);
    LookupIsIndex(t, sha256);
    if link.Some? || (i < |t| && t[i].note != []) {
      PutRow(t, i, u, Annotation(sha256, updated, if i < |t| then t[i].note else [], link));
    } else if i < |t| {
      DropRow(t, i);
    } else {
      assert ByDigest(t) - {sha256} == ByDigest(t);
    }
  }

  // ---- Runs ------------------------------------------------------------------------

  datatype Step =
    | SetNote(sha256: Digest, note: seq<byte>, updated: u64)
    | SetMap(sha256: Digest, link: Option<Digest>, updated: u64)

  function Apply(t: Ledger, step: Step): Ledger {
    match step
    case SetNote(sha256, note, updated) => SetNoteSpec(t, sha256, note, updated).ledger
    case SetMap(sha256, link, updated) => SetMapSpec(t, sha256, link, updated).ledger
  }

  function Run(t: Ledger, steps: seq<Step>): Ledger
    decreases |steps|
  {
    if steps == [] then t else Run(Apply(t, steps[0]), steps[1..])
  }

  lemma {:induction false} RunKeepsValid(t: Ledger, steps: seq<Step>)
    requires LedgerValid(t)
    ensures LedgerValid(Run(t, steps))
    decreases |steps|
  {
    hide LedgerValid;
    if steps != [] {
      match steps[0] {
        case SetNote(sha256, note, updated) => SetNoteKeepsValid(t, sha256, note, updated);
        case SetMap(sha256, link, updated) => SetMapKeepsValid(t, sha256, link, updated);
      }
      RunKeepsValid(Apply(t, steps[0]), steps[1..]);
    }
  }

  function Linked(t: Ledger, sha256: Digest): Option<Digest> {
    match Lookup(ByDigest(t), sha256) case Some(a) => a.link case None => None
  }

  function NoteOf(t: Ledger, sha256: Digest): seq<byte> {
    match Lookup(ByDigest(t), sha256) case Some(a) => a.note case None => []
  }

  predicate Accepted(t: Ledger, step: Step) {
    match step
    case SetNote(sha256, note, updated) => SetNoteSpec(t, sha256, note, updated).status == Ok
    case SetMap(sha256, link, updated) => SetMapSpec(t, sha256, link, updated).status == Ok
  }

  /** One step sets the link or the note of its own digest and leaves every other link and note alone. */
  lemma StepChanges(t: Ledger, step: Step, other: Digest)
    requires LedgerValid(t)
    ensures Linked(Apply(t, step), other)
            == if step.SetMap? && step.sha256 == other && Accepted(t, step) then step.link else Linked(t, other)
    ensures NoteOf(Apply(t, step), other)
            == if step.SetNote? && step.sha256 == other && Accepted(t, step) then step.note else NoteOf(t, other)
  {
    hide ByDigest, LedgerValid, ValidNote;
    if Accepted(t, step) {
      match step {
        case SetNote(sha256, note, updated) => SetNoteRefinesMap(t, sha256, note, updated);
        case SetMap(sha256, link, updated) => SetMapRefinesMap(t, sha256, link, updated);
      }
    }
  }

  /** The last accepted linking of a digest in a run, if there is one. */
  function LastLink(t: Ledger, steps: seq<Step>, sha256: Digest): Option<Step>
    decreases |steps|
  {
    if steps == [] then None
    else
      var later := LastLink(Apply(t, steps[0]), steps[1..], sha256);
      if later.Some? then later
      else if steps[0].SetMap? && steps[0].sha256 == sha256 && Accepted(t, steps[0]) then Some(steps[0])
      else None
  }

  function LastNote(t: Ledger, steps: seq<Step>, sha256: Digest): Option<Step>
    decreases |steps|
  {
    if steps == [] then None
    else
      var later := LastNote(Apply(t, steps[0]), steps[1..], sha256);
      if later.Some? then later
      else if steps[0].SetNote? && steps[0].sha256 == sha256 && Accepted(t, steps[0]) then Some(steps[0])
      else None
  }

  /**
   * After any run the link of a digest is the one given last to that very digest, or the first one if none was given;
   * and so is its note. Nothing said about other digests, and no note, moves a link.
   */
  lemma {:induction false} LastGivenStands(t: Ledger, steps: seq<Step>, sha256: Digest)
    requires LedgerValid(t)
    ensures LastLink(t, steps, sha256).Some? ==> LastLink(t, steps, sha256).value.SetMap?
    ensures LastNote(t, steps, sha256).Some? ==> LastNote(t, steps, sha256).value.SetNote?
    ensures Linked(Run(t, steps), sha256)
            == match LastLink(t, steps, sha256) case Some(step) => step.link case None => Linked(t, sha256)
    ensures NoteOf(Run(t, steps), sha256)
            == match LastNote(t, steps, sha256) case Some(step) => step.note case None => NoteOf(t, sha256)
    decreases |steps|
  {
    hide LedgerValid, Linked, NoteOf, Accepted, Apply;
    if steps != [] {
      StepChanges(t, steps[0], sha256);
      StepKeepsValid(t, steps[0]);
      LastGivenStands(Apply(t, steps[0]), steps[1..], sha256);
    }
  }

  lemma StepKeepsValid(t: Ledger, step: Step)
    requires LedgerValid(t)
    ensures LedgerValid(Apply(t, step))
  {
    RunKeepsValid(t, [step]);
    assert Run(t, [step]) == Run(Apply(t, step), []);
  }
}
