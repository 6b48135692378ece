/** The annotation ledger's text form and the ledger object. */
module SyncAnnotationsText {
  import opened Bytes
  import opened LedgerText
  import opened SyncAnnotations

  datatype Reading = Read(ledger: Ledger) | Refused(status: Status)

  /** "REVLINK-ANNOTATIONS", a tab, the version digit, a newline. */
  function Header(digit: byte): seq<byte> {
    [0x52, 0x45, 0x56, 0x4c, 0x49, 0x4e, 0x4b, 0x2d, 0x41, 0x4e, 0x4e, 0x4f, 0x54, 0x41, 0x54, 0x49, 0x4f, 0x4e, 0x53,
     0x09, digit, 0x0a]
  }

  const HEADER_LENGTH: nat := 22
  const DIGIT_ONE: byte := 0x31
  const DIGIT_TWO: byte := 0x32
  const MAX_TABS: nat := 4

  // ---- Printing --------------------------------------------------------------------

  function LinkText(link: Option<Digest>): seq<byte> {
    match link case Some(digest) => Hex(digest) case None => [DASH]
  }

  function AnnotationFields(a: Annotation): seq<seq<byte>> {
    [Hex(a.sha256), Decimal(a.updated), Decimal(|a.note|), Hex(a.note), LinkText(a.link)]
  }

  function AnnotationLine(a: Annotation): seq<byte> {
    Join(AnnotationFields(a)) + [NEWLINE]
  }

  function AnnotationLines(t: Ledger): seq<byte> {
    if t == [] then [] else AnnotationLine(t[0]) + AnnotationLines(t[1..])
  }

  function LedgerTextOf(t: Ledger): seq<byte> {
    Header(DIGIT_TWO) + AnnotationLines(t)
  }

  // ---- Parsing ---------------------------------------------------------------------

  /** The line cut at its first tabs, at most so many of them. */
  function FirstFields(line: seq<byte>, tabs: nat): (fields: seq<seq<byte>>)
    ensures 1 <= |fields| <= tabs + 1
    decreases tabs
  {
    var i := IndexOf(line, TAB);
    if tabs == 0 || i == |line| then [line] else [line[..i]] + FirstFields(line[i + 1..], tabs - 1)
  }

  datatype Row = Row(sha256: Digest, updated: u64, note: seq<byte>, linkText: Option<seq<byte>>)

  /** Everything of a row but its link, which is read only once the note has been stored. */
  function ParseRow(legacy: bool, fields: seq<seq<byte>>): Option<Row> {
    if |fields| != (if legacy then 4 else 5) then None
    else
      var digest := if |fields[0]| == 2 * SHA256_BYTES then Unhex(fields[0]) else None;
      var updated := ParseDecimal(fields[1], 20, U64_LIMIT);
      var length := ParseDecimal(fields[2], 20, U64_LIMIT);
      if digest == None || updated == None || length == None || (legacy && length.value == 0)
         || length.value >= NOTE_CAPACITY || |fields[3]| != 2 * length.value || Unhex(fields[3]) == None
      then None
      else Some(Row(digest.value, updated.value, Unhex(fields[3]).value, if legacy then None else Some(fields[4])))
  }

  /** A row becomes one or two operations on the ledger read so far. */
  function Admit(t: Ledger, row: Row): Outcome {
    var noted := SetNoteSpec(t, row.sha256, row.note, row.updated);
    if noted.status != Ok || row.linkText == None || row.linkText.value == [DASH] then noted
    else
      var digest := if |row.linkText.value| == 2 * SHA256_BYTES then Unhex(row.linkText.value) else None;
      if digest == None then Outcome(InvalidFormat, noted.ledger)
      else SetMapSpec(noted.ledger, row.sha256, Some(digest.value), row.updated)
  }

  function ParseRows(legacy: bool, input: seq<byte>, t: Ledger): Reading
    decreases |input|
  {
    if input == [] then Read(t)
    else
      var length := IndexOf(input, NEWLINE);
      if length == |input| || length == 0 then Refused(InvalidFormat)
      else match ParseRow(legacy, FirstFields(input[..length], MAX_TABS))
           case None => Refused(InvalidFormat)
           case Some(row) =>
             var admitted := Admit(t, row);
             if admitted.status != Ok then Refused(admitted.status)
             else ParseRows(legacy, input[length + 1..], admitted.ledger)
  }

  function ParseLedger(input: seq<byte>): Reading {
    if Header(DIGIT_ONE) <= input then ParseRows(true, input[HEADER_LENGTH..], [])
    else if Header(DIGIT_TWO) <= input then ParseRows(false, input[HEADER_LENGTH..], [])
    else Refused(InvalidFormat)
  }

  // ---- Whatever is accepted is a valid ledger ------------------------------------------

  lemma AdmitKeepsValid(t: Ledger, row: Row)
    requires LedgerValid(t)
    ensures LedgerValid(Admit(t, row).ledger)
  {
    hide LedgerValid, SetNoteSpec, SetMapSpec, Unhex;
    SetNoteKeepsValid(t, row.sha256, row.note, row.updated);
    var noted := SetNoteSpec(t, row.sha256, row.note, row.updated);
    if row.linkText.Some? && |row.linkText.value| == 2 * SHA256_BYTES && Unhex(row.linkText.value).Some? {
      SetMapKeepsValid(noted.ledger, row.sha256, Some(Unhex(row.linkText.value).value), row.updated);
    }
  }

  lemma {:induction false} ReadRowsValid(legacy: bool, input: seq<byte>, t: Ledger)
    requires LedgerValid(t) && ParseRows(legacy, input, t).Read?
    ensures LedgerValid(ParseRows(legacy, input, t).ledger)
    decreases |input|
  {
    hide LedgerValid, ParseRow, Admit, FirstFields;
    if input != [] {
      var length := IndexOf(input, NEWLINE);
      var row := ParseRow(legacy, FirstFields(input[..length], MAX_TABS)).value;
      AdmitKeepsValid(t, row);
      ReadRowsValid(legacy, input[length + 1..], Admit(t, row).ledger);
    }
  }

  lemma ParsedLedgerValid(input: seq<byte>)
    requires ParseLedger(input).Read?
    ensures LedgerValid(ParseLedger(input).ledger)
  {
    ReadRowsValid(Header(DIGIT_ONE) <= input, input[HEADER_LENGTH..], []);
  }

  // ---- Round trip --------------------------------------------------------------------

  lemma HexAvoids(s: seq<byte>)
    ensures TAB !in Hex(s) && NEWLINE !in Hex(s)
  {
    HexIsAlphanumeric(s);
  }

  lemma {:induction false} FirstFieldsOfJoin(fields: seq<seq<byte>>, tabs: nat)
    requires |fields| == tabs + 1 && forall i | 0 <= i < |fields| :: TAB !in fields[i]
    ensures FirstFields(Join(fields), tabs) == fields
    decreases tabs
  {
    var line, first := Join(fields), fields[0];
    if tabs == 0 {
      assert fields == [first];
    } else {
      assert line[..|first|] == first;
      IndexOfIs(line, TAB, |first|);
      assert line[|first| + 1..] == Join(fields[1..]);
      FirstFieldsOfJoin(fields[1..], tabs - 1);
      assert fields == [first] + fields[1..];
    }
  }

  lemma AnnotationFieldsClean(a: Annotation)
    ensures |AnnotationFields(a)| == 5 && AnnotationFields(a)[0] != []
    ensures forall i | 0 <= i < |AnnotationFields(a)| ::
              TAB !in AnnotationFields(a)[i] && NEWLINE !in AnnotationFields(a)[i]
  {
    hide Decimal, Hex;
    DigitsAvoid(a.updated);
    DigitsAvoid(|a.note|);
    HexAvoids(a.sha256);
    HexAvoids(a.note);
    if a.link.Some? {
      HexAvoids(a.link.value);
    }
    var f := AnnotationFields(a);
    assert forall i | 0 <= i < 5 :: TAB !in f[i] && NEWLINE !in f[i];
  }

  lemma RowReadsBack(a: Annotation)
    requires ValidNote(a.note)
    ensures ParseRow(false, AnnotationFields(a)) == Some(Row(a.sha256, a.updated, a.note, Some(LinkText(a.link))))
  {
    hide Decimal, Hex, Unhex, ParseDecimal;
    DecimalRoundTrip(a.updated);
    DecimalRoundTrip(|a.note|);
    UnhexHex(a.sha256);
    UnhexHex(a.note);
  }

  lemma LineReadsBack(a: Annotation, rest: seq<byte>)
    requires ValidNote(a.note)
    ensures var input := AnnotationLine(a) + rest;
            var length := IndexOf(input, NEWLINE);
            && 0 < length < |input|
            && ParseRow(false, FirstFields(input[..length], MAX_TABS))
               == Some(Row(a.sha256, a.updated, a.note, Some(LinkText(a.link))))
            && input[length + 1..] == rest
  {
    hide ValidNote, AnnotationFields, Join, FirstFields, ParseRow;
    var f := AnnotationFields(a);
    AnnotationFieldsClean(a);
    RowReadsBack(a);
    FirstFieldsOfJoin(f, MAX_TABS);
    JoinAvoids(f, NEWLINE);
    JoinNonempty(f);
    var line := Join(f);
    var input := AnnotationLine(a) + rest;
    assert input[..|line|] == line;
    IndexOfIs(input, NEWLINE, |line|);
    assert input[|line| + 1..] == rest;
  }

  lemma LinkReadsBack(link: Option<Digest>)
    ensures link.None? ==> LinkText(link) == [DASH]
    ensures link.Some? ==> |LinkText(link)| == 2 * SHA256_BYTES && Unhex(LinkText(link)) == Some(link.value)
  {
    if link.Some? {
      UnhexHex(link.value);
    }
  }

  /** A printed row re-creates its annotation at the end of the ledger. */
  lemma AdmitNewRow(t: Ledger, a: Annotation)
    requires LedgerValid(t + [a])
    ensures Admit(t, Row(a.sha256, a.updated, a.note, Some(LinkText(a.link)))) == Outcome(Ok, t + [a])
  {
    hide ValidNote, Unhex, LinkText;
    var u := t + [a];
    assert Meaningful(u[|t|]);
    forall k | 0 <= k < |t|
      ensures t[k].sha256 != a.sha256
    {
      assert u[k].sha256 != u[|t|].sha256;
    }
    IndexOfDigestFirst(t, a.sha256, |t|);
    LinkReadsBack(a.link);
    if a.note != [] {
      var noted := t + [Annotation(a.sha256, a.updated, a.note, None)];
      IndexOfDigestFirst(noted, a.sha256, |t|);
      assert noted[|t| := a] == u;
    }
  }

  lemma LedgerPrefix(t: Ledger, k: nat)
    requires LedgerValid(t) && k < |t|
    ensures LedgerValid(t[..k + 1]) && t[..k + 1] == t[..k] + [t[k]] && ValidNote(t[k].note)
  {
  }

  lemma {:induction false} RowsReadBack(t: Ledger, k: nat)
    requires LedgerValid(t) && k <= |t|
    ensures ParseRows(false, AnnotationLines(t[k..]), t[..k]) == Read(t)
    decreases |t| - k
  {
    hide LedgerValid, ParseRow, AnnotationLine, Admit, FirstFields, LinkText, ValidNote;
    if k == |t| {
      assert t[k..] == [] && t[..k] == t;
    } else {
      assert t[k..][0] == t[k] && t[k..][1..] == t[k + 1..];
      LedgerPrefix(t, k);
      LineReadsBack(t[k], AnnotationLines(t[k + 1..]));
      AdmitNewRow(t[..k], t[k]);
      RowsReadBack(t, k + 1);
    }
  }

  /** Printing a ledger and parsing the text gives back the same ledger, notes and links included. */
  lemma LedgerRoundTrip(t: Ledger)
    requires LedgerValid(t)
    ensures ParseLedger(LedgerTextOf(t)) == Read(t)
  {
    hide LedgerValid, ParseRows, AnnotationLines;
    RowsReadBack(t, 0);
    assert t[0..] == t && t[..0] == [];
    var text := LedgerTextOf(t);
    assert text[HEADER_LENGTH..] == AnnotationLines(t);
    assert Header(DIGIT_TWO) <= text;
    assert text[20] == DIGIT_TWO && Header(DIGIT_ONE)[20] == DIGIT_ONE;
  }

  // ---- The ledger object -----------------------------------------------------------------

  class Annotations {
    const entries: array<Annotation>
    var count: nat

    /** Every slot past the count is cleared, so a new entry starts without a stale link. */
    ghost predicate Layout()
      reads this, entries
    {
      && entries.Length == ANNOTATION_CAPACITY
      && count <= ANNOTATION_CAPACITY
      && forall i | count <= i < ANNOTATION_CAPACITY :: entries[i] == NO_ANNOTATION
    }

    ghost function Rows(): Ledger
      requires count <= entries.Length
      reads this, entries
    {
      entries[..count]
    }

    ghost predicate Valid()
      reads this, entries
    {
      Layout() && LedgerValid(Rows())
    }

    constructor ()
      ensures Valid() && Rows() == [] && fresh(entries)
    {
      entries := new Annotation[ANNOTATION_CAPACITY](_ => NO_ANNOTATION);
      count := 0;
    }

    method Locate(sha256: Digest) returns (target: nat)
      requires Layout()
      ensures target == IndexOfDigest(Rows(), sha256)
    {
      target := 0;
      while target < count && entries[target].sha256 != sha256
        invariant target <= count
        invariant forall k | 0 <= k < target :: entries[k].sha256 != sha256
      {
        target := target + 1;
      }
      IndexOfDigestFirst(Rows(), sha256, target);
    }

    method Find(sha256: Digest) returns (found: Option<Annotation>)
      requires Layout()
      ensures found == Lookup(ByDigest(Rows()), sha256)
    {
      hide DigestSet;
      var target := Locate(sha256);
      LookupIsIndex(Rows(), sha256);
      return if target < count then Some(entries[target]) else None;
    }

    /** Closes the gap by moving the tail down and clears the vacated slot. */
    method Delete(target: nat)
      requires Layout() && target < count
      modifies this, entries
      ensures Layout() && Rows() == RemoveAt(old(Rows()), target)
    {
      ghost var rows := Rows();
      count := count - 1;
      var index := target;
      while index < count
        invariant target <= index <= count
        invariant count == |rows| - 1
        invariant forall k | 0 <= k < target :: entries[k] == rows[k]
        invariant forall k | target <= k < index :: entries[k] == rows[k + 1]
        invariant forall k | index <= k <= count :: entries[k] == rows[k]
        invariant forall k | count < k < ANNOTATION_CAPACITY :: entries[k] == NO_ANNOTATION
        modifies entries
      {
        entries[index] := entries[index + 1];
        index := index + 1;
      }
      entries[count] := NO_ANNOTATION;
    }

    method SetNote(sha256: Digest, note: seq<byte>, updated: u64) returns (status: Status)
      requires Layout()
      modifies this, entries
      ensures Layout() && (old(Valid()) ==> Valid())
      ensures Outcome(status, Rows()) == SetNoteSpec(old(Rows()), sha256, note, updated)
    {
      hide ValidNote, Meaningful;
      if !ValidNote(note) {
        return InvalidArgument;
      }
      ghost var rows := Rows();
      if LedgerValid(rows) {
        SetNoteKeepsValid(rows, sha256, note, updated);
      }
      var target := Locate(sha256);
      if |note| == 0 {
        if target < count {
          if entries[target].link.Some? {
            entries[target] := entries[target].(note := [], updated := updated);
            assert Rows() == rows[target := entries[target]];
            return Ok;
          }
          Delete(target);
        }
        return Ok;
      }
      if target == count {
        if count >= ANNOTATION_CAPACITY {
          return CapacityExceeded;
        }
        count := count + 1;
      }
      // For a new entry this reads the slot behind the old count.
      var preserved := entries[target].link;
      entries[target] := Annotation(sha256, updated, note, preserved);
      assert Rows() == if target < |rows| then rows[target := entries[target]] else rows + [entries[target]];
      return Ok;
    }

    method SetMap(sha256: Digest, link: Option<Digest>, updated: u64) returns (status: Status)
      requires Layout()
      modifies this, entries
      ensures Layout() && (old(Valid()) ==> Valid())
      ensures Outcome(status, Rows()) == SetMapSpec(old(Rows()), sha256, link, updated)
    {
      hide ValidNote, Meaningful;
      ghost var rows := Rows();
      if LedgerValid(rows) {
        SetMapKeepsValid(rows, sha256, link, updated);
      }
      var target := Locate(sha256);
      if link == None {
        if target < count {
          entries[target] := entries[target].(link := None, updated := updated);
          ghost var unlinked := Rows();
          assert unlinked == rows[target := entries[target]];
          if entries[target].note == [] {
            Delete(target);
            assert RemoveAt(unlinked, target) == RemoveAt(rows, target);
          }
        }
        return Ok;
      }
      if target == count {
        if count >= ANNOTATION_CAPACITY {
          return CapacityExceeded;
        }
        entries[target] := Annotation(sha256, 0, [], None);
        count := count + 1;
      }
      entries[target] := entries[target].(link := link, updated := updated);
      assert Rows() == if target < |rows| then rows[target := entries[target]] else rows + [entries[target]];
      return Ok;
    }

    /** Prints the ledger; on success the buffer holds exactly its text. */
    method Serialize(output: array<byte>) returns (status: Status, length: nat)
      requires Layout()
      modifies output
      ensures status == Ok <==> AllMeaningful(Rows()) && |LedgerTextOf(Rows())| <= output.Length
      ensures status == Ok ==> length == |LedgerTextOf(Rows())| && output[..length] == LedgerTextOf(Rows())
      ensures AllMeaningful(Rows()) && status != Ok ==>
                status == BufferTooSmall && output.Length < length <= |LedgerTextOf(Rows())|
      ensures status == InvalidArgument ==> !AllMeaningful(Rows())
    {
      hide AnnotationLine, AnnotationLines, Header, LedgerTextOf, AnnotationPieces, Meaningful, AllMeaningful;
      TextParts(Rows());
      var ok, used := Append(output, 0, Header(DIGIT_TWO));
      if !ok {
        return BufferTooSmall, used;
      }
      for index := 0 to count
        invariant AllMeaningful(Rows()[..index]) && 0 <= used <= output.Length
        invariant output[..used] == Header(DIGIT_TWO) + AnnotationLines(Rows()[..index])
      {
        var a := entries[index];
        if !Meaningful(a) {
          BadRow(Rows(), index);
          return InvalidArgument, 0;
        }
        NextLine(Rows(), index);
        AnnotationPiecesAreLine(a);
        var total;
        ok, total := AppendAll(output, used, AnnotationPieces(a));
        if !ok {
          return BufferTooSmall, total;
        }
        used := total;
      }
      assert Rows()[..count] == Rows();
      return Ok, used;
    }

    /** Transactional, with memory for a second copy: a refused text leaves the ledger untouched. */
    method Parse(input: seq<byte>, memory: bool) returns (status: Status)
      requires Layout()
      modifies this, entries
      ensures Layout() && (old(Valid()) ==> Valid())
      ensures status != AllocationFailed || memory ==>
                status == match ParseLedger(input) case Read(_) => Ok case Refused(s) => s
      ensures status == Ok ==> Valid() && ParseLedger(input) == Read(Rows())
      ensures status != Ok ==> Rows() == old(Rows())
    {
      hide LedgerValid, ParseRows;
      var legacy := Header(DIGIT_ONE) <= input;
      if !legacy && !(Header(DIGIT_TWO) <= input) {
        return InvalidFormat;
      }
      if !memory {
        return AllocationFailed;
      }
      var scratch := new Annotations();
      status := scratch.LoadRows(legacy, input);
      if status != Ok {
        return;
      }
      forall i | 0 <= i < ANNOTATION_CAPACITY {
        entries[i] := scratch.entries[i];
      }
      count := scratch.count;
      assert Rows() == scratch.Rows();
    }

    /** The line loop, filling an empty scratch ledger. */
    method LoadRows(legacy: bool, input: seq<byte>) returns (status: Status)
      requires Valid() && Rows() == [] && |input| >= HEADER_LENGTH
      modifies this, entries
      ensures Valid()
      ensures ParseRows(legacy, input[HEADER_LENGTH..], []) == if status == Ok then Read(Rows()) else Refused(status)
    {
      hide LedgerValid, ParseRow, ParseRows, Admit, FirstFields;
      var offset := HEADER_LENGTH;
      while offset < |input|
        invariant HEADER_LENGTH <= offset <= |input|
        invariant Valid()
        invariant ParseRows(legacy, input[HEADER_LENGTH..], []) == ParseRows(legacy, input[offset..], Rows())
      {
        var length := LineLength(input, offset);
        ghost var rest := input[offset..];
        ParseRowsStep(legacy, rest, Rows());
        if length == |input| - offset || length == 0 {
          return InvalidFormat;
        }
        assert rest[..length] == input[offset..offset + length] && rest[length + 1..] == input[offset + length + 1..];
        var row := ReadRow(legacy, input[offset..offset + length]);
        if row == None {
          return InvalidFormat;
        }
        status := AdmitRow(row.value);
        if status != Ok {
          return;
        }
        offset := offset + length + 1;
      }
      ParseRowsEnd(legacy, Rows());
      assert input[offset..] == [];
      return Ok;
    }

    method AdmitRow(row: Row) returns (status: Status)
      requires Valid()
      modifies this, entries
      ensures Valid()
      ensures Outcome(status, Rows()) == Admit(old(Rows()), row)
    {
      hide LedgerValid, SetNoteSpec, SetMapSpec, Unhex;
      status := SetNote(row.sha256, row.note, row.updated);
      if status == Ok && row.linkText.Some? && row.linkText.value != [DASH] {
        var digest := ReadHex(row.linkText.value, SHA256_BYTES);
        if digest == None {
          return InvalidFormat;
        }
        status := SetMap(row.sha256, Some(digest.value), row.updated);
      }
    }
  }

  predicate AllMeaningful(t: Ledger) {
    forall i | 0 <= i < |t| :: Meaningful(t[i])
  }

  lemma TextParts(t: Ledger)
    ensures LedgerTextOf(t) == Header(DIGIT_TWO) + AnnotationLines(t)
    ensures Header(DIGIT_TWO) + AnnotationLines(t[..0]) == Header(DIGIT_TWO)
    ensures AllMeaningful(t[..0])
  {
    assert t[..0] == [];
  }

  lemma BadRow(t: Ledger, k: nat)
    requires k < |t| && !Meaningful(t[k])
    ensures !AllMeaningful(t)
  {
  }

  lemma {:induction false} LinesAppend(t: Ledger, u: Ledger)
    ensures AnnotationLines(t + u) == AnnotationLines(t) + AnnotationLines(u)
    decreases |t|
  {
    hide AnnotationLine;
    if t == [] {
      assert t + u == u;
    } else {
      LinesAppend(t[1..], u);
      assert (t + u)[1..] == t[1..] + u;
    }
  }

  lemma NextLine(t: Ledger, index: nat)
    requires index < |t|
    ensures AnnotationLines(t[..index + 1]) == AnnotationLines(t[..index]) + AnnotationLine(t[index])
    ensures |AnnotationLines(t[..index + 1])| <= |AnnotationLines(t)|
    ensures AllMeaningful(t[..index]) && Meaningful(t[index]) ==> AllMeaningful(t[..index + 1])
  {
    hide AnnotationLine, Meaningful;
    var one := [t[index]];
    assert t[..index + 1] == t[..index] + one;
    assert t == t[..index + 1] + t[index + 1..];
    LinesAppend(t[..index], one);
    LinesAppend(t[..index + 1], t[index + 1..]);
    assert one[1..] == [] && AnnotationLines(one) == AnnotationLine(t[index]) + AnnotationLines([]);
  }

  /** What is appended for an annotation, piece by piece; the note goes out byte by byte. */
  function AnnotationPieces(a: Annotation): seq<seq<byte>> {
    [Hex(a.sha256), [TAB] + Decimal(a.updated) + [TAB] + Decimal(|a.note|) + [TAB]]
    + HexPairs(a.note)
    + [[TAB], LinkText(a.link), [NEWLINE]]
  }

  function HexPairs(s: seq<byte>): seq<seq<byte>> {
    if s == [] then [] else [[HexDigit(s[0] / 16), HexDigit(s[0] % 16)]] + HexPairs(s[1..])
  }

  lemma {:induction false} HexPairsFlatten(s: seq<byte>)
    ensures Flatten(HexPairs(s)) == Hex(s)
  {
    if s != [] {
      HexPairsFlatten(s[1..]);
      assert HexPairs(s)[1..] == HexPairs(s[1..]);
    }
  }

  lemma {:induction false} FlattenConcat(a: seq<seq<byte>>, b: seq<seq<byte>>)
    ensures Flatten(a + b) == Flatten(a) + Flatten(b)
  {
    FlattenSplit(a + b, |a|);
    assert (a + b)[..|a|] == a && (a + b)[|a|..] == b;
  }

  lemma AnnotationPiecesAreLine(a: Annotation)
    ensures Flatten(AnnotationPieces(a)) == AnnotationLine(a)
  {
    hide Decimal, Hex, LinkText, Join, Flatten, HexPairs;
    var front: seq<seq<byte>> := [Hex(a.sha256), [TAB] + Decimal(a.updated) + [TAB] + Decimal(|a.note|) + [TAB]];
    var back: seq<seq<byte>> := [[TAB], LinkText(a.link), [NEWLINE]];
    FlattenConcat(front + HexPairs(a.note), back);
    FlattenConcat(front, HexPairs(a.note));
    HexPairsFlatten(a.note);
    FlattenTwo(front);
    FlattenThree(back);
    JoinFive(AnnotationFields(a));
  }

  lemma FlattenTwo(p: seq<seq<byte>>)
    requires |p| == 2
    ensures Flatten(p) == p[0] + p[1]
  {
    FlattenMore(p);
    FlattenMore(p[1..]);
    assert p[2..] == [];
  }

  lemma FlattenThree(p: seq<seq<byte>>)
    requires |p| == 3
    ensures Flatten(p) == p[0] + p[1] + p[2]
  {
    FlattenMore(p);
    FlattenTwo(p[1..]);
  }

  lemma JoinFive(f: seq<seq<byte>>)
    requires |f| == 5
    ensures Join(f) == f[0] + [TAB] + (f[1] + [TAB] + (f[2] + [TAB] + (f[3] + [TAB] + f[4])))
  {
    JoinMore(f);
    JoinMore(f[1..]);
    JoinMore(f[2..]);
    JoinMore(f[3..]);
    assert f[4..] == [f[4]];
  }

  lemma ParseRowsEnd(legacy: bool, t: Ledger)
    ensures ParseRows(legacy, [], t) == Read(t)
  {
  }

  /** One turn of the line loop. */
  lemma ParseRowsStep(legacy: bool, input: seq<byte>, t: Ledger)
    requires input != []
    ensures var length := IndexOf(input, NEWLINE);
            ParseRows(legacy, input, t) ==
            if length == |input| || length == 0 then Refused(InvalidFormat)
            else if ParseRow(legacy, FirstFields(input[..length], MAX_TABS)) == None then Refused(InvalidFormat)
            else
              var admitted := Admit(t, ParseRow(legacy, FirstFields(input[..length], MAX_TABS)).value);
              if admitted.status != Ok then Refused(admitted.status)
              else ParseRows(legacy, input[length + 1..], admitted.ledger)
  {
    hide ParseRow, Admit, FirstFields;
  }

  /** The tab scan, remembering at most the first four. */
  method FindTabs(line: seq<byte>) returns (fields: seq<seq<byte>>)
    ensures fields == FirstFields(line, MAX_TABS)
  {
    hide FirstFields;
    fields := [];
    var start, index := 0, 0;
    assert line[0..] == line;
    while index < |line|
      invariant 0 <= start <= index <= |line| && |fields| <= MAX_TABS
      invariant FirstFields(line, MAX_TABS) == fields + FirstFields(line[start..], MAX_TABS - |fields|)
      invariant |fields| < MAX_TABS ==> TAB !in line[start..index]
    {
      if line[index] == TAB && |fields| < MAX_TABS {
        FirstFieldsFrom(line, start, index, MAX_TABS - |fields|);
        assert fields + ([line[start..index]] + FirstFields(line[index + 1..], MAX_TABS - |fields| - 1))
            == (fields + [line[start..index]]) + FirstFields(line[index + 1..], MAX_TABS - |fields| - 1);
        fields := fields + [line[start..index]];
        start := index + 1;
      }
      index := index + 1;
    }
    FirstFieldsFrom(line, start, index, MAX_TABS - |fields|);
    fields := fields + [line[start..]];
  }

  lemma FirstFieldsFrom(line: seq<byte>, start: nat, index: nat, tabs: nat)
    requires start <= index <= |line| && (tabs > 0 ==> TAB !in line[start..index])
    requires index < |line| ==> line[index] == TAB
    ensures FirstFields(line[start..], tabs) ==
            if index == |line| || tabs == 0 then [line[start..]]
            else [line[start..index]] + FirstFields(line[index + 1..], tabs - 1)
  {
    if tabs > 0 {
      var rest, k := line[start..], index - start;
      assert rest[..k] == line[start..index];
      IndexOfIs(rest, TAB, k);
      assert index < |line| ==> rest[k + 1..] == line[index + 1..];
    }
  }

  /** One line: cut at the tabs, then check and convert each column. */
  method ReadRow(legacy: bool, line: seq<byte>) returns (result: Option<Row>)
    ensures result == ParseRow(legacy, FirstFields(line, MAX_TABS))
  {
    hide FirstFields, ParseDecimal, Unhex;
    var fields := FindTabs(line);
    if |fields| != (if legacy then 4 else 5) {
      return None;
    }
    var digest := ReadHex(fields[0], SHA256_BYTES);
    var updated := ReadDecimal(fields[1], 20, U64_LIMIT);
    var length := ReadDecimal(fields[2], 20, U64_LIMIT);
    if digest == None || updated == None || length == None || (legacy && length.value == 0)
       || length.value >= NOTE_CAPACITY || |fields[3]| != 2 * length.value {
      return None;
    }
    DecimalInRange(fields[1], 20, U64_LIMIT);
    var note := ReadHex(fields[3], length.value);
    if note == None {
      return None;
    }
    return Some(Row(digest.value, updated.value, note.value, if legacy then None else Some(fields[4])));
  }
}
