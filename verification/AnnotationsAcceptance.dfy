/** Which texts the annotation parser accepts, and what it reads in them, said of what is written. */
module AnnotationsAcceptance {
  import opened Bytes
  import opened LedgerText
  import opened SyncAnnotations
  import opened SyncAnnotationsText

  // ---- One line ----------------------------------------------------------------------

  /** Digest, time, length of the note, note; the second version adds a field for the map. */
  predicate Writes(legacy: bool, f: seq<seq<byte>>, row: Row) {
    && |f| == (if legacy then 4 else 5)
    && Hexadecimal(f[0], row.sha256) && Numeral(f[1], row.updated, 20)
    && Numeral(f[2], |row.note|, 20) && |row.note| <= 767 && Hexadecimal(f[3], row.note)
    && (if legacy then row.note != [] && row.linkText == None else row.linkText == Some(f[4]))
  }

  /** The map field is a dash, or the digest of the map. */
  predicate WritesLink(linkText: Option<seq<byte>>, link: Option<Digest>) {
    if linkText == None || linkText.value == Ascii("-") then link == None
    else link.Some? && Hexadecimal(linkText.value, link.value)
  }

  lemma RowIff(legacy: bool, f: seq<seq<byte>>, row: Row)
    ensures ParseRow(legacy, f) == Some(row) <==> Writes(legacy, f, row)
  {
    hide Numeral, ParseDecimal, Unhex, Hexadecimal;
    if |f| == (if legacy then 4 else 5) {
      HexadecimalIff(f[0], row.sha256);
      HexadecimalLength(f[0], row.sha256);
      NumeralIff(f[1], 20, U64_LIMIT, row.updated);
      NumeralIff(f[2], 20, U64_LIMIT, |row.note|);
      HexadecimalIff(f[3], row.note);
      HexadecimalLength(f[3], row.note);
    }
  }

  // ---- Lines -------------------------------------------------------------------------

  /** The fields of a line, what they say, and the map they name. */
  datatype Line = Line(fields: seq<seq<byte>>, row: Row, link: Option<Digest>)

  /** Fields that write the row and hold no newline, nor a tab; what stands in the map field is looked at later. */
  predicate Readable(legacy: bool, l: Line) {
    && Writes(legacy, l.fields, l.row)
    && (forall k | 0 <= k < |l.fields| :: NEWLINE !in l.fields[k])
    && (forall k | 0 <= k < 4 :: TAB !in l.fields[k])
  }

  predicate Fits(legacy: bool, l: Line) {
    Readable(legacy, l) && ValidNote(l.row.note) && WritesLink(l.row.linkText, l.link)
  }

  predicate AllFit(legacy: bool, lines: seq<Line>) {
    forall i | 0 <= i < |lines| :: Fits(legacy, lines[i])
  }

  function LineText(l: Line): seq<byte> {
    (if l.fields == [] then [] else Join(l.fields)) + [NEWLINE]
  }

  function Printed(lines: seq<Line>): seq<byte> {
    if lines == [] then [] else LineText(lines[0]) + Printed(lines[1..])
  }

  /** All but the last piece are free of tabs, and the last one too when tabs are left. */
  predicate CutAt(fields: seq<seq<byte>>, tabs: nat) {
    && 0 < |fields| <= tabs + 1
    && (forall k | 0 <= k < |fields| - 1 :: TAB !in fields[k])
    && (|fields| <= tabs ==> TAB !in fields[|fields| - 1])
  }

  lemma CutOne(first: seq<byte>, rest: seq<byte>, tabs: nat)
    requires TAB !in first
    ensures tabs > 0 ==> FirstFields(first, tabs) == [first]
    ensures tabs > 0 ==> FirstFields(first + [TAB] + rest, tabs) == [first] + FirstFields(rest, tabs - 1)
  {
    IndexOfIs(first, TAB, |first|);
    var line := first + [TAB] + rest;
    assert line[..|first|] == first && line[|first| + 1..] == rest;
    IndexOfIs(line, TAB, |first|);
  }

  lemma CutTail(fields: seq<seq<byte>>, tabs: nat)
    requires CutAt(fields, tabs) && |fields| > 1
    ensures TAB !in fields[0] && CutAt(fields[1..], tabs - 1)
  {
    assert fields[1..][|fields| - 2] == fields[|fields| - 1];
  }

  lemma {:induction false} CutOfJoin(fields: seq<seq<byte>>, tabs: nat)
    requires CutAt(fields, tabs)
    ensures FirstFields(Join(fields), tabs) == fields
    decreases tabs
  {
    var first := fields[0];
    if |fields| == 1 {
      assert fields == [first];
      if tabs > 0 {
        CutOne(first, [], tabs);
      }
    } else {
      CutTail(fields, tabs);
      hide FirstFields, CutAt, Join;
      CutOfJoin(fields[1..], tabs - 1);
      JoinMore(fields);
      CutOne(first, Join(fields[1..]), tabs);
      assert fields == [first] + fields[1..];
    }
  }

  lemma CutOnce(line: seq<byte>, tabs: nat)
    ensures var i := IndexOf(line, TAB);
            FirstFields(line, tabs) ==
            if tabs == 0 || i == |line| then [line] else [line[..i]] + FirstFields(line[i + 1..], tabs - 1)
  {
  }

  lemma CutMore(first: seq<byte>, rest: seq<seq<byte>>, tabs: nat)
    requires TAB !in first && CutAt(rest, tabs)
    ensures CutAt([first] + rest, tabs + 1)
    ensures Join([first] + rest) == first + [TAB] + Join(rest)
  {
    assert ([first] + rest)[1..] == rest;
    assert ([first] + rest)[|rest|] == rest[|rest| - 1];
    assert forall k | 0 < k < |rest| :: ([first] + rest)[k] == rest[k - 1];
  }

  lemma {:induction false} JoinOfCut(line: seq<byte>, tabs: nat)
    ensures Join(FirstFields(line, tabs)) == line && CutAt(FirstFields(line, tabs), tabs)
    decreases tabs
  {
    hide FirstFields;
    CutOnce(line, tabs);
    var i := IndexOf(line, TAB);
    if tabs > 0 && i < |line| {
      hide Join, CutAt;
      JoinOfCut(line[i + 1..], tabs - 1);
      CutMore(line[..i], FirstFields(line[i + 1..], tabs - 1), tabs - 1);
      assert line == line[..i] + [TAB] + line[i + 1..];
    } else if i == |line| {
      assert line[..i] == line;
    }
  }

  lemma {:induction false} CutAvoids(line: seq<byte>, tabs: nat, b: byte)
    requires b !in line
    ensures forall k | 0 <= k < |FirstFields(line, tabs)| :: b !in FirstFields(line, tabs)[k]
    decreases tabs
  {
    hide FirstFields;
    CutOnce(line, tabs);
    var i := IndexOf(line, TAB);
    if tabs > 0 && i < |line| {
      CutAvoids(line[i + 1..], tabs - 1, b);
    }
  }

  lemma LineReads(legacy: bool, l: Line, rest: seq<byte>)
    requires Readable(legacy, l)
    ensures var input := LineText(l) + rest;
            var length := IndexOf(input, NEWLINE);
            && 0 < length < |input| && input[length + 1..] == rest
            && ParseRow(legacy, FirstFields(input[..length], MAX_TABS)) == Some(l.row)
  {
    hide Join, FirstFields, ParseRow, IndexOf, Numeral, Hexadecimal;
    RowIff(legacy, l.fields, l.row);
    HexadecimalLength(l.fields[0], l.row.sha256);
    var line := Join(l.fields);
    CutOfJoin(l.fields, MAX_TABS);
    JoinAvoids(l.fields, NEWLINE);
    JoinNonempty(l.fields);
    var input := LineText(l) + rest;
    assert input[..|line|] == line && input[|line| + 1..] == rest;
    IndexOfIs(input, NEWLINE, |line|);
  }

  lemma ReadLineFits(legacy: bool, line: seq<byte>, row: Row) returns (l: Line)
    requires NEWLINE !in line && ParseRow(legacy, FirstFields(line, MAX_TABS)) == Some(row)
    ensures Readable(legacy, l) && l.row == row && LineText(l) == line + [NEWLINE]
    ensures WritesLink(row.linkText, l.link) || forall link :: !WritesLink(row.linkText, link)
  {
    hide Join, FirstFields, ParseRow, WritesLink;
    var f := FirstFields(line, MAX_TABS);
    JoinOfCut(line, MAX_TABS);
    CutAvoids(line, MAX_TABS, NEWLINE);
    RowIff(legacy, f, row);
    if link :| WritesLink(row.linkText, link) {
      l := Line(f, row, link);
    } else {
      l := Line(f, row, None);
    }
  }

  // ---- Ledgers -----------------------------------------------------------------------

  predicate Annotated(t: Ledger, sha256: Digest) {
    exists i :: 0 <= i < |t| && t[i].sha256 == sha256
  }

  /** A digest already annotated, or nothing to keep, needs none of the 128 places. */
  predicate Room(t: Ledger, l: Line) {
    |t| < 128 || Annotated(t, l.row.sha256) || (l.row.note == [] && l.link == None)
  }

  predicate Admissible(t: Ledger, lines: seq<Line>)
    decreases |lines|
  {
    lines == [] || (Room(t, lines[0]) && Admissible(Admit(t, lines[0].row).ledger, lines[1..]))
  }

  function After(t: Ledger, lines: seq<Line>): Ledger
    decreases |lines|
  {
    if lines == [] then t else After(Admit(t, lines[0].row).ledger, lines[1..])
  }

  lemma LinkIff(linkText: seq<byte>, digest: Digest)
    ensures WritesLink(Some(linkText), Some(digest)) <==>
              linkText != [DASH] && |linkText| == 2 * SHA256_BYTES && Unhex(linkText) == Some(digest)
    ensures WritesLink(Some(linkText), None) <==> linkText == [DASH]
  {
    hide Hexadecimal, Unhex;
    HexadecimalIff(linkText, digest);
    HexadecimalLength(linkText, digest);
    assert Ascii("-") == [DASH];
  }

  lemma AnnotatedIff(t: Ledger, sha256: Digest)
    ensures Annotated(t, sha256) <==> IndexOfDigest(t, sha256) < |t|
  {
  }

  /** A note finds its place; afterwards there is one for a map as well, unless there was nothing to keep. */
  lemma NotePlace(t: Ledger, sha256: Digest, note: seq<byte>, updated: u64)
    requires |t| <= 128 && ValidNote(note)
    ensures var noted := SetNoteSpec(t, sha256, note, updated);
            && noted.status == (if note == [] || |t| < 128 || Annotated(t, sha256) then Ok else CapacityExceeded)
            && (noted.status == Ok ==>
                  (Annotated(noted.ledger, sha256) || |noted.ledger| < 128 <==> note != [] || |t| < 128 || Annotated(t, sha256)))
  {
    hide ValidNote;
    var noted := SetNoteSpec(t, sha256, note, updated);
    var i := IndexOfDigest(t, sha256);
    AnnotatedIff(t, sha256);
    if noted.status == Ok && (note != [] || (i < |t| && t[i].link.Some?)) {
      assert noted.ledger[i].sha256 == sha256;
    }
  }

  /** A line that fits is stored exactly when there is room. */
  lemma AdmittedIff(legacy: bool, t: Ledger, l: Line)
    requires |t| <= 128 && Fits(legacy, l)
    ensures Admit(t, l.row).status == if Room(t, l) then Ok else CapacityExceeded
  {
    hide ValidNote, Writes, WritesLink, Unhex, SetNoteSpec;
    NotePlace(t, l.row.sha256, l.row.note, l.row.updated);
    if l.row.linkText.Some? {
      match l.link {
        case Some(digest) =>
          LinkIff(l.row.linkText.value, digest);
          AnnotatedIff(SetNoteSpec(t, l.row.sha256, l.row.note, l.row.updated).ledger, l.row.sha256);
        case None => LinkIff(l.row.linkText.value, NO_DIGEST);
      }
    } else {
      NoLink(l);
    }
  }

  lemma NoLink(l: Line)
    requires l.row.linkText == None && WritesLink(l.row.linkText, l.link)
    ensures l.link == None
  {
  }

  /** Why a line that is readable but does not fit is refused. */
  lemma MisfitIsRefused(legacy: bool, t: Ledger, row: Row)
    requires |t| <= 128
    ensures !ValidNote(row.note) ==> Admit(t, row).status == InvalidArgument
    ensures ValidNote(row.note) && (forall link :: !WritesLink(row.linkText, link)) ==>
              Admit(t, row).status ==
              if row.note == [] || |t| < 128 || Annotated(t, row.sha256) then InvalidFormat else CapacityExceeded
  {
    hide ValidNote, Unhex, SetNoteSpec, Hexadecimal;
    if ValidNote(row.note) {
      NotePlace(t, row.sha256, row.note, row.updated);
      if row.linkText == None || row.linkText.value == [DASH] {
        assert Ascii("-") == [DASH];
        assert WritesLink(row.linkText, None);
      } else if |row.linkText.value| == 2 * SHA256_BYTES && Unhex(row.linkText.value).Some? {
        HexadecimalIff(row.linkText.value, Unhex(row.linkText.value).value);
        LinkIff(row.linkText.value, Unhex(row.linkText.value).value);
      }
    }
    BadNote(t, row.sha256, row.note, row.updated);
  }

  lemma BadNote(t: Ledger, sha256: Digest, note: seq<byte>, updated: u64)
    ensures !ValidNote(note) ==> SetNoteSpec(t, sha256, note, updated).status == InvalidArgument
  {
  }

  // ---- Bodies ------------------------------------------------------------------------

  lemma PrintedMore(l: Line, tail: seq<Line>, rest: seq<byte>)
    ensures Printed([l] + tail) == LineText(l) + Printed(tail)
    ensures Printed([l] + tail) + rest == LineText(l) + (Printed(tail) + rest)
  {
    hide LineText;
    assert ([l] + tail)[1..] == tail;
  }

  lemma AllFitMore(legacy: bool, l: Line, tail: seq<Line>)
    ensures AllFit(legacy, [l] + tail) <==> Fits(legacy, l) && AllFit(legacy, tail)
  {
    hide Fits;
    assert ([l] + tail)[0] == l && forall i | 0 <= i < |tail| :: ([l] + tail)[i + 1] == tail[i];
  }

  lemma AfterMore(t: Ledger, l: Line, tail: seq<Line>)
    ensures After(t, [l] + tail) == After(Admit(t, l.row).ledger, tail)
    ensures Admissible(t, [l] + tail) <==> Room(t, l) && Admissible(Admit(t, l.row).ledger, tail)
  {
    hide Admit, Room;
    assert ([l] + tail)[1..] == tail;
  }

  lemma FitsReadable(legacy: bool, l: Line)
    requires Fits(legacy, l)
    ensures Readable(legacy, l)
  {
  }

  lemma ValidSize(t: Ledger)
    requires LedgerValid(t)
    ensures |t| <= 128
  {
  }

  /** Lines that fit and find room are read in order. */
  lemma {:induction false} PrintedIsRead(legacy: bool, lines: seq<Line>, rest: seq<byte>, t: Ledger)
    requires LedgerValid(t) && AllFit(legacy, lines) && Admissible(t, lines)
    ensures ParseRows(legacy, Printed(lines) + rest, t) == ParseRows(legacy, rest, After(t, lines))
    ensures LedgerValid(After(t, lines))
    decreases |lines|
  {
    hide Fits, Readable, ParseRow, ParseRows, Admit, Room, LineText, LedgerValid, AllFit;
    if lines == [] {
      assert Printed(lines) + rest == rest;
    } else {
      hide Printed, After, Admissible;
      var l, tail := lines[0], lines[1..];
      assert lines == [l] + tail;
      AllFitMore(legacy, l, tail);
      AfterMore(t, l, tail);
      FitsReadable(legacy, l);
      ValidSize(t);
      AdmittedIff(legacy, t, l);
      AdmitKeepsValid(t, l.row);
      PrintedMore(l, tail, rest);
      LineReads(legacy, l, Printed(tail) + rest);
      ParseRowsStep(legacy, Printed(lines) + rest, t);
      PrintedIsRead(legacy, tail, rest, Admit(t, l.row).ledger);
    }
  }

  /** The first line of a text that is not refused for its format is readable. */
  lemma FirstLineRead(legacy: bool, input: seq<byte>, t: Ledger) returns (l: Line, tail: seq<byte>)
    requires LedgerValid(t) && input != [] && ParseRows(legacy, input, t) != Refused(InvalidFormat)
    ensures Readable(legacy, l) && input == LineText(l) + tail && |tail| < |input|
    ensures Fits(legacy, l) && Room(t, l) ==>
              ParseRows(legacy, input, t) == ParseRows(legacy, tail, Admit(t, l.row).ledger)
    ensures !(Fits(legacy, l) && Room(t, l)) ==>
              ParseRows(legacy, input, t) == Refused(Admit(t, l.row).status) && Admit(t, l.row).status != Ok
  {
    hide Readable, ParseRow, ParseRows, Admit, Room, LineText, ValidNote, WritesLink;
    ParseRowsStep(legacy, input, t);
    var length := IndexOf(input, NEWLINE);
    var row := ParseRow(legacy, FirstFields(input[..length], MAX_TABS)).value;
    l := ReadLineFits(legacy, input[..length], row);
    tail := input[length + 1..];
    assert input == input[..length] + [NEWLINE] + tail;
    if Fits(legacy, l) {
      AdmittedIff(legacy, t, l);
    } else {
      MisfitIsRefused(legacy, t, row);
    }
  }

  /** Whatever is read was written by lines that fit and find room. */
  lemma {:induction false} ReadWasPrinted(legacy: bool, input: seq<byte>, t: Ledger) returns (lines: seq<Line>)
    requires LedgerValid(t) && ParseRows(legacy, input, t).Read?
    ensures AllFit(legacy, lines) && input == Printed(lines)
    ensures Admissible(t, lines) && ParseRows(legacy, input, t).ledger == After(t, lines)
    decreases |input|
  {
    hide Fits, Readable, ParseRow, Admit, Room, LineText, LedgerValid;
    if input == [] {
      return [];
    }
    var l, rest := FirstLineRead(legacy, input, t);
    hide ParseRows, AllFit, Printed, After, Admissible;
    AdmitKeepsValid(t, l.row);
    var tail := ReadWasPrinted(legacy, rest, Admit(t, l.row).ledger);
    lines := [l] + tail;
    AllFitMore(legacy, l, tail);
    AfterMore(t, l, tail);
    PrintedMore(l, tail, []);
  }

  /** A readable line that is refused, and the lines before it. */
  predicate StopsAt(legacy: bool, input: seq<byte>, t: Ledger, lines: seq<Line>, last: Line, rest: seq<byte>) {
    && AllFit(legacy, lines) && Admissible(t, lines) && Readable(legacy, last)
    && input == Printed(lines) + (LineText(last) + rest)
    && !(Fits(legacy, last) && Room(After(t, lines), last))
  }

  /** Whatever is refused for another reason than its format stops at a readable line. */
  lemma {:induction false} RefusedStops(legacy: bool, input: seq<byte>, t: Ledger)
    returns (lines: seq<Line>, last: Line, rest: seq<byte>)
    requires LedgerValid(t) && ParseRows(legacy, input, t).Refused?
    requires ParseRows(legacy, input, t).status != InvalidFormat
    ensures StopsAt(legacy, input, t, lines, last, rest)
    ensures ParseRows(legacy, input, t).status == Admit(After(t, lines), last.row).status != Ok
    decreases |input|
  {
    hide Fits, Readable, ParseRow, Admit, Room, LineText, LedgerValid, ParseRows;
    RefusedNonempty(legacy, input, t);
    var l, tail := FirstLineRead(legacy, input, t);
    if Fits(legacy, l) && Room(t, l) {
      hide AllFit, Printed, After, Admissible;
      AdmitKeepsValid(t, l.row);
      var more;
      more, last, rest := RefusedStops(legacy, tail, Admit(t, l.row).ledger);
      lines := [l] + more;
      AllFitMore(legacy, l, more);
      AfterMore(t, l, more);
      PrintedMore(l, more, LineText(last) + rest);
    } else {
      lines, last, rest := [], l, tail;
      assert Printed([]) + input == input;
    }
  }

  lemma RefusedNonempty(legacy: bool, input: seq<byte>, t: Ledger)
    ensures ParseRows(legacy, input, t).Refused? ==> input != []
  {
  }

  // ---- Texts -------------------------------------------------------------------------

  function FirstLine(legacy: bool): (s: seq<byte>)
    ensures |s| == HEADER_LENGTH
  {
    Ascii(if legacy then "REVLINK-ANNOTATIONS\t1\n" else "REVLINK-ANNOTATIONS\t2\n")
  }

  lemma FirstLinesAreHeaders(input: seq<byte>)
    ensures FirstLine(true) == Header(DIGIT_ONE) && FirstLine(false) == Header(DIGIT_TWO)
    ensures !(FirstLine(true) <= input && FirstLine(false) <= input)
  {
    assert Header(DIGIT_ONE)[20] != Header(DIGIT_TWO)[20];
  }

  lemma ParseLedgerIs(legacy: bool, body: seq<byte>)
    ensures ParseLedger(FirstLine(legacy) + body) == ParseRows(legacy, body, [])
  {
    hide ParseRows, FirstLine;
    var input := FirstLine(legacy) + body;
    FirstLinesAreHeaders(input);
    assert FirstLine(legacy) <= input && input[HEADER_LENGTH..] == body;
  }

  lemma OtherTextsRefused(input: seq<byte>) returns (legacy: bool, body: seq<byte>)
    ensures input == FirstLine(legacy) + body || ParseLedger(input) == Refused(InvalidFormat)
  {
    hide ParseRows, FirstLine;
    FirstLinesAreHeaders(input);
    legacy := FirstLine(true) <= input;
    body := if |input| >= HEADER_LENGTH then input[HEADER_LENGTH..] else [];
  }

  /** The text is a header and lines that fit, each with room, and the ledger is what they leave. */
  predicate Accepts(input: seq<byte>, legacy: bool, lines: seq<Line>, t: Ledger) {
    && AllFit(legacy, lines) && input == FirstLine(legacy) + Printed(lines)
    && Admissible([], lines) && t == After([], lines)
  }

  lemma EmptyValid()
    ensures LedgerValid([])
  {
  }

  /** A text is accepted as a ledger exactly when lines that fit write that ledger. */
  lemma AcceptedIff(input: seq<byte>, t: Ledger)
    ensures ParseLedger(input) == Read(t) <==> exists legacy, lines :: Accepts(input, legacy, lines, t)
  {
    hide ParseRows, AllFit, Printed, Admissible, After, FirstLine, LedgerValid, ParseLedger;
    EmptyValid();
    if legacy, lines :| Accepts(input, legacy, lines, t) {
      ParseLedgerIs(legacy, Printed(lines));
      PrintedIsRead(legacy, lines, [], []);
      assert Printed(lines) + [] == Printed(lines);
      RowsEnd(legacy, t);
    }
    if ParseLedger(input) == Read(t) {
      var legacy, body := OtherTextsRefused(input);
      ParseLedgerIs(legacy, body);
      var lines := ReadWasPrinted(legacy, body, []);
      assert Accepts(input, legacy, lines, t);
    }
  }

  lemma RowsEnd(legacy: bool, t: Ledger)
    ensures ParseRows(legacy, [], t) == Read(t)
  {
  }

  /** The ledger is full and the line would need a place. */
  ghost predicate Full(t: Ledger, row: Row) {
    && |t| >= 128 && !Annotated(t, row.sha256)
    && (row.note != [] || exists link: Digest :: WritesLink(row.linkText, Some(link)))
  }

  lemma ReasonIs(legacy: bool, t: Ledger, l: Line)
    requires |t| <= 128 && Readable(legacy, l)
    ensures Admit(t, l.row).status == InvalidArgument <==> !ValidNote(l.row.note)
    ensures Admit(t, l.row).status == CapacityExceeded <==> ValidNote(l.row.note) && Full(t, l.row)
    ensures Admit(t, l.row).status in {Ok, InvalidArgument, CapacityExceeded, InvalidFormat}
  {
    hide ValidNote, Readable, WritesLink, Admit;
    if ValidNote(l.row.note) {
      if link :| WritesLink(l.row.linkText, link) {
        var named := Line(l.fields, l.row, link);
        ReadableAlone(legacy, l, named);
        AdmittedIff(legacy, t, named);
        OneLink(l.row.linkText, link);
      }
    }
    MisfitIsRefused(legacy, t, l.row);
  }

  lemma ReadableAlone(legacy: bool, l: Line, named: Line)
    requires Readable(legacy, l) && named.fields == l.fields && named.row == l.row
    ensures Readable(legacy, named)
  {
  }

  /** A map field names at most one map. */
  lemma OneLink(linkText: Option<seq<byte>>, link: Option<Digest>)
    requires WritesLink(linkText, link)
    ensures link == None ==> forall other: Digest :: !WritesLink(linkText, Some(other))
  {
  }

  /** The text reaches a readable line that is refused for `status`. */
  ghost predicate Reaches(input: seq<byte>, legacy: bool, lines: seq<Line>, last: Line, rest: seq<byte>, status: Status) {
    && AllFit(legacy, lines) && Admissible([], lines) && Readable(legacy, last)
    && input == FirstLine(legacy) + (Printed(lines) + (LineText(last) + rest))
    && match status
       case InvalidArgument => !ValidNote(last.row.note)
       case CapacityExceeded => ValidNote(last.row.note) && Full(After([], lines), last.row)
       case _ => false
  }

  /** A refusal for a note or for want of room names the first line that is not stored; all others are of the format. */
  lemma RefusedIff(input: seq<byte>, status: Status)
    requires status in {InvalidArgument, CapacityExceeded}
    ensures ParseLedger(input) == Refused(status) <==>
              exists legacy, lines, last, rest :: Reaches(input, legacy, lines, last, rest, status)
    ensures ParseLedger(input).Refused? ==>
              ParseLedger(input).status in {InvalidArgument, CapacityExceeded, InvalidFormat}
  {
    hide ParseRows, AllFit, Printed, Admissible, After, FirstLine, LedgerValid, ParseLedger, Readable, ValidNote, Full,
         LineText, Admit, Fits, Room;
    EmptyValid();
    if legacy, lines, last, rest :| Reaches(input, legacy, lines, last, rest, status) {
      ReachedIsRefused(input, legacy, lines, last, rest, status);
    }
    if ParseLedger(input).Refused? && ParseLedger(input) != Refused(InvalidFormat) {
      var legacy, body := OtherTextsRefused(input);
      ParseLedgerIs(legacy, body);
      var lines, last, rest := RefusedStops(legacy, body, []);
      PrintedIsRead(legacy, lines, [], []);
      ValidSize(After([], lines));
      ReasonIs(legacy, After([], lines), last);
      if ParseLedger(input) == Refused(status) {
        assert Reaches(input, legacy, lines, last, rest, status);
      }
    }
  }

  lemma ReachedIsRefused(input: seq<byte>, legacy: bool, lines: seq<Line>, last: Line, rest: seq<byte>, status: Status)
    requires Reaches(input, legacy, lines, last, rest, status)
    ensures ParseLedger(input) == Refused(status)
  {
    hide ParseRows, AllFit, Printed, Admissible, After, FirstLine, LedgerValid, ParseLedger, Readable, ValidNote, Full,
         LineText, Admit, ParseRow;
    EmptyValid();
    var tail := LineText(last) + rest;
    ParseLedgerIs(legacy, Printed(lines) + tail);
    PrintedIsRead(legacy, lines, tail, []);
    LineReads(legacy, last, rest);
    ParseRowsStep(legacy, tail, After([], lines));
    ValidSize(After([], lines));
    ReasonIs(legacy, After([], lines), last);
  }

  // ---- What the ledger says about a digest ----------------------------------------------

  /** A stored line replaces the note and, if it names one, the map; other digests keep both. */
  lemma AdmitWrites(legacy: bool, t: Ledger, l: Line, other: Digest)
    requires LedgerValid(t) && Fits(legacy, l) && Room(t, l)
    ensures var u, own := Admit(t, l.row).ledger, l.row.sha256 == other;
            && NoteOf(u, other) == (if own then l.row.note else NoteOf(t, other))
            && Linked(u, other) == (if own && l.link.Some? then l.link else Linked(t, other))
  {
    hide LedgerValid, ValidNote, SetNoteSpec, SetMapSpec, Unhex, Room, Readable, NoteOf, Linked, WritesLink, Hexadecimal;
    ValidSize(t);
    AdmittedIff(legacy, t, l);
    var row := l.row;
    StepChanges(t, SetNote(row.sha256, row.note, row.updated), other);
    var noted := SetNoteSpec(t, row.sha256, row.note, row.updated).ledger;
    SetNoteKeepsValid(t, row.sha256, row.note, row.updated);
    if row.linkText.Some? {
      match l.link {
        case Some(digest) =>
          LinkIff(row.linkText.value, digest);
          StepChanges(noted, SetMap(row.sha256, Some(digest), row.updated), other);
        case None =>
          LinkIff(row.linkText.value, NO_DIGEST);
      }
    } else {
      NoLink(l);
    }
  }
}
