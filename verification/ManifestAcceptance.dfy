/** Which texts the manifest parser accepts, and what it reads in them, said of what is written. */
module ManifestAcceptance {
  import opened Bytes
  import opened LedgerText
  import opened SyncManifest
  import opened SyncManifestText

  // ---- One line ----------------------------------------------------------------------

  /** What every version writes: path, device time, size, digest and cache name. */
  predicate WritesContent(path: seq<byte>, time: seq<byte>, size: seq<byte>, digest: seq<byte>, name: seq<byte>, e: Entry) {
    && WellFormed(e)
    && path == e.path
    && Numeral(time, e.deviceTime, 10) && Numeral(size, e.size, 10)
    && Hexadecimal(digest, e.sha256)
    && NameField(name, e.cacheName)
  }

  /** The second version adds the first sync time, the third the presence. */
  predicate Writes(version: Version, f: seq<seq<byte>>, e: Entry) {
    match version
    case V1 =>
      |f| == 5 && WritesContent(f[0], f[1], f[2], f[3], f[4], e) && e.initialSync == 0 && e.presence == Unknown
    case V2 =>
      && |f| == 6 && WritesContent(f[0], f[1], f[2], f[4], f[5], e) && Numeral(f[3], e.initialSync, 20)
      && e.presence == Unknown
    case V3 =>
      && |f| == 7 && WritesContent(f[0], f[1], f[2], f[4], f[5], e) && Numeral(f[3], e.initialSync, 20)
      && f[6] == Ascii(match e.presence case Unknown => "0" case OnDevice => "1" case Absent => "2")
  }

  lemma ContentIff(path: seq<byte>, time: seq<byte>, size: seq<byte>, digest: seq<byte>, name: seq<byte>, e: Entry)
    ensures WritesContent(path, time, size, digest, name, e) <==>
              && ValidPath(path) && path == e.path
              && ParseDecimal(time, 10, U32_LIMIT) == Some(e.deviceTime)
              && ParseDecimal(size, 10, U32_LIMIT) == Some(e.size) && e.size != 0
              && |digest| == 2 * SHA256_BYTES && Unhex(digest) == Some(e.sha256)
              && |name| < CACHE_NAME_CAPACITY && ValidCacheName(CString(name)) && CString(name) == e.cacheName
  {
    hide Numeral, Hexadecimal, ParseDecimal, Unhex, ValidPath, ValidCacheName, CString, NameField;
    NumeralIff(time, 10, U32_LIMIT, e.deviceTime);
    NumeralIff(size, 10, U32_LIMIT, e.size);
    HexadecimalIff(digest, e.sha256);
    HexadecimalLength(digest, e.sha256);
    NameFieldIff(name, e.cacheName);
  }

  /** A row is read from fields exactly when the fields write that row. */
  lemma FieldsIff(version: Version, f: seq<seq<byte>>, e: Entry)
    ensures ParseFields(version, f) == Some(e) <==> Writes(version, f, e)
  {
    hide WritesContent, Numeral, ParseDecimal, Unhex, ValidPath, ValidCacheName, CString;
    if |f| == ExpectedFields(version) {
      if version == V1 {
        ContentIff(f[0], f[1], f[2], f[3], f[4], e);
      } else {
        ContentIff(f[0], f[1], f[2], f[4], f[5], e);
        NumeralIff(f[3], 20, U64_LIMIT, e.initialSync);
      }
    }
  }

  // ---- Lines -------------------------------------------------------------------------

  datatype Line = Line(fields: seq<seq<byte>>, entry: Entry)

  /** Fields that write the entry and hold no separator. */
  predicate Fits(version: Version, l: Line) {
    && Writes(version, l.fields, l.entry)
    && forall k | 0 <= k < |l.fields| :: TAB !in l.fields[k] && NEWLINE !in l.fields[k]
  }

  predicate AllFit(version: Version, lines: seq<Line>) {
    forall i | 0 <= i < |lines| :: Fits(version, lines[i])
  }

  function Printed(lines: seq<Line>): seq<byte> {
    if lines == [] then []
    else (if lines[0].fields == [] then [] else Join(lines[0].fields)) + [NEWLINE] + Printed(lines[1..])
  }

  /** A line is read as an entry exactly when fields without separators that write the entry make up the line. */
  lemma LineReads(version: Version, l: Line, rest: seq<byte>)
    requires Fits(version, l)
    ensures |l.fields| > 0
    ensures var input := Join(l.fields) + [NEWLINE] + rest;
            var length := IndexOf(input, NEWLINE);
            && 0 < length < |input| && input[..length] == Join(l.fields) && input[length + 1..] == rest
            && ParseLine(version, input[..length]) == Some(l.entry)
  {
    hide Join, Fields, ParseFields, Writes, IndexOf;
    FieldsIff(version, l.fields, l.entry);
    WritesNonempty(version, l.fields, l.entry);
    var line := Join(l.fields);
    FieldsOfJoin(l.fields);
    JoinAvoids(l.fields, NEWLINE);
    JoinNonempty(l.fields);
    var input := line + [NEWLINE] + rest;
    assert input[..|line|] == line && input[|line| + 1..] == rest;
    IndexOfIs(input, NEWLINE, |line|);
  }

  lemma WritesNonempty(version: Version, f: seq<seq<byte>>, e: Entry)
    requires Writes(version, f, e)
    ensures 0 < |f| <= MAX_FIELDS && NoneEmpty(f)
  {
    hide Decimal, Hex;
  }

  lemma ReadLineFits(version: Version, line: seq<byte>, e: Entry) returns (l: Line)
    requires NEWLINE !in line && ParseLine(version, line) == Some(e)
    ensures Fits(version, l) && l.entry == e && l.fields != [] && Join(l.fields) == line
  {
    hide Join, Fields, ParseFields, Writes;
    l := Line(Fields(line), e);
    JoinOfFields(line);
    FieldsIff(version, l.fields, e);
  }

  // ---- Tables ------------------------------------------------------------------------

  /** A row for a recorded path replaces it; a new path needs one of the 128 places. */
  predicate Room(t: Table, path: seq<byte>) {
    |t| < 128 || exists i :: 0 <= i < |t| && t[i].path == path
  }

  predicate Admissible(t: Table, lines: seq<Line>)
    decreases |lines|
  {
    lines == [] || (Room(t, lines[0].entry.path) && Admissible(Admit(t, lines[0].entry).table, lines[1..]))
  }

  function After(t: Table, lines: seq<Line>): Table
    decreases |lines|
  {
    if lines == [] then t else After(Admit(t, lines[0].entry).table, lines[1..])
  }

  lemma AdmittedIff(t: Table, e: Entry)
    requires WellFormed(e)
    ensures Admit(t, e).status == if Room(t, e.path) then Ok else CapacityExceeded
  {
    hide ValidPath, ValidCacheName;
    if i :| 0 <= i < |t| && t[i].path == e.path {
      assert IndexOfPath(t, e.path) <= i;
    }
  }

  lemma FitsWellFormed(version: Version, l: Line)
    requires Fits(version, l)
    ensures WellFormed(l.entry)
  {
  }

  /** Lines that fit are read in order, each row as an upsert of its path. */
  lemma {:induction false} PrintedIsRead(version: Version, lines: seq<Line>, rest: seq<byte>, t: Table)
    requires AllFit(version, lines) && Admissible(t, lines)
    ensures ParseLines(version, Printed(lines) + rest, t) == ParseLines(version, rest, After(t, lines))
    decreases |lines|
  {
    hide Fits, ParseLine, Admit, Room, Join;
    if lines == [] {
      assert Printed(lines) + rest == rest;
    } else {
      var l := lines[0];
      FitsWellFormed(version, l);
      AdmittedIff(t, l.entry);
      LineReads(version, l, Printed(lines[1..]) + rest);
      assert Printed(lines) + rest == Join(l.fields) + [NEWLINE] + (Printed(lines[1..]) + rest);
      PrintedIsRead(version, lines[1..], rest, Admit(t, l.entry).table);
    }
  }

  /** The first line of a text that is read on is a line that fits. */
  lemma FirstLineRead(version: Version, input: seq<byte>, t: Table) returns (l: Line, tail: seq<byte>)
    requires input != [] && ParseLines(version, input, t) != Failed(InvalidFormat)
    ensures Fits(version, l) && l.fields != [] && input == Join(l.fields) + [NEWLINE] + tail && |tail| < |input|
    ensures Room(t, l.entry.path) ==>
              ParseLines(version, input, t) == ParseLines(version, tail, Admit(t, l.entry).table)
    ensures !Room(t, l.entry.path) ==> ParseLines(version, input, t) == Failed(CapacityExceeded)
  {
    hide Fits, ParseLine, Admit, Room, Join;
    var length := IndexOf(input, NEWLINE);
    var e := ParseLine(version, input[..length]).value;
    l := ReadLineFits(version, input[..length], e);
    tail := input[length + 1..];
    FitsWellFormed(version, l);
    AdmittedIff(t, e);
    assert input == input[..length] + [NEWLINE] + tail;
  }

  lemma OneMore(version: Version, l: Line, tail: seq<Line>)
    requires Fits(version, l) && AllFit(version, tail) && l.fields != []
    ensures AllFit(version, [l] + tail)
    ensures Printed([l] + tail) == Join(l.fields) + [NEWLINE] + Printed(tail)
  {
    hide Fits, Join;
    assert ([l] + tail)[1..] == tail;
  }

  lemma AfterOneMore(t: Table, l: Line, tail: seq<Line>)
    ensures After(t, [l] + tail) == After(Admit(t, l.entry).table, tail)
    ensures Admissible(t, [l] + tail) <==> Room(t, l.entry.path) && Admissible(Admit(t, l.entry).table, tail)
  {
    hide Admit, Room;
    assert ([l] + tail)[1..] == tail;
  }

  /** Whatever is read was written by lines that fit. */
  lemma {:induction false} ReadWasPrinted(version: Version, input: seq<byte>, t: Table) returns (lines: seq<Line>)
    requires ParseLines(version, input, t).Parsed?
    ensures AllFit(version, lines) && input == Printed(lines)
    ensures Admissible(t, lines) && ParseLines(version, input, t).table == After(t, lines)
    decreases |input|
  {
    hide Fits, Admit, Room, Join;
    if input == [] {
      return [];
    }
    var l, rest := FirstLineRead(version, input, t);
    hide ParseLines, AllFit, Printed, After, Admissible;
    var tail := ReadWasPrinted(version, rest, Admit(t, l.entry).table);
    OneMore(version, l, tail);
    AfterOneMore(t, l, tail);
    lines := [l] + tail;
  }

  /** Whatever overflows was written by lines that fit, up to one without a place. */
  lemma {:induction false} OverflowWasPrinted(version: Version, input: seq<byte>, t: Table)
    returns (lines: seq<Line>, last: Line, rest: seq<byte>)
    requires ParseLines(version, input, t) == Failed(CapacityExceeded)
    ensures AllFit(version, lines) && Admissible(t, lines) && Fits(version, last) && last.fields != []
    ensures !Room(After(t, lines), last.entry.path)
    ensures input == Printed(lines) + (Join(last.fields) + [NEWLINE] + rest)
    decreases |input|
  {
    hide Fits, Admit, Room, Join;
    var l, tail := FirstLineRead(version, input, t);
    if !Room(t, l.entry.path) {
      lines, last, rest := [], l, tail;
      assert Printed([]) + input == input;
    } else {
      hide ParseLines, AllFit, Printed, After, Admissible;
      var more;
      more, last, rest := OverflowWasPrinted(version, tail, Admit(t, l.entry).table);
      OneMore(version, l, more);
      AfterOneMore(t, l, more);
      lines := [l] + more;
      Appended(Join(l.fields) + [NEWLINE], Printed(more), Join(last.fields) + [NEWLINE] + rest);
    }
  }

  lemma Appended(a: seq<byte>, b: seq<byte>, c: seq<byte>)
    ensures a + (b + c) == (a + b) + c
  {
  }

  // ---- Texts -------------------------------------------------------------------------

  function FirstLine(version: Version): (s: seq<byte>)
    ensures |s| == HEADER_LENGTH
  {
    Ascii(match version
          case V1 => "REVLINK-MANIFEST\t1\n"
          case V2 => "REVLINK-MANIFEST\t2\n"
          case V3 => "REVLINK-MANIFEST\t3\n")
  }

  lemma FirstLineIsHeader(version: Version)
    ensures FirstLine(version) == Header(version)
  {
  }

  lemma VersionIff(input: seq<byte>, version: Version)
    ensures VersionOf(input) == Some(version) <==> FirstLine(version) <= input
  {
    FirstLineIsHeader(version);
    assert forall v: Version :: Header(v)[17] == match v case V1 => 0x31 case V2 => 0x32 case V3 => 0x33;
  }

  /** The text is a header and lines that fit, each with room, and the table is what they leave. */
  predicate Accepts(input: seq<byte>, version: Version, lines: seq<Line>, t: Table) {
    && AllFit(version, lines) && input == FirstLine(version) + Printed(lines)
    && Admissible([], lines) && t == After([], lines)
  }

  /** The text reaches a line that fits but finds no room. */
  predicate Overflows(input: seq<byte>, version: Version, lines: seq<Line>, last: Line, rest: seq<byte>) {
    && AllFit(version, lines) && Fits(version, last) && last.fields != []
    && input == FirstLine(version) + (Printed(lines) + (Join(last.fields) + [NEWLINE] + rest))
    && Admissible([], lines) && !Room(After([], lines), last.entry.path)
  }

  /** A text is accepted as a table exactly when lines that fit write that table. */
  lemma AcceptedIff(input: seq<byte>, t: Table)
    ensures ParseText(input) == Parsed(t) <==> exists version, lines :: Accepts(input, version, lines, t)
  {
    hide ParseLines, AllFit, Printed, Admissible, After, FirstLine;
    if version, lines :| Accepts(input, version, lines, t) {
      AcceptedIsRead(input, version, lines, t);
    }
    if ParseText(input) == Parsed(t) {
      var version := VersionOf(input).value;
      VersionIff(input, version);
      var lines := ReadWasPrinted(version, input[HEADER_LENGTH..], []);
      assert input == FirstLine(version) + input[HEADER_LENGTH..];
      assert Accepts(input, version, lines, t);
    }
  }

  lemma AcceptedIsRead(input: seq<byte>, version: Version, lines: seq<Line>, t: Table)
    requires Accepts(input, version, lines, t)
    ensures ParseText(input) == Parsed(t)
  {
    hide AllFit, Admissible, After, Printed, FirstLine;
    VersionIff(input, version);
    assert input[HEADER_LENGTH..] == Printed(lines) + [];
    PrintedIsRead(version, lines, [], []);
    assert ParseLines(version, [], After([], lines)) == Parsed(After([], lines));
  }

  /** The table is reported full exactly when a line that fits finds no room; every other refusal is of the format. */
  lemma OverflowIff(input: seq<byte>)
    ensures ParseText(input) == Failed(CapacityExceeded) <==>
              exists version, lines, last, rest :: Overflows(input, version, lines, last, rest)
    ensures ParseText(input).Failed? ==> ParseText(input).status in {CapacityExceeded, InvalidFormat}
  {
    hide ParseLines, AllFit, Printed, Admissible, After, FirstLine, Fits, Room, Join;
    if version, lines, last, rest :| Overflows(input, version, lines, last, rest) {
      OverflowIsReported(input, version, lines, last, rest);
    }
    if VersionOf(input).Some? {
      var version := VersionOf(input).value;
      VersionIff(input, version);
      if ParseText(input) == Failed(CapacityExceeded) {
        var lines, last, rest := OverflowWasPrinted(version, input[HEADER_LENGTH..], []);
        assert input == FirstLine(version) + input[HEADER_LENGTH..];
        assert Overflows(input, version, lines, last, rest);
      }
      TwoRefusals(version, input[HEADER_LENGTH..], []);
    }
  }

  lemma OverflowIsReported(input: seq<byte>, version: Version, lines: seq<Line>, last: Line, rest: seq<byte>)
    requires Overflows(input, version, lines, last, rest)
    ensures ParseText(input) == Failed(CapacityExceeded)
  {
    hide AllFit, Admissible, After, Printed, FirstLine, Fits, Room, Join, Admit;
    VersionIff(input, version);
    var tail := Join(last.fields) + [NEWLINE] + rest;
    assert input[HEADER_LENGTH..] == Printed(lines) + tail;
    PrintedIsRead(version, lines, tail, []);
    LineReads(version, last, rest);
    FitsWellFormed(version, last);
    AdmittedIff(After([], lines), last.entry);
  }

  lemma {:induction false} TwoRefusals(version: Version, input: seq<byte>, t: Table)
    ensures ParseLines(version, input, t).Failed? ==>
              ParseLines(version, input, t).status in {CapacityExceeded, InvalidFormat}
    decreases |input|
  {
    hide ParseLine, Admit;
    if input != [] && 0 < IndexOf(input, NEWLINE) < |input| {
      var length := IndexOf(input, NEWLINE);
      var line := ParseLine(version, input[..length]);
      if line.Some? && Admit(t, line.value).status == Ok {
        TwoRefusals(version, input[length + 1..], Admit(t, line.value).table);
      }
    }
  }

  // ---- What the table says about a path ------------------------------------------------

  /** The row of a path after its line: what the line says, with an older first sync time for unchanged content. */
  lemma AdmitWrites(t: Table, e: Entry)
    requires NormalForm(t) && WellFormed(e) && Room(t, e.path)
    ensures var row := Lookup(ByPath(Admit(t, e).table), e.path);
            && row.Some?
            && row.value == e.(initialSync := row.value.initialSync)
            && (e.path !in ByPath(t) || ByPath(t)[e.path].sha256 != e.sha256 ==> row.value == e)
    ensures forall p | p != e.path :: Lookup(ByPath(Admit(t, e).table), p) == Lookup(ByPath(t), p)
  {
    hide NormalForm, UpsertSpec, SetPresenceSpec, ByPath, WellFormed, Merge, Room;
    AdmittedIff(t, e);
    UpsertRefinesMap(t, e.path, e.deviceTime, e.size, e.initialSync, e.sha256, e.cacheName);
    var u := UpsertSpec(t, e.path, e.deviceTime, e.size, e.initialSync, e.sha256, e.cacheName).table;
    UpsertKeepsNormalForm(t, e.path, e.deviceTime, e.size, e.initialSync, e.sha256, e.cacheName);
    SetPresenceRefinesMap(u, e.path, e.presence);
  }

  function RowOf(t: Table, path: seq<byte>): Option<Entry> {
    Lookup(ByPath(t), path)
  }

  predicate Unnamed(lines: seq<Line>, path: seq<byte>) {
    forall i | 0 <= i < |lines| :: lines[i].entry.path != path
  }

  /** No path gets a row, or loses or changes one, without a line. */
  lemma {:induction false} UnnamedStays(version: Version, lines: seq<Line>, t: Table, path: seq<byte>)
    requires NormalForm(t) && AllFit(version, lines) && Admissible(t, lines) && Unnamed(lines, path)
    ensures RowOf(After(t, lines), path) == RowOf(t, path)
    decreases |lines|
  {
    hide NormalForm, Fits, Admit, Room, ByPath, WellFormed;
    if lines != [] {
      FitsWellFormed(version, lines[0]);
      AdmitWrites(t, lines[0].entry);
      AdmitKeepsNormalForm(t, lines[0].entry);
      UnnamedStays(version, lines[1..], Admit(t, lines[0].entry).table, path);
    }
  }

  /** After accepted lines the last line of a path stands; only the first sync time may be an earlier line's. */
  lemma {:induction false} LastLineStands(version: Version, lines: seq<Line>, t: Table, k: nat)
    requires NormalForm(t) && AllFit(version, lines) && Admissible(t, lines)
    requires k < |lines| && Unnamed(lines[k + 1..], lines[k].entry.path)
    ensures var row := RowOf(After(t, lines), lines[k].entry.path);
            && row.Some?
            && row.value == lines[k].entry.(initialSync := row.value.initialSync)
            && (RowOf(t, lines[k].entry.path) == None && Unnamed(lines[..k], lines[k].entry.path)
                ==> row.value == lines[k].entry)
    decreases |lines|
  {
    hide NormalForm, Fits, Admit, Room, ByPath, WellFormed, Unnamed, After;
    var l, u := lines[0], Admit(t, lines[0].entry).table;
    FitsWellFormed(version, l);
    AdmitWrites(t, l.entry);
    AdmitKeepsNormalForm(t, l.entry);
    AfterOneMore(t, l, lines[1..]);
    assert lines == [l] + lines[1..];
    if k == 0 {
      UnnamedStays(version, lines[1..], u, l.entry.path);
      MissingIsNone(t, l.entry.path);
    } else {
      assert lines[1..][k - 1] == lines[k] && lines[1..][k..] == lines[k + 1..];
      if Unnamed(lines[..k], lines[k].entry.path) {
        UnnamedTail(lines[..k], lines[k].entry.path);
      }
      assert lines[..k][1..] == lines[1..][..k - 1];
      LastLineStands(version, lines[1..], u, k - 1);
    }
  }

  lemma UnnamedTail(lines: seq<Line>, path: seq<byte>)
    requires lines != [] && Unnamed(lines, path)
    ensures lines[0].entry.path != path && Unnamed(lines[1..], path)
  {
  }

  lemma MissingIsNone(t: Table, path: seq<byte>)
    ensures RowOf(t, path) == None <==> path !in ByPath(t)
  {
  }
}
