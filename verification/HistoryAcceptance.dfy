/** Which texts the history parser accepts, and what it reads in them, said of what is written. */
module HistoryAcceptance {
  import opened Bytes
  import opened LedgerText
  import opened SyncHistory

  // ---- One line ----------------------------------------------------------------------

  /** What both versions write; whether the object name is a valid one is looked at later. */
  predicate WritesContent(f: seq<seq<byte>>, digest: seq<byte>, name: seq<byte>, v: Version)
    requires |f| >= 4
  {
    && v.sequence != 0 && v.size != 0 && ValidPath(v.path)
    && Numeral(f[0], v.sequence, 10) && f[1] == v.path
    && Numeral(f[2], v.deviceTime, 10) && Numeral(f[3], v.size, 10)
    && Hexadecimal(digest, v.sha256) && NameField(name, v.objectName)
  }

  /** The second version adds the first sync time. */
  predicate Writes(two: bool, f: seq<seq<byte>>, v: Version) {
    if two then |f| == 7 && WritesContent(f, f[5], f[6], v) && Numeral(f[4], v.initialSync, 20)
    else |f| == 6 && WritesContent(f, f[4], f[5], v) && v.initialSync == 0
  }

  lemma ContentIff(f: seq<seq<byte>>, digest: seq<byte>, name: seq<byte>, v: Version)
    requires |f| >= 4
    ensures WritesContent(f, digest, name, v) <==>
              && ParseDecimal(f[0], 10, U32_LIMIT) == Some(v.sequence) && v.sequence != 0
              && ValidPath(f[1]) && f[1] == v.path
              && ParseDecimal(f[2], 10, U32_LIMIT) == Some(v.deviceTime)
              && ParseDecimal(f[3], 10, U32_LIMIT) == Some(v.size) && v.size != 0
              && |digest| == 2 * SHA256_BYTES && Unhex(digest) == Some(v.sha256)
              && |name| < CACHE_NAME_CAPACITY && CString(name) == v.objectName
  {
    hide Numeral, Hexadecimal, ParseDecimal, Unhex, ValidPath, CString, NameField;
    NumeralIff(f[0], 10, U32_LIMIT, v.sequence);
    NumeralIff(f[2], 10, U32_LIMIT, v.deviceTime);
    NumeralIff(f[3], 10, U32_LIMIT, v.size);
    HexadecimalIff(digest, v.sha256);
    HexadecimalLength(digest, v.sha256);
    NameFieldIff(name, v.objectName);
  }

  /** A row is read from fields exactly when the fields write it and its number is above those before it. */
  lemma FieldsIff(two: bool, f: seq<seq<byte>>, v: Version, highest: nat)
    ensures ParseVersionFields(two, f, highest) == Some(v) <==> Writes(two, f, v) && v.sequence > highest
  {
    hide WritesContent, Numeral, ParseDecimal, Unhex, ValidPath, CString;
    if |f| == if two then 7 else 6 {
      if two {
        ContentIff(f, f[5], f[6], v);
        NumeralIff(f[4], 20, U64_LIMIT, v.initialSync);
      } else {
        ContentIff(f, f[4], f[5], v);
      }
    }
  }

  // ---- Lines -------------------------------------------------------------------------

  datatype Line = Line(fields: seq<seq<byte>>, version: Version)

  /** Fields that write the row, none of them empty or with a separator. */
  predicate Fits(two: bool, l: Line) {
    && Writes(two, l.fields, l.version)
    && forall k | 0 <= k < |l.fields| :: l.fields[k] != [] && TAB !in l.fields[k] && NEWLINE !in l.fields[k]
  }

  predicate AllFit(two: bool, lines: seq<Line>) {
    forall i | 0 <= i < |lines| :: Fits(two, lines[i]) && ValidCacheName(lines[i].version.objectName)
  }

  function Printed(lines: seq<Line>): seq<byte> {
    if lines == [] then []
    else (if lines[0].fields == [] then [] else Join(lines[0].fields)) + [NEWLINE] + Printed(lines[1..])
  }

  function Versions(lines: seq<Line>): (s: seq<Version>)
    ensures |s| == |lines| && forall i | 0 <= i < |s| :: s[i] == lines[i].version
  {
    seq(|lines|, i requires 0 <= i < |lines| => lines[i].version)
  }

  /** Each number is above the one before it. */
  predicate Rising(highest: nat, lines: seq<Line>)
    decreases |lines|
  {
    lines == [] || (lines[0].version.sequence > highest && Rising(lines[0].version.sequence, lines[1..]))
  }

  lemma WritesCount(two: bool, f: seq<seq<byte>>, v: Version)
    requires Writes(two, f, v)
    ensures 0 < |f| <= MAX_FIELDS
  {
  }

  lemma LineReads(two: bool, l: Line, highest: nat, rest: seq<byte>)
    requires Fits(two, l) && l.version.sequence > highest
    ensures |l.fields| > 0
    ensures var input := Join(l.fields) + [NEWLINE] + rest;
            var length := IndexOf(input, NEWLINE);
            && 0 < length < |input| && input[..length] == Join(l.fields) && input[length + 1..] == rest
            && ParseVersionLine(two, input[..length], highest) == Some(l.version)
  {
    hide Join, Fields, ParseVersionFields, Writes, IndexOf;
    FieldsIff(two, l.fields, l.version, highest);
    WritesCount(two, l.fields, l.version);
    var line := Join(l.fields);
    FieldsOfJoin(l.fields);
    JoinAvoids(l.fields, NEWLINE);
    JoinNonempty(l.fields);
    var input := line + [NEWLINE] + rest;
    assert input[..|line|] == line && input[|line| + 1..] == rest;
    IndexOfIs(input, NEWLINE, |line|);
  }

  lemma ReadLineFits(two: bool, line: seq<byte>, highest: nat, v: Version) returns (l: Line)
    requires NEWLINE !in line && ParseVersionLine(two, line, highest) == Some(v)
    ensures Fits(two, l) && l.version == v && v.sequence > highest && l.fields != [] && Join(l.fields) == line
  {
    hide Join, Fields, ParseVersionFields, Writes;
    l := Line(Fields(line), v);
    JoinOfFields(line);
    FieldsIff(two, l.fields, v, highest);
  }

  // ---- Bodies ------------------------------------------------------------------------

  lemma HighestOfMore(s: seq<Version>, v: Version)
    ensures Highest(s + [v]) == v.sequence
  {
  }

  lemma VersionsOfMore(s: seq<Version>, l: Line, tail: seq<Line>)
    ensures s + Versions([l] + tail) == s + [l.version] + Versions(tail)
  {
  }

  lemma PrintedMore(l: Line, tail: seq<Line>, rest: seq<byte>)
    requires l.fields != []
    ensures Printed([l] + tail) == Join(l.fields) + [NEWLINE] + Printed(tail)
    ensures Printed([l] + tail) + rest == Join(l.fields) + [NEWLINE] + (Printed(tail) + rest)
  {
    hide Join;
    assert ([l] + tail)[1..] == tail;
  }

  lemma AllFitMore(two: bool, l: Line, tail: seq<Line>)
    ensures AllFit(two, [l] + tail) <==> Fits(two, l) && ValidCacheName(l.version.objectName) && AllFit(two, tail)
  {
    hide Fits, ValidCacheName;
    assert ([l] + tail)[0] == l && forall i | 0 <= i < |tail| :: ([l] + tail)[i + 1] == tail[i];
  }

  lemma RisingMore(highest: nat, l: Line, tail: seq<Line>)
    ensures Rising(highest, [l] + tail) <==> l.version.sequence > highest && Rising(l.version.sequence, tail)
  {
    assert ([l] + tail)[1..] == tail;
  }

  /** Rising lines that fit are read in order. */
  lemma {:induction false} PrintedIsRead(two: bool, lines: seq<Line>, rest: seq<byte>, s: seq<Version>, next: u32)
    requires AllFit(two, lines) && Rising(Highest(s), lines) && |s| + |lines| <= HISTORY_CAPACITY
    ensures ParseVersionLines(two, Printed(lines) + rest, s, next)
         == ParseVersionLines(two, rest, s + Versions(lines), next)
    decreases |lines|
  {
    hide Fits, ParseVersionLine, Join, ValidCacheName, ParseVersionLines, AllFit, Rising, Highest;
    if lines == [] {
      assert Printed(lines) + rest == rest && s + Versions(lines) == s;
    } else {
      hide Printed, Versions;
      var l, tail := lines[0], lines[1..];
      assert lines == [l] + tail;
      AllFitMore(two, l, tail);
      RisingMore(Highest(s), l, tail);
      HighestOfMore(s, l.version);
      VersionsOfMore(s, l, tail);
      LineReads(two, l, Highest(s), Printed(tail) + rest);
      PrintedMore(l, tail, rest);
      ParseVersionLinesStep(two, Printed(lines) + rest, s, next);
      PrintedIsRead(two, tail, rest, s + [l.version], next);
    }
  }

  /** The first line of a text that is read on is a line that fits. */
  lemma FirstLineRead(two: bool, input: seq<byte>, s: seq<Version>, next: u32) returns (l: Line, tail: seq<byte>)
    requires input != [] && ParseVersionLines(two, input, s, next) != Refused(InvalidFormat)
    ensures Fits(two, l) && l.fields != [] && input == Join(l.fields) + [NEWLINE] + tail && |tail| < |input|
    ensures l.version.sequence > Highest(s)
    ensures |s| < HISTORY_CAPACITY ==>
              && ValidCacheName(l.version.objectName)
              && ParseVersionLines(two, input, s, next) == ParseVersionLines(two, tail, s + [l.version], next)
    ensures |s| >= HISTORY_CAPACITY ==> ParseVersionLines(two, input, s, next) == Refused(CapacityExceeded)
  {
    hide Fits, ParseVersionLine, Join, ValidCacheName;
    var length := IndexOf(input, NEWLINE);
    var v := ParseVersionLine(two, input[..length], Highest(s)).value;
    l := ReadLineFits(two, input[..length], Highest(s), v);
    tail := input[length + 1..];
    assert input == input[..length] + [NEWLINE] + tail;
  }

  /** Whatever is read was written by rising lines that fit. */
  lemma {:induction false} ReadWasPrinted(two: bool, input: seq<byte>, s: seq<Version>, next: u32)
    returns (lines: seq<Line>)
    requires ParseVersionLines(two, input, s, next).Read?
    ensures AllFit(two, lines) && Rising(Highest(s), lines) && input == Printed(lines)
    ensures ParseVersionLines(two, input, s, next).log == Log(s + Versions(lines), next)
    decreases |input|
  {
    hide Fits, Join;
    if input == [] {
      lines := [];
      assert s + Versions(lines) == s;
      return;
    }
    if |s| >= HISTORY_CAPACITY {
      FullIsRefused(two, input, s, next);
    }
    var l, rest := FirstLineRead(two, input, s, next);
    hide ParseVersionLines, AllFit, Printed, Rising, ValidCacheName, Highest, Versions;
    HighestOfMore(s, l.version);
    var tail := ReadWasPrinted(two, rest, s + [l.version], next);
    lines := [l] + tail;
    AllFitMore(two, l, tail);
    RisingMore(Highest(s), l, tail);
    VersionsOfMore(s, l, tail);
    PrintedMore(l, tail, []);
  }

  lemma FullIsRefused(two: bool, input: seq<byte>, s: seq<Version>, next: u32)
    requires input != [] && |s| >= HISTORY_CAPACITY
    ensures ParseVersionLines(two, input, s, next).Refused?
  {
    hide ParseVersionLine, ValidCacheName;
  }

  /** A text that overflows was written by as many lines as the history holds, and one more. */
  lemma {:induction false} OverflowWasPrinted(two: bool, input: seq<byte>, s: seq<Version>, next: u32)
    returns (lines: seq<Line>, last: Line, rest: seq<byte>)
    requires |s| <= HISTORY_CAPACITY && ParseVersionLines(two, input, s, next) == Refused(CapacityExceeded)
    ensures AllFit(two, lines) && Rising(Highest(s), lines) && |s| + |lines| == HISTORY_CAPACITY
    ensures Fits(two, last) && last.fields != [] && last.version.sequence > Highest(s + Versions(lines))
    ensures input == Printed(lines) + (Join(last.fields) + [NEWLINE] + rest)
    decreases |input|
  {
    hide Fits, Join;
    var l, tail := FirstLineRead(two, input, s, next);
    if |s| == HISTORY_CAPACITY {
      lines, last, rest := [], l, tail;
      assert Printed([]) + input == input && s + Versions([]) == s;
    } else {
      hide ParseVersionLines, AllFit, Printed, Rising, ValidCacheName, Highest, Versions;
      HighestOfMore(s, l.version);
      var more;
      more, last, rest := OverflowWasPrinted(two, tail, s + [l.version], next);
      lines := [l] + more;
      AllFitMore(two, l, more);
      RisingMore(Highest(s), l, more);
      VersionsOfMore(s, l, more);
      PrintedMore(l, more, Join(last.fields) + [NEWLINE] + rest);
    }
  }

  lemma {:induction false} TwoRefusals(two: bool, input: seq<byte>, s: seq<Version>, next: u32)
    ensures ParseVersionLines(two, input, s, next).Refused? ==>
              ParseVersionLines(two, input, s, next).status in {CapacityExceeded, InvalidFormat}
    decreases |input|
  {
    hide ParseVersionLine, ValidCacheName;
    if input != [] && 0 < IndexOf(input, NEWLINE) < |input| {
      var length := IndexOf(input, NEWLINE);
      var line := ParseVersionLine(two, input[..length], Highest(s));
      if line.Some? && |s| < HISTORY_CAPACITY && ValidCacheName(line.value.objectName) {
        TwoRefusals(two, input[length + 1..], s + [line.value], next);
      }
    }
  }

  // ---- Texts -------------------------------------------------------------------------

  function Opening(two: bool): (s: seq<byte>)
    ensures |s| == PREFIX_LENGTH
  {
    Ascii(if two then "REVLINK-HISTORY\t2\t" else "REVLINK-HISTORY\t1\t")
  }

  lemma FormatIff(input: seq<byte>, two: bool)
    ensures FormatOf(input) == Some(two) <==> Opening(two) < input
  {
    assert Opening(true) == HeaderPrefix(DIGIT_TWO) && Opening(false) == HeaderPrefix(DIGIT_ONE);
    assert HeaderPrefix(DIGIT_TWO)[16] != HeaderPrefix(DIGIT_ONE)[16];
  }

  /** The text is the version, the next number and lines that fit, and they make up a valid log. */
  predicate Accepts(input: seq<byte>, two: bool, numeral: seq<byte>, lines: seq<Line>, log: Log) {
    && AllFit(two, lines) && Numeral(numeral, log.next, 10)
    && input == Opening(two) + numeral + [NEWLINE] + Printed(lines)
    && log.versions == Versions(lines) && LogValid(log)
  }

  /** The text reaches a line that fits beyond the 512 the history holds. */
  predicate Overflows(input: seq<byte>, two: bool, numeral: seq<byte>, next: u32, lines: seq<Line>, last: Line,
                      rest: seq<byte>)
  {
    && AllFit(two, lines) && Fits(two, last) && last.fields != [] && Numeral(numeral, next, 10) && next != 0
    && input == Opening(two) + numeral + [NEWLINE] + (Printed(lines) + (Join(last.fields) + [NEWLINE] + rest))
    && |lines| == 512 && Rising(0, lines) && last.version.sequence > Highest(Versions(lines))
  }

  lemma NumeralAvoidsNewline(s: seq<byte>, n: nat, maxDigits: nat)
    requires Numeral(s, n, maxDigits)
    ensures s != [] && NEWLINE !in s
  {
    hide Decimal;
    DigitsAvoid(n);
  }

  /** Reading the first line that is written so. */
  lemma OpeningReads(two: bool, numeral: seq<byte>, next: u32, rest: seq<byte>)
    requires Numeral(numeral, next, 10) && next != 0
    ensures var input := Opening(two) + numeral + [NEWLINE] + rest;
            && |input| > PREFIX_LENGTH && FormatOf(input) == Some(two) && ParseNext(input) == Some(next)
            && IndexOf(input, NEWLINE) < |input| && input[IndexOf(input, NEWLINE) + 1..] == rest
  {
    hide Numeral, ParseDecimal, FormatOf;
    var input := Opening(two) + numeral + [NEWLINE] + rest;
    NumeralAvoidsNewline(numeral, next, 10);
    NumeralIff(numeral, 10, U32_LIMIT, next);
    assert Opening(two) < input;
    FormatIff(input, two);
    var end := PREFIX_LENGTH + |numeral|;
    assert input[..end] == Opening(two) + numeral;
    IndexOfIs(input, NEWLINE, end);
    assert input[PREFIX_LENGTH..end] == numeral && input[end + 1..] == rest;
  }

  /** A first line that is read is written so. */
  lemma ReadOpening(input: seq<byte>) returns (numeral: seq<byte>)
    requires FormatOf(input).Some? && |input| > PREFIX_LENGTH && ParseNext(input).Some?
    ensures Numeral(numeral, ParseNext(input).value, 10) && ParseNext(input).value != 0
    ensures IndexOf(input, NEWLINE) < |input|
    ensures input == Opening(FormatOf(input).value) + numeral + [NEWLINE] + input[IndexOf(input, NEWLINE) + 1..]
  {
    hide Numeral, ParseDecimal, FormatOf;
    FormatIff(input, FormatOf(input).value);
    var end := IndexOf(input, NEWLINE);
    numeral := input[PREFIX_LENGTH..end];
    NumeralIff(numeral, 10, U32_LIMIT, ParseNext(input).value);
    assert input == input[..PREFIX_LENGTH] + numeral + [NEWLINE] + input[end + 1..];
  }

  /** Increasing numbers are rising ones. */
  lemma {:induction false} IncreasingRises(highest: nat, lines: seq<Line>)
    requires Increasing(Versions(lines)) && forall i | 0 <= i < |lines| :: lines[i].version.sequence > highest
    ensures Rising(highest, lines)
    decreases |lines|
  {
    if lines != [] {
      var s, tail := Versions(lines), lines[1..];
      assert forall i | 0 <= i < |tail| :: Versions(tail)[i] == s[i + 1] == tail[i].version;
      IncreasingRises(lines[0].version.sequence, tail);
    }
  }

  /** A text is accepted as a log exactly when it writes that log, and the log is valid. */
  lemma AcceptedIff(input: seq<byte>, log: Log)
    ensures ParseLog(input) == Read(log) <==> exists two, numeral, lines :: Accepts(input, two, numeral, lines, log)
  {
    hide ParseVersionLines, AllFit, Printed, Numeral, Versions, LogValid, Opening, FormatOf, ParseNext;
    if two, numeral, lines :| Accepts(input, two, numeral, lines, log) {
      AcceptedIsRead(input, two, numeral, lines, log);
    }
    if ParseLog(input) == Read(log) {
      FormatNeedsPrefix(input);
      NextNonzero(input);
      ParsedLogValid(input);
      var two, rest := FormatOf(input).value, input[IndexOf(input, NEWLINE) + 1..];
      var numeral := ReadOpening(input);
      var lines := ReadWasPrinted(two, rest, [], ParseNext(input).value);
      assert [] + Versions(lines) == Versions(lines);
      assert Accepts(input, two, numeral, lines, log);
    }
  }

  lemma ValidRises(log: Log, lines: seq<Line>)
    requires LogValid(log) && log.versions == Versions(lines)
    ensures Rising(0, lines) && |lines| <= HISTORY_CAPACITY && Highest(log.versions) < log.next
  {
    hide ValidPath, ValidCacheName;
    forall i | 0 <= i < |lines|
      ensures lines[i].version.sequence > 0
    {
      assert VersionWellFormed(log.versions[i]);
    }
    IncreasingRises(0, lines);
  }

  lemma AcceptedIsRead(input: seq<byte>, two: bool, numeral: seq<byte>, lines: seq<Line>, log: Log)
    requires Accepts(input, two, numeral, lines, log)
    ensures ParseLog(input) == Read(log)
  {
    hide AllFit, Printed, Numeral, Opening, FormatOf, ParseNext, Rising, Highest, ParseVersionLines;
    ValidRises(log, lines);
    NextOfValid(log);
    hide LogValid, Versions;
    OpeningReads(two, numeral, log.next, Printed(lines));
    NoneBefore();
    PrintedIsRead(two, lines, [], [], log.next);
    assert Printed(lines) + [] == Printed(lines) && [] + Versions(lines) == Versions(lines);
    ParseVersionLinesEnd(two, log.versions, log.next);
  }

  /** The history is reported full exactly when the text goes on beyond what it holds. */
  lemma OverflowIff(input: seq<byte>)
    ensures ParseLog(input) == Refused(CapacityExceeded) <==>
              exists two, numeral, next: u32, lines, last, rest ::
                Overflows(input, two, numeral, next, lines, last, rest)
    ensures ParseLog(input).Refused? ==> ParseLog(input).status in {CapacityExceeded, InvalidFormat}
  {
    hide ParseVersionLines, AllFit, Printed, Numeral, Versions, Rising, Opening, FormatOf, ParseNext, Fits, Join, Highest;
    if two, numeral, next: u32, lines, last, rest :| Overflows(input, two, numeral, next, lines, last, rest) {
      OverflowIsReported(input, two, numeral, next, lines, last, rest);
    }
    FormatNeedsPrefix(input);
    if FormatOf(input).Some? && ParseNext(input).Some? {
      NextNonzero(input);
      var two, rest := FormatOf(input).value, input[IndexOf(input, NEWLINE) + 1..];
      var next: u32 := ParseNext(input).value;
      TwoRefusals(two, rest, [], next);
      if ParseLog(input) == Refused(CapacityExceeded) {
        var numeral := ReadOpening(input);
        var lines, last, tail := OverflowWasPrinted(two, rest, [], next);
        assert [] + Versions(lines) == Versions(lines);
        NoneBefore();
        assert Overflows(input, two, numeral, next, lines, last, tail);
      }
    }
  }

  lemma NoneBefore()
    ensures Highest([]) == 0
  {
  }

  lemma OverflowIsReported(input: seq<byte>, two: bool, numeral: seq<byte>, next: u32, lines: seq<Line>, last: Line,
                           rest: seq<byte>)
    requires Overflows(input, two, numeral, next, lines, last, rest)
    ensures ParseLog(input) == Refused(CapacityExceeded)
  {
    hide AllFit, Printed, Numeral, Opening, FormatOf, ParseNext, Fits, Join, ParseVersionLine, ParseVersionLines, Rising,
         Highest;
    var tail := Join(last.fields) + [NEWLINE] + rest;
    OpeningReads(two, numeral, next, Printed(lines) + tail);
    NoneBefore();
    assert [] + Versions(lines) == Versions(lines);
    PrintedIsRead(two, lines, tail, [], next);
    LineReads(two, last, Highest(Versions(lines)), rest);
    ParseVersionLinesStep(two, tail, Versions(lines), next);
  }
}
