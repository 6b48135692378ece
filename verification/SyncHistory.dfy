/** The version history: an append-only log of observed file contents, and its text form. */
module SyncHistory {
  import opened Bytes
  import opened LedgerText

  const HISTORY_CAPACITY: nat := 512
  const LAST_SEQUENCE: nat := 0xffff_ffff

  datatype Version = Version(
    sequence: u32,
    path: seq<byte>,
    deviceTime: u32,
    size: u32,
    initialSync: u64,
    sha256: Digest,
    objectName: seq<byte>)

  datatype Log = Log(versions: seq<Version>, next: u32)

  const NO_VERSION: Version := Version(0, [], 0, 0, 0, NO_DIGEST, [])

  // ---- Invariant -------------------------------------------------------------------

  predicate VersionWellFormed(v: Version) {
    v.sequence != 0 && v.size != 0 && ValidPath(v.path) && ValidCacheName(v.objectName)
  }

  predicate Increasing(versions: seq<Version>) {
    forall i, j | 0 <= i < j < |versions| :: versions[i].sequence < versions[j].sequence
  }

  predicate LogValid(log: Log) {
    && |log.versions| <= HISTORY_CAPACITY
    && log.next != 0
    && Increasing(log.versions)
    && (forall i | 0 <= i < |log.versions| :: VersionWellFormed(log.versions[i]))
    && (forall i | 0 <= i < |log.versions| :: log.versions[i].sequence < log.next)
  }

  // ---- Recording -------------------------------------------------------------------

  function IndexOfVersion(s: seq<Version>, path: seq<byte>, sha256: Digest): (i: nat)
    ensures i <= |s|
    ensures i < |s| ==> s[i].path == path && s[i].sha256 == sha256
    ensures forall k | 0 <= k < i :: !(s[k].path == path && s[k].sha256 == sha256)
  {
    if s == [] || (s[0].path == path && s[0].sha256 == sha256) then 0
    else 1 + IndexOfVersion(s[1..], path, sha256)
  }

  datatype Observation = Observation(
    path: seq<byte>, deviceTime: u32, size: u32, initialSync: u64, sha256: Digest, objectName: seq<byte>)

  predicate Acceptable(o: Observation) {
    o.size != 0 && ValidPath(o.path) && ValidCacheName(o.objectName)
  }

  datatype Recorded = Recorded(status: Status, log: Log, sequence: u32)

  function RecordSpec(log: Log, o: Observation): Recorded {
    var i := IndexOfVersion(log.versions, o.path, o.sha256);
    if !Acceptable(o) || log.next == 0 then Recorded(InvalidArgument, log, 0)
    else if i < |log.versions| then Recorded(Ok, log, log.versions[i].sequence)
    else if |log.versions| >= HISTORY_CAPACITY || log.next == LAST_SEQUENCE then Recorded(CapacityExceeded, log, 0)
    else Recorded(Ok, Log(log.versions + [VersionOf(log.next, o)], log.next + 1), log.next)
  }

  function VersionOf(sequence: u32, o: Observation): Version {
    Version(sequence, o.path, o.deviceTime, o.size, o.initialSync, o.sha256, o.objectName)
  }

  lemma RecordKeepsValid(log: Log, o: Observation)
    requires LogValid(log)
    ensures LogValid(RecordSpec(log, o).log)
  {
    hide ValidPath, ValidCacheName;
  }

  // ---- Text ------------------------------------------------------------------------

  /** "REVLINK-HISTORY", a tab, the version digit, a tab. */
  function HeaderPrefix(digit: byte): seq<byte> {
    [0x52, 0x45, 0x56, 0x4c, 0x49, 0x4e, 0x4b, 0x2d, 0x48, 0x49, 0x53, 0x54, 0x4f, 0x52, 0x59, 0x09, digit, 0x09]
  }

  const PREFIX_LENGTH: nat := 18
  const DIGIT_ONE: byte := 0x31
  const DIGIT_TWO: byte := 0x32

  function HeaderLine(next: u32): seq<byte> {
    HeaderPrefix(DIGIT_TWO) + Decimal(next) + [NEWLINE]
  }

  function VersionFields(v: Version): seq<seq<byte>> {
    [Decimal(v.sequence), v.path, Decimal(v.deviceTime), Decimal(v.size), Decimal(v.initialSync), Hex(v.sha256),
     v.objectName]
  }

  function VersionLine(v: Version): seq<byte> {
    Join(VersionFields(v)) + [NEWLINE]
  }

  function VersionLines(s: seq<Version>): seq<byte> {
    if s == [] then [] else VersionLine(s[0]) + VersionLines(s[1..])
  }

  function LogText(log: Log): seq<byte> {
    HeaderLine(log.next) + VersionLines(log.versions)
  }

  datatype Reading = Read(log: Log) | Refused(status: Status)

  /** The row, except for the check of the object name, which comes after the capacity check. */
  function ParseVersionFields(two: bool, fields: seq<seq<byte>>, highest: nat): Option<Version> {
    if |fields| != (if two then 7 else 6) then None
    else
      var sequence := ParseDecimal(fields[0], 10, U32_LIMIT);
      var deviceTime := ParseDecimal(fields[2], 10, U32_LIMIT);
      var size := ParseDecimal(fields[3], 10, U32_LIMIT);
      var initialSync := if two then ParseDecimal(fields[4], 20, U64_LIMIT) else Some(0);
      var digestField := if two then fields[5] else fields[4];
      var objectField := if two then fields[6] else fields[5];
      var digest := if |digestField| == 2 * SHA256_BYTES then Unhex(digestField) else None;
      if sequence == None || sequence.value == 0 || sequence.value <= highest || !ValidPath(fields[1])
         || deviceTime == None || size == None || size.value == 0 || initialSync == None || digest == None
         || |objectField| >= CACHE_NAME_CAPACITY
      then None
      else Some(Version(sequence.value, fields[1], deviceTime.value, size.value, initialSync.value, digest.value,
                        CString(objectField)))
  }

  function ParseVersionLine(two: bool, line: seq<byte>, highest: nat): Option<Version> {
    var fields := Fields(line);
    if |fields| <= MAX_FIELDS && NoneEmpty(fields) then ParseVersionFields(two, fields, highest) else None
  }

  function Highest(s: seq<Version>): nat {
    if s == [] then 0 else s[|s| - 1].sequence
  }

  function ParseVersionLines(two: bool, input: seq<byte>, s: seq<Version>, next: u32): Reading
    decreases |input|
  {
    if input == [] then (if Highest(s) >= next then Refused(InvalidFormat) else Read(Log(s, next)))
    else
      var length := IndexOf(input, NEWLINE);
      if length == |input| || length == 0 then Refused(InvalidFormat)
      else match ParseVersionLine(two, input[..length], Highest(s))
           case None => Refused(InvalidFormat)
           case Some(v) =>
             if |s| >= HISTORY_CAPACITY then Refused(CapacityExceeded)
             else if !ValidCacheName(v.objectName) then Refused(InvalidFormat)
             else ParseVersionLines(two, input[length + 1..], s + [v], next)
  }

  function FormatOf(input: seq<byte>): Option<bool> {
    if |input| > PREFIX_LENGTH && HeaderPrefix(DIGIT_TWO) <= input then Some(true)
    else if |input| > PREFIX_LENGTH && HeaderPrefix(DIGIT_ONE) <= input then Some(false)
    else None
  }

  /** The number between the header prefix and the first newline. */
  function ParseNext(input: seq<byte>): Option<nat>
    requires |input| > PREFIX_LENGTH
  {
    var newline := IndexOf(input, NEWLINE);
    if newline == |input| || newline < PREFIX_LENGTH then None
    else
      var next := ParseDecimal(input[PREFIX_LENGTH..newline], 10, U32_LIMIT);
      if next == Some(0) then None else next
  }

  function ParseLog(input: seq<byte>): Reading {
    match FormatOf(input)
    case None => Refused(InvalidFormat)
    case Some(two) =>
      match ParseNext(input)
      case None => Refused(InvalidFormat)
      case Some(next) => ParseVersionLines(two, input[IndexOf(input, NEWLINE) + 1..], [], next)
  }

  // ---- Whatever is accepted is a valid log --------------------------------------------

  /** What the printer insists on. */
  predicate Printable(log: Log) {
    log.next != 0 && forall i | 0 <= i < |log.versions| :: VersionWellFormed(log.versions[i])
  }

  lemma AppendKeepsShape(s: seq<Version>, v: Version)
    requires |s| < HISTORY_CAPACITY && Increasing(s) && v.sequence > Highest(s)
    requires forall i | 0 <= i < |s| :: VersionWellFormed(s[i])
    requires VersionWellFormed(v)
    ensures Increasing(s + [v])
    ensures forall i | 0 <= i < |s + [v]| :: VersionWellFormed((s + [v])[i])
    ensures Highest(s + [v]) == v.sequence
  {
    hide VersionWellFormed;
  }

  lemma ParsedVersionFits(two: bool, line: seq<byte>, highest: nat)
    ensures ParseVersionLine(two, line, highest).Some? ==>
              var v := ParseVersionLine(two, line, highest).value;
              v.sequence > highest && v.sequence != 0 && v.size != 0 && ValidPath(v.path)
  {
    hide Fields, ValidPath, Unhex, ParseDecimal;
  }

  lemma {:induction false} ReadLinesValid(two: bool, input: seq<byte>, s: seq<Version>, next: u32)
    requires |s| <= HISTORY_CAPACITY && Increasing(s) && forall i | 0 <= i < |s| :: VersionWellFormed(s[i])
    requires next != 0 && ParseVersionLines(two, input, s, next).Read?
    ensures LogValid(ParseVersionLines(two, input, s, next).log)
    decreases |input|
  {
    hide ParseVersionLine, ValidPath, ValidCacheName;
    if input != [] {
      var line := input[..IndexOf(input, NEWLINE)];
      var v := ParseVersionLine(two, line, Highest(s)).value;
      ParsedVersionFits(two, line, Highest(s));
      AppendKeepsShape(s, v);
      ReadLinesValid(two, input[IndexOf(input, NEWLINE) + 1..], s + [v], next);
    } else {
      LastIsHighest(s, next);
    }
  }

  lemma LastIsHighest(s: seq<Version>, next: u32)
    requires Increasing(s) && Highest(s) < next
    ensures forall i | 0 <= i < |s| :: s[i].sequence < next
  {
    assert forall i | 0 <= i < |s| - 1 :: s[i].sequence < s[|s| - 1].sequence;
  }

  lemma ParsedLogValid(input: seq<byte>)
    requires ParseLog(input).Read?
    ensures LogValid(ParseLog(input).log)
  {
    hide ParseVersionLines, ParseNext;
    NextNonzero(input);
    ReadLinesValid(FormatOf(input).value, input[IndexOf(input, NEWLINE) + 1..], [], ParseNext(input).value);
  }

  lemma NextNonzero(input: seq<byte>)
    requires |input| > PREFIX_LENGTH
    ensures ParseNext(input).Some? ==> 0 < ParseNext(input).value < U32_LIMIT && IndexOf(input, NEWLINE) < |input|
  {
    hide IndexOf, AllDigits, Value;
  }

  // ---- Round trip --------------------------------------------------------------------

  lemma VersionFieldsClean(v: Version)
    requires VersionWellFormed(v)
    ensures |VersionFields(v)| == 7
    ensures forall i | 0 <= i < |VersionFields(v)| ::
              TAB !in VersionFields(v)[i] && NEWLINE !in VersionFields(v)[i] && VersionFields(v)[i] != []
  {
    hide Decimal, Hex;
    DigitsAvoid(v.sequence);
    DigitsAvoid(v.deviceTime);
    DigitsAvoid(v.size);
    DigitsAvoid(v.initialSync);
    HexIsAlphanumeric(v.sha256);
    var f := VersionFields(v);
    assert forall i | 0 <= i < 7 :: TAB !in f[i] && NEWLINE !in f[i] && f[i] != [];
  }

  lemma VersionFieldsReadBack(v: Version, highest: nat)
    requires VersionWellFormed(v) && v.sequence > highest
    ensures ParseVersionFields(true, VersionFields(v), highest) == Some(v)
  {
    hide Decimal, Hex, Unhex, ParseDecimal, ValidPath, ValidCacheName, CString;
    DecimalRoundTrip(v.sequence);
    DecimalRoundTrip(v.deviceTime);
    DecimalRoundTrip(v.size);
    DecimalRoundTrip(v.initialSync);
    UnhexHex(v.sha256);
    CStringOfValid(v.objectName);
    ValidNameLength(v.objectName);
  }

  lemma VersionLineReadsBack(v: Version, highest: nat, rest: seq<byte>)
    requires VersionWellFormed(v) && v.sequence > highest
    ensures var input := VersionLine(v) + rest;
            var length := IndexOf(input, NEWLINE);
            && 0 < length < |input|
            && ParseVersionLine(true, input[..length], highest) == Some(v)
            && input[length + 1..] == rest
  {
    hide VersionWellFormed, VersionFields, Join, Fields, ParseVersionFields;
    var f := VersionFields(v);
    VersionFieldsClean(v);
    VersionFieldsReadBack(v, highest);
    FieldsOfJoin(f);
    JoinAvoids(f, NEWLINE);
    JoinNonempty(f);
    var line := Join(f);
    var input := VersionLine(v) + rest;
    assert input[..|line|] == line;
    IndexOfIs(input, NEWLINE, |line|);
    assert input[|line| + 1..] == rest;
  }

  lemma NextVersion(log: Log, k: nat)
    requires LogValid(log) && k < |log.versions|
    ensures VersionWellFormed(log.versions[k]) && ValidCacheName(log.versions[k].objectName)
    ensures log.versions[k].sequence > Highest(log.versions[..k])
    ensures |log.versions[..k]| < HISTORY_CAPACITY
  {
    hide ValidPath, ValidCacheName;
    if k > 0 {
      assert log.versions[..k][k - 1] == log.versions[k - 1];
    }
  }

  lemma {:induction false} VersionLinesReadBack(log: Log, k: nat)
    requires LogValid(log) && k <= |log.versions|
    ensures ParseVersionLines(true, VersionLines(log.versions[k..]), log.versions[..k], log.next) == Read(log)
    decreases |log.versions| - k
  {
    hide LogValid, ParseVersionLine, VersionLine, ValidCacheName;
    var s := log.versions;
    if k == |s| {
      assert s[k..] == [] && s[..k] == s;
      HighestBelowNext(log);
    } else {
      assert s[k..][0] == s[k] && s[k..][1..] == s[k + 1..];
      NextVersion(log, k);
      VersionLineReadsBack(s[k], Highest(s[..k]), VersionLines(s[k + 1..]));
      assert s[..k + 1] == s[..k] + [s[k]];
      VersionLinesReadBack(log, k + 1);
    }
  }

  lemma HighestBelowNext(log: Log)
    requires LogValid(log)
    ensures Highest(log.versions) < log.next
  {
  }

  lemma HeaderReadsBack(next: u32, rest: seq<byte>)
    requires next != 0
    ensures var input := HeaderLine(next) + rest;
            && FormatOf(input) == Some(true)
            && ParseNext(input) == Some(next)
            && IndexOf(input, NEWLINE) + 1 == |HeaderLine(next)|
            && input[IndexOf(input, NEWLINE) + 1..] == rest
  {
    hide Decimal, ParseDecimal;
    DecimalRoundTrip(next);
    DigitsAvoid(next);
    var front := HeaderPrefix(DIGIT_TWO) + Decimal(next);
    var input := HeaderLine(next) + rest;
    assert input[..|front|] == front;
    IndexOfIs(input, NEWLINE, |front|);
    assert input[PREFIX_LENGTH..|front|] == Decimal(next);
    assert input[|front| + 1..] == rest;
  }

  /** Printing a log and parsing the text gives back the same versions and the same next number. */
  lemma LogRoundTrip(log: Log)
    requires LogValid(log)
    ensures ParseLog(LogText(log)) == Read(log)
  {
    hide ParseVersionLines, VersionLines, HeaderLine, FormatOf, ParseNext;
    NextOfValid(log);
    HeaderReadsBack(log.next, VersionLines(log.versions));
    VersionLinesReadBack(log, 0);
    assert log.versions[0..] == log.versions && log.versions[..0] == [];
    FormatNeedsPrefix(LogText(log));
  }

  lemma NextOfValid(log: Log)
    requires LogValid(log)
    ensures log.next != 0
  {
  }

  lemma FormatNeedsPrefix(input: seq<byte>)
    ensures FormatOf(input).Some? ==> |input| > PREFIX_LENGTH
  {
  }

  // ---- Runs ------------------------------------------------------------------------

  datatype Step = Record(observation: Observation) | Reload

  /** Recording, or saving and loading the saved text. */
  function Apply(log: Log, step: Step): Log {
    match step
    case Record(o) => RecordSpec(log, o).log
    case Reload => match ParseLog(LogText(log)) case Read(reloaded) => reloaded case Refused(_) => log
  }

  function Run(log: Log, steps: seq<Step>): Log
    decreases |steps|
  {
    if steps == [] then log else Run(Apply(log, steps[0]), steps[1..])
  }

  /** Over any run, old versions stay in place and every new number is at least the old next number. */
  lemma {:induction false} HistoryAppendOnly(log: Log, steps: seq<Step>)
    requires LogValid(log)
    ensures LogValid(Run(log, steps))
    ensures log.versions <= Run(log, steps).versions
    ensures log.next <= Run(log, steps).next
    ensures forall i | |log.versions| <= i < |Run(log, steps).versions| ::
              log.next <= Run(log, steps).versions[i].sequence < Run(log, steps).next
    decreases |steps|
  {
    hide ParseLog, LogText, ValidPath, ValidCacheName;
    if steps != [] {
      var now := Apply(log, steps[0]);
      if steps[0].Record? {
        RecordKeepsValid(log, steps[0].observation);
      } else {
        LogRoundTrip(log);
      }
      HistoryAppendOnly(now, steps[1..]);
      assert forall i | |log.versions| <= i < |now.versions| :: Run(log, steps).versions[i] == now.versions[i];
    }
  }

  /** Once a content has a number, observing it again always answers with that number. */
  lemma KnownContentKeepsNumber(log: Log, o: Observation, steps: seq<Step>, again: Observation)
    requires LogValid(log) && RecordSpec(log, o).status == Ok
    requires Acceptable(again) && again.path == o.path && again.sha256 == o.sha256
    ensures var later := Run(RecordSpec(log, o).log, steps);
            RecordSpec(later, again) == Recorded(Ok, later, RecordSpec(log, o).sequence)
  {
    hide Acceptable, Run, LogValid;
    RecordKeepsValid(log, o);
    var first := RecordSpec(log, o).log;
    var later := Run(first, steps);
    HistoryAppendOnly(first, steps);
    NextOfValid(later);
    var i := IndexOfVersion(log.versions, o.path, o.sha256);
    IndexOfVersionFirst(first.versions, o.path, o.sha256, i);
    assert forall k | 0 <= k <= i :: later.versions[k] == first.versions[k];
    IndexOfVersionFirst(later.versions, o.path, o.sha256, i);
  }

  lemma IndexOfVersionFirst(s: seq<Version>, path: seq<byte>, sha256: Digest, i: nat)
    requires i < |s| && s[i].path == path && s[i].sha256 == sha256
    requires forall k | 0 <= k < i :: !(s[k].path == path && s[k].sha256 == sha256)
    ensures IndexOfVersion(s, path, sha256) == i
  {
  }

  // ---- The history object --------------------------------------------------------------

  class History {
    const entries: array<Version>
    var count: nat
    var nextSequence: u32

    ghost predicate Layout()
      reads this, entries
    {
      entries.Length == HISTORY_CAPACITY && count <= HISTORY_CAPACITY
    }

    ghost function Contents(): Log
      requires count <= entries.Length
      reads this, entries
    {
      Log(entries[..count], nextSequence)
    }

    ghost predicate Valid()
      reads this, entries
    {
      Layout() && LogValid(Contents())
    }

    constructor ()
      ensures Valid() && Contents() == Log([], 1) && fresh(entries)
    {
      entries := new Version[HISTORY_CAPACITY](_ => NO_VERSION);
      count := 0;
      nextSequence := 1;
    }

    method FindVersion(path: seq<byte>, sha256: Digest) returns (found: Option<Version>)
      requires Layout()
      ensures found == var s := Contents().versions;
                       var i := IndexOfVersion(s, path, sha256);
                       if ValidPath(path) && i < |s| then Some(s[i]) else None
    {
      if !ValidPath(path) {
        return None;
      }
      var index := 0;
      ghost var s := Contents().versions;
      while index < count
        invariant index <= count
        invariant forall k | 0 <= k < index :: !(s[k].path == path && s[k].sha256 == sha256)
      {
        if entries[index].path == path && entries[index].sha256 == sha256 {
          IndexOfVersionFirst(s, path, sha256, index);
          return Some(entries[index]);
        }
        index := index + 1;
      }
      assert IndexOfVersion(s, path, sha256) == |s|;
      return None;
    }

    method RecordAt(o: Observation) returns (status: Status, sequence: u32)
      requires Layout()
      modifies this, entries
      ensures Layout() && (old(Valid()) ==> Valid())
      ensures Recorded(status, Contents(), sequence) == RecordSpec(old(Contents()), o)
    {
      hide ValidPath, ValidCacheName, VersionWellFormed;
      if o.size == 0 || !ValidPath(o.path) || !ValidCacheName(o.objectName) || nextSequence == 0 {
        return InvalidArgument, 0;
      }
      ghost var before := Contents();
      if LogValid(before) {
        RecordKeepsValid(before, o);
      }
      var existing := FindVersion(o.path, o.sha256);
      if existing.Some? {
        return Ok, existing.value.sequence;
      }
      if count >= HISTORY_CAPACITY || nextSequence == LAST_SEQUENCE {
        return CapacityExceeded, 0;
      }
      entries[count] := VersionOf(nextSequence, o);
      sequence := nextSequence;
      count, nextSequence := count + 1, nextSequence + 1;
      assert entries[..count] == before.versions + [VersionOf(sequence, o)];
      return Ok, sequence;
    }

    /** Prints the log; on success the buffer holds exactly its text. */
    method Serialize(output: array<byte>) returns (status: Status, length: nat)
      requires Layout()
      modifies output
      ensures status == Ok <==> Printable(Contents()) && |LogText(Contents())| <= output.Length
      ensures status == Ok ==> length == |LogText(Contents())| && output[..length] == LogText(Contents())
      ensures Printable(Contents()) && status != Ok ==>
                status == BufferTooSmall && output.Length < length <= |LogText(Contents())|
      ensures status == InvalidArgument ==> !Printable(Contents())
      ensures Valid() ==> (status == Ok <==> |LogText(Contents())| <= output.Length)
    {
      hide VersionLine, VersionLines, HeaderLine, HeaderPrefix, Decimal, VersionPieces, LogText, VersionWellFormed;
      if nextSequence == 0 {
        return InvalidArgument, 0;
      }
      LogTextParts(Contents());
      var ok, used := Append(output, 0, HeaderPrefix(DIGIT_TWO) + Decimal(nextSequence) + [NEWLINE]);
      if !ok {
        return BufferTooSmall, used;
      }
      for index := 0 to count
        invariant 0 <= used <= output.Length
        invariant forall k | 0 <= k < index :: VersionWellFormed(entries[k])
        invariant output[..used] == HeaderLine(nextSequence) + VersionLines(entries[..count][..index])
      {
        var v := entries[index];
        if !VersionWellFormed(v) {
          assert Contents().versions[index] == v;
          return InvalidArgument, 0;
        }
        NextVersionLine(entries[..count], index);
        VersionPiecesAreLine(v);
        var total;
        ok, total := AppendAll(output, used, VersionPieces(v));
        if !ok {
          return BufferTooSmall, total;
        }
        used := total;
      }
      assert entries[..count][..count] == entries[..count];
      return Ok, used;
    }

    /** Transactional, with memory for a second copy: a refused text leaves the history untouched. */
    method Parse(input: seq<byte>, memory: bool) returns (status: Status)
      requires Layout()
      modifies this, entries
      ensures Layout() && (old(Valid()) ==> Valid())
      ensures status != AllocationFailed || memory ==>
                status == match ParseLog(input) case Read(_) => Ok case Refused(s) => s
      ensures status == Ok ==> Valid() && ParseLog(input) == Read(Contents())
      ensures status != Ok ==> Contents() == old(Contents())
    {
      hide LogValid, ParseVersionLines, ParseDecimal, IndexOf;
      var two := FormatOf(input);
      if two == None {
        return InvalidFormat;
      }
      FormatNeedsPrefix(input);
      assert input[0..] == input;
      var newline := LineLength(input, 0);
      if newline == |input| || newline < PREFIX_LENGTH {
        return InvalidFormat;
      }
      var next := ReadDecimal(input[PREFIX_LENGTH..newline], 10, U32_LIMIT);
      if next == None || next.value == 0 {
        return InvalidFormat;
      }
      NextNonzero(input);
      if !memory {
        return AllocationFailed;
      }
      var scratch := new History();
      scratch.nextSequence := next.value;
      status := scratch.LoadLines(two.value, input, newline + 1);
      if status != Ok {
        return;
      }
      ParsedLogValid(input);
      Adopt(scratch);
    }

    method Adopt(scratch: History)
      requires Layout() && scratch.Layout() && scratch.entries != entries
      modifies this, entries
      ensures Layout() && Contents() == old(scratch.Contents())
    {
      forall i | 0 <= i < HISTORY_CAPACITY {
        entries[i] := scratch.entries[i];
      }
      count, nextSequence := scratch.count, scratch.nextSequence;
    }

    /** The line loop, filling an empty scratch history. */
    method LoadLines(two: bool, input: seq<byte>, start: nat) returns (status: Status)
      requires Layout() && Contents().versions == [] && start <= |input|
      modifies this, entries
      ensures Layout()
      ensures ParseVersionLines(two, input[start..], [], old(nextSequence))
           == if status == Ok then Read(Contents()) else Refused(status)
    {
      hide ParseVersionLine, ParseVersionLines, ValidCacheName;
      var offset := start;
      var highest := 0;
      ghost var next := nextSequence;
      while offset < |input|
        invariant start <= offset <= |input|
        invariant Layout() && nextSequence == next && highest == Highest(Contents().versions)
        invariant ParseVersionLines(two, input[start..], [], next)
               == ParseVersionLines(two, input[offset..], Contents().versions, next)
      {
        var length := LineLength(input, offset);
        ghost var rest, s := input[offset..], Contents().versions;
        ParseVersionLinesStep(two, rest, s, next);
        if length == |input| - offset || length == 0 {
          return InvalidFormat;
        }
        assert rest[..length] == input[offset..offset + length] && rest[length + 1..] == input[offset + length + 1..];
        var version := ReadVersion(two, input[offset..offset + length], highest);
        if version == None {
          return InvalidFormat;
        }
        if !ValidCacheName(version.value.objectName) || count >= HISTORY_CAPACITY {
          return if count >= HISTORY_CAPACITY then CapacityExceeded else InvalidFormat;
        }
        entries[count] := version.value;
        count := count + 1;
        assert Contents().versions == s + [version.value];
        highest := version.value.sequence;
        offset := offset + length + 1;
      }
      ParseVersionLinesEnd(two, Contents().versions, next);
      assert input[offset..] == [];
      return if highest >= nextSequence then InvalidFormat else Ok;
    }
  }

  lemma ParseVersionLinesEnd(two: bool, s: seq<Version>, next: u32)
    ensures ParseVersionLines(two, [], s, next) == if Highest(s) >= next then Refused(InvalidFormat) else Read(Log(s, next))
  {
  }

  /** One turn of the line loop. */
  lemma ParseVersionLinesStep(two: bool, input: seq<byte>, s: seq<Version>, next: u32)
    requires input != []
    ensures var length := IndexOf(input, NEWLINE);
            ParseVersionLines(two, input, s, next) ==
            if length == |input| || length == 0 then Refused(InvalidFormat)
            else if ParseVersionLine(two, input[..length], Highest(s)) == None then Refused(InvalidFormat)
            else
              var v := ParseVersionLine(two, input[..length], Highest(s)).value;
              if |s| >= HISTORY_CAPACITY then Refused(CapacityExceeded)
              else if !ValidCacheName(v.objectName) then Refused(InvalidFormat)
              else ParseVersionLines(two, input[length + 1..], s + [v], next)
  {
    hide ParseVersionLine, ValidCacheName;
  }

  lemma LogTextParts(log: Log)
    ensures LogText(log) == HeaderLine(log.next) + VersionLines(log.versions)
    ensures HeaderLine(log.next) == HeaderPrefix(DIGIT_TWO) + Decimal(log.next) + [NEWLINE]
    ensures HeaderLine(log.next) + VersionLines(log.versions[..0]) == HeaderLine(log.next)
  {
    hide Decimal;
    assert log.versions[..0] == [];
  }

  lemma {:induction false} VersionLinesAppend(s: seq<Version>, t: seq<Version>)
    ensures VersionLines(s + t) == VersionLines(s) + VersionLines(t)
    decreases |s|
  {
    hide VersionLine;
    if s == [] {
      assert s + t == t;
    } else {
      VersionLinesAppend(s[1..], t);
      assert (s + t)[1..] == s[1..] + t;
    }
  }

  lemma NextVersionLine(s: seq<Version>, index: nat)
    requires index < |s|
    ensures VersionLines(s[..index + 1]) == VersionLines(s[..index]) + VersionLine(s[index])
    ensures |VersionLines(s[..index + 1])| <= |VersionLines(s)|
  {
    hide VersionLine;
    var one := [s[index]];
    assert s[..index + 1] == s[..index] + one;
    assert s == s[..index + 1] + s[index + 1..];
    VersionLinesAppend(s[..index], one);
    VersionLinesAppend(s[..index + 1], s[index + 1..]);
    assert one[1..] == [] && VersionLines(one) == VersionLine(s[index]) + VersionLines([]);
  }

  /** What is appended for a version, piece by piece. */
  function VersionPieces(v: Version): seq<seq<byte>> {
    var prefix := Decimal(v.sequence) + [TAB] + v.path + [TAB] + Decimal(v.deviceTime) + [TAB] + Decimal(v.size)
                  + [TAB] + Decimal(v.initialSync) + [TAB];
    [prefix, Hex(v.sha256), [TAB], v.objectName, [NEWLINE]]
  }

  lemma VersionPiecesAreLine(v: Version)
    ensures Flatten(VersionPieces(v)) == VersionLine(v)
  {
    hide Decimal, Hex, Join, Flatten;
    var f, p := VersionFields(v), VersionPieces(v);
    JoinSeven(f);
    FlattenFive(p);
  }

  lemma JoinSeven(f: seq<seq<byte>>)
    requires |f| == 7
    ensures Join(f) == f[0] + [TAB] + (f[1] + [TAB] + (f[2] + [TAB] + (f[3] + [TAB] + (f[4] + [TAB] + (f[5] + [TAB] + f[6])))))
  {
    JoinMore(f);
    JoinMore(f[1..]);
    JoinMore(f[2..]);
    JoinMore(f[3..]);
    JoinMore(f[4..]);
    JoinMore(f[5..]);
    assert f[6..] == [f[6]];
  }

  lemma FlattenFive(p: seq<seq<byte>>)
    requires |p| == 5
    ensures Flatten(p) == p[0] + (p[1] + (p[2] + (p[3] + p[4])))
  {
    FlattenMore(p);
    FlattenMore(p[1..]);
    FlattenMore(p[2..]);
    FlattenMore(p[3..]);
    FlattenMore(p[4..]);
    assert p[5..] == [];
  }

  /** One line: split, check and convert each column. */
  method ReadVersion(two: bool, line: seq<byte>, highest: nat) returns (result: Option<Version>)
    ensures result == ParseVersionLine(two, line, highest)
  {
    hide Fields, ParseDecimal, Unhex, ValidPath, IndexOf;
    var split := SplitLine(line);
    if split == None || |split.value| != (if two then 7 else 6) {
      return None;
    }
    var fields := split.value;
    var digestField := if two then fields[5] else fields[4];
    var objectField := if two then fields[6] else fields[5];
    var sequence := ReadDecimal(fields[0], 10, U32_LIMIT);
    var deviceTime := ReadDecimal(fields[2], 10, U32_LIMIT);
    var size := ReadDecimal(fields[3], 10, U32_LIMIT);
    var initialSync := Some(0);
    if two {
      initialSync := ReadDecimal(fields[4], 20, U64_LIMIT);
      DecimalInRange(fields[4], 20, U64_LIMIT);
    }
    var digest := ReadHex(digestField, SHA256_BYTES);
    if sequence == None || sequence.value == 0 || sequence.value <= highest || !ValidPath(fields[1])
       || deviceTime == None || size == None || size.value == 0 || initialSync == None || digest == None
       || |objectField| >= CACHE_NAME_CAPACITY {
      return None;
    }
    DecimalInRange(fields[0], 10, U32_LIMIT);
    DecimalInRange(fields[2], 10, U32_LIMIT);
    DecimalInRange(fields[3], 10, U32_LIMIT);
    return Some(Version(sequence.value, fields[1], deviceTime.value, size.value, initialSync.value, digest.value,
                        CString(objectField)));
  }
}
