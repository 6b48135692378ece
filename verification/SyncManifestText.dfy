/** The tab-separated text form of the manifest: printer, versioned parser, round trip. */
module SyncManifestText {
  import opened Bytes
  import opened LedgerText
  import opened SyncManifest

  datatype Version = V1 | V2 | V3

  datatype Outcome = Parsed(table: Table) | Failed(status: Status)

  /** "REVLINK-MANIFEST", a tab, the version digit, a newline. */
  function Header(version: Version): seq<byte> {
    [0x52, 0x45, 0x56, 0x4c, 0x49, 0x4e, 0x4b, 0x2d, 0x4d, 0x41, 0x4e, 0x49, 0x46, 0x45, 0x53, 0x54, 0x09,
     match version case V1 => 0x31 case V2 => 0x32 case V3 => 0x33, 0x0a]
  }

  const HEADER_LENGTH: nat := 19

  // ---- Printing --------------------------------------------------------------------

  function PresenceByte(presence: Presence): byte {
    match presence case Unknown => 0x30 case OnDevice => 0x31 case Absent => 0x32
  }

  function EntryFields(e: Entry): seq<seq<byte>> {
    [e.path, Decimal(e.deviceTime), Decimal(e.size), Decimal(e.initialSync), Hex(e.sha256), e.cacheName,
     [PresenceByte(e.presence)]]
  }

  function EntryLine(e: Entry): seq<byte> {
    Join(EntryFields(e)) + [NEWLINE]
  }

  function Lines(t: Table): seq<byte> {
    if t == [] then [] else EntryLine(t[0]) + Lines(t[1..])
  }

  function Text(t: Table): seq<byte> {
    Header(V3) + Lines(t)
  }

  // ---- Parsing ---------------------------------------------------------------------

  function ExpectedFields(version: Version): nat {
    match version case V1 => 5 case V2 => 6 case V3 => 7
  }

  function ParsePresence(version: Version, fields: seq<seq<byte>>): Option<Presence>
    requires |fields| == ExpectedFields(version)
  {
    if version != V3 then Some(Unknown)
    else if fields[6] == [0x30] then Some(Unknown)
    else if fields[6] == [0x31] then Some(OnDevice)
    else if fields[6] == [0x32] then Some(Absent)
    else None
  }

  function ParseFields(version: Version, fields: seq<seq<byte>>): Option<Entry> {
    if |fields| != ExpectedFields(version) then None
    else
      var synced := version != V1;
      var cacheField := if synced then fields[5] else fields[4];
      var digestField := if synced then fields[4] else fields[3];
      var deviceTime := ParseDecimal(fields[1], 10, U32_LIMIT);
      var size := ParseDecimal(fields[2], 10, U32_LIMIT);
      var initialSync := if synced then ParseDecimal(fields[3], 20, U64_LIMIT) else Some(0);
      var digest := if |digestField| == 2 * SHA256_BYTES then Unhex(digestField) else None;
      var presence := ParsePresence(version, fields);
      if !ValidPath(fields[0]) || |cacheField| >= CACHE_NAME_CAPACITY
         || deviceTime == None || size == None || size == Some(0) || initialSync == None || digest == None
         || !ValidCacheName(CString(cacheField)) || presence == None
      then None
      else Some(Entry(fields[0], deviceTime.value, size.value, initialSync.value, digest.value,
                      CString(cacheField), presence.value))
  }

  function ParseLine(version: Version, line: seq<byte>): Option<Entry> {
    var fields := Fields(line);
    if |fields| <= MAX_FIELDS && NoneEmpty(fields) then ParseFields(version, fields) else None
  }

  /** A parsed row enters the table as an upsert followed by its presence. */
  function Admit(t: Table, e: Entry): Upserted {
    var u := UpsertSpec(t, e.path, e.deviceTime, e.size, e.initialSync, e.sha256, e.cacheName);
    if u.status != Ok then u else Upserted(Ok, SetPresenceSpec(u.table, e.path, e.presence))
  }

  function ParseLines(version: Version, input: seq<byte>, t: Table): Outcome
    decreases |input|
  {
    if input == [] then Parsed(t)
    else
      var length := IndexOf(input, NEWLINE);
      if length == |input| || length == 0 then Failed(InvalidFormat)
      else match ParseLine(version, input[..length])
           case None => Failed(InvalidFormat)
           case Some(e) =>
             var admitted := Admit(t, e);
             if admitted.status == CapacityExceeded then Failed(CapacityExceeded)
             else if admitted.status != Ok then Failed(InvalidFormat)
             else ParseLines(version, input[length + 1..], admitted.table)
  }

  function VersionOf(input: seq<byte>): Option<Version> {
    if Header(V3) <= input then Some(V3)
    else if Header(V2) <= input then Some(V2)
    else if Header(V1) <= input then Some(V1)
    else None
  }

  function ParseText(input: seq<byte>): Outcome {
    match VersionOf(input)
    case None => Failed(InvalidFormat)
    case Some(version) => ParseLines(version, input[HEADER_LENGTH..], [])
  }

  // ---- Normal form of whatever is accepted -----------------------------------------

  lemma ParsedFieldsWellFormed(version: Version, fields: seq<seq<byte>>)
    ensures ParseFields(version, fields).Some? ==> WellFormed(ParseFields(version, fields).value)
  {
  }

  lemma {:induction false} ParsedLinesNormal(version: Version, input: seq<byte>, t: Table)
    requires NormalForm(t) && ParseLines(version, input, t).Parsed?
    ensures NormalForm(ParseLines(version, input, t).table)
    decreases |input|
  {
    hide NormalForm, ParseLine, UpsertSpec, SetPresenceSpec;
    if input != [] {
      var length := IndexOf(input, NEWLINE);
      var e := ParseLine(version, input[..length]).value;
      AdmitKeepsNormalForm(t, e);
      ParsedLinesNormal(version, input[length + 1..], Admit(t, e).table);
    }
  }

  lemma AdmitKeepsNormalForm(t: Table, e: Entry)
    requires NormalForm(t)
    ensures NormalForm(Admit(t, e).table)
  {
    hide NormalForm, UpsertSpec, SetPresenceSpec;
    UpsertKeepsNormalForm(t, e.path, e.deviceTime, e.size, e.initialSync, e.sha256, e.cacheName);
    SetPresenceKeepsNormalForm(
      UpsertSpec(t, e.path, e.deviceTime, e.size, e.initialSync, e.sha256, e.cacheName).table, e.path, e.presence);
  }

  /** Whatever version was read, an accepted manifest is in normal form. */
  lemma ParsedTextNormal(input: seq<byte>)
    requires ParseText(input).Parsed?
    ensures NormalForm(ParseText(input).table)
  {
    ParsedLinesNormal(VersionOf(input).value, input[HEADER_LENGTH..], []);
  }

  // ---- Round trip ------------------------------------------------------------------

  lemma FieldsAvoidSeparators(e: Entry)
    requires WellFormed(e)
    ensures forall i | 0 <= i < |EntryFields(e)| ::
              TAB !in EntryFields(e)[i] && NEWLINE !in EntryFields(e)[i] && EntryFields(e)[i] != []
  {
    hide Decimal, Hex;
    DigitsAvoid(e.deviceTime);
    DigitsAvoid(e.size);
    DigitsAvoid(e.initialSync);
    HexIsAlphanumeric(e.sha256);
    var f := EntryFields(e);
    assert forall i | 0 <= i < 7 :: TAB !in f[i] && NEWLINE !in f[i] && f[i] != [];
  }

  lemma FieldsReadBack(e: Entry)
    requires WellFormed(e)
    ensures ParseFields(V3, EntryFields(e)) == Some(e)
  {
    hide Decimal, Hex, Unhex, ParseDecimal, ValidPath, ValidCacheName, CString;
    DecimalRoundTrip(e.deviceTime);
    DecimalRoundTrip(e.size);
    DecimalRoundTrip(e.initialSync);
    UnhexHex(e.sha256);
    CStringOfValid(e.cacheName);
    ValidNameLength(e.cacheName);
    var f := EntryFields(e);
    assert ParsePresence(V3, f) == Some(e.presence);
  }

  lemma LineReadsBack(e: Entry, rest: seq<byte>)
    requires WellFormed(e)
    ensures var input := EntryLine(e) + rest;
            var length := IndexOf(input, NEWLINE);
            && 0 < length < |input|
            && ParseLine(V3, input[..length]) == Some(e)
            && input[length + 1..] == rest
  {
    hide WellFormed, EntryFields, Join, Fields, ParseFields;
    var f := EntryFields(e);
    assert |f| == 7 by {
      FieldCount(e);
    }
    FieldsAvoidSeparators(e);
    FieldsReadBack(e);
    FieldsOfJoin(f);
    JoinAvoids(f, NEWLINE);
    JoinNonempty(f);
    var line := Join(f);
    var input := EntryLine(e) + rest;
    assert input[..|line|] == line;
    IndexOfIs(input, NEWLINE, |line|);
    assert input[|line| + 1..] == rest;
  }

  /** A cache name is read up to an embedded zero byte, so a line that is never printed reads as one that is. */
  lemma ZeroEndsCacheName(e: Entry, tail: seq<byte>)
    requires WellFormed(e) && TAB !in tail && |e.cacheName| + 1 + |tail| < CACHE_NAME_CAPACITY
    ensures ParseLine(V3, Join(EntryFields(e)[5 := e.cacheName + [0] + tail])) == Some(e)
  {
    hide WellFormed, EntryFields, Join, Fields, ParseFields, CString;
    assert |EntryFields(e)| == 7 by {
      FieldCount(e);
    }
    var f := EntryFields(e)[5 := e.cacheName + [0] + tail];
    FieldsAvoidSeparators(e);
    NameAvoidsTab(e);
    FieldsOfJoin(f);
    ZeroFieldReadsBack(e, tail);
  }

  lemma NameAvoidsTab(e: Entry)
    requires WellFormed(e)
    ensures TAB !in e.cacheName && 0 !in e.cacheName
  {
  }

  lemma ZeroFieldReadsBack(e: Entry, tail: seq<byte>)
    requires WellFormed(e) && |e.cacheName| + 1 + |tail| < CACHE_NAME_CAPACITY && |EntryFields(e)| == 7
    ensures ParseFields(V3, EntryFields(e)[5 := e.cacheName + [0] + tail]) == Some(e)
  {
    NameAvoidsTab(e);
    hide Decimal, Hex, Unhex, ParseDecimal, ValidPath, ValidCacheName, CString;
    DecimalRoundTrip(e.deviceTime);
    DecimalRoundTrip(e.size);
    DecimalRoundTrip(e.initialSync);
    UnhexHex(e.sha256);
    CStringEnds(e.cacheName, tail);
    var f := EntryFields(e)[5 := e.cacheName + [0] + tail];
    assert ParsePresence(V3, f) == Some(e.presence);
  }

  lemma CStringEnds(name: seq<byte>, tail: seq<byte>)
    requires 0 !in name
    ensures CString(name + [0] + tail) == name
  {
    var field := name + [0] + tail;
    IndexOfIs(field, 0, |name|);
    assert field[..|name|] == name;
  }

  lemma FieldCount(e: Entry)
    ensures |EntryFields(e)| == 7
  {
  }

  lemma AdmitNewRow(t: Table, e: Entry)
    requires NormalForm(t + [e])
    ensures Admit(t, e) == Upserted(Ok, t + [e])
  {
    hide ValidPath, ValidCacheName;
    var u := t + [e];
    assert WellFormed(u[|t|]);
    forall k | 0 <= k < |t|
      ensures t[k].path != e.path
    {
      assert u[k].path != u[|t|].path;
    }
    var added := Merge(None, e.path, e.deviceTime, e.size, e.initialSync, e.sha256, e.cacheName);
    IndexOfPathFirst(t, e.path, |t|);
    IndexOfPathFirst(t + [added], e.path, |t|);
    assert (t + [added])[|t| := e] == t + [e];
    assert added.(presence := e.presence) == e;
  }

  lemma NormalPrefix(t: Table, k: nat)
    requires NormalForm(t) && k <= |t|
    ensures NormalForm(t[..k])
  {
  }

  lemma {:induction false} LinesReadBack(t: Table, k: nat)
    requires NormalForm(t) && k <= |t|
    ensures ParseLines(V3, Lines(t[k..]), t[..k]) == Parsed(t)
    decreases |t| - k
  {
    hide NormalForm, ParseLine, EntryLine, Admit;
    if k == |t| {
      assert t[k..] == [] && t[..k] == t;
    } else {
      var rest := Lines(t[k + 1..]);
      assert t[k..][0] == t[k] && t[k..][1..] == t[k + 1..];
      RowWellFormed(t, k);
      LineReadsBack(t[k], rest);
      NormalPrefix(t, k + 1);
      assert t[..k + 1] == t[..k] + [t[k]];
      AdmitNewRow(t[..k], t[k]);
      LinesReadBack(t, k + 1);
    }
  }

  lemma RowWellFormed(t: Table, k: nat)
    requires NormalForm(t) && k < |t|
    ensures WellFormed(t[k])
  {
  }

  /** Printing a manifest and parsing the text gives back the same table, row for row. */
  lemma RoundTrip(t: Table)
    requires NormalForm(t)
    ensures ParseText(Text(t)) == Parsed(t)
  {
    hide NormalForm, ParseLines, Lines;
    LinesReadBack(t, 0);
    assert t[0..] == t && t[..0] == [];
    assert Text(t)[HEADER_LENGTH..] == Lines(t);
    assert Header(V3) <= Text(t);
  }

  /** One parse normalises: any accepted text, of any version, reprints to a fixed point. */
  lemma AcceptedTextReprints(input: seq<byte>)
    requires ParseText(input).Parsed?
    ensures ParseText(Text(ParseText(input).table)) == ParseText(input)
  {
    ParsedTextNormal(input);
    RoundTrip(ParseText(input).table);
  }
}
