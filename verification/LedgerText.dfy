/** Text conventions shared by the ledgers: decimals, hexadecimal digests, tabs and lines. */
module LedgerText {
  import opened Bytes

  const TAB: byte := 0x09
  const NEWLINE: byte := 0x0a
  const PATH_CAPACITY: nat := 256
  const CACHE_NAME_CAPACITY: nat := 160
  const SHA256_BYTES: nat := 32
  const MAX_FIELDS: nat := 7

  datatype Option<+T> = None | Some(value: T)

  type Digest = s: seq<byte> | |s| == 32 witness seq(32, _ => 0)

  const NO_DIGEST: Digest := seq(32, _ => 0)

  /** What the manifest and the history answer. */
  datatype Status =
    | Ok
    | InvalidArgument
    | InvalidFormat
    | CapacityExceeded
    | BufferTooSmall
    | AllocationFailed

  // ---- Characters ------------------------------------------------------------------

  predicate IsDigit(b: byte) {
    0x30 <= b <= 0x39
  }

  predicate IsAlphanumeric(b: byte) {
    0x61 <= b <= 0x7a || 0x41 <= b <= 0x5a || IsDigit(b)
  }

  /** Letters, digits and the seven characters / . _ - space ( ). */
  predicate IsPathByte(b: byte) {
    IsAlphanumeric(b) || b == 0x2f || b == 0x2e || b == 0x5f || b == 0x2d || b == 0x20 || b == 0x28 || b == 0x29
  }

  predicate IsCacheNameByte(b: byte) {
    IsAlphanumeric(b) || b == 0x2e || b == 0x5f || b == 0x2d
  }

  predicate ValidPath(s: seq<byte>) {
    0 < |s| < PATH_CAPACITY && forall i | 0 <= i < |s| :: IsPathByte(s[i])
  }

  predicate ValidCacheName(s: seq<byte>) {
    0 < |s| < CACHE_NAME_CAPACITY && forall i | 0 <= i < |s| :: IsCacheNameByte(s[i])
  }

  /** The bytes of an ASCII text. */
  function Ascii(text: string): (s: seq<byte>)
    requires forall i | 0 <= i < |text| :: text[i] as int < 128
    ensures |s| == |text| && forall i | 0 <= i < |s| :: s[i] == text[i] as int
  {
    seq(|text|, i requires 0 <= i < |text| => text[i] as int)
  }

  predicate LetterOrDigit(c: char) {
    'a' <= c <= 'z' || 'A' <= c <= 'Z' || '0' <= c <= '9'
  }

  /** The characters a path may use, and those a cache name may use. */
  lemma NameBytesAre(b: byte)
    ensures IsPathByte(b) <==> LetterOrDigit(b as char) || b as char in "/._- ()"
    ensures IsCacheNameByte(b) <==> LetterOrDigit(b as char) || b as char in "._-"
  {
  }

  /** A valid path has 1 to 255 path characters, a valid cache name 1 to 159 name characters. */
  lemma ValidNamesAre(s: seq<byte>)
    ensures ValidPath(s) <==> s != [] && |s| <= 255 && forall b | b in s :: IsPathByte(b)
    ensures ValidCacheName(s) <==> s != [] && |s| <= 159 && forall b | b in s :: IsCacheNameByte(b)
  {
  }

  // ---- Unsigned decimals -------------------------------------------------------------

  function Decimal(n: nat): (s: seq<byte>)
    ensures |s| > 0
  {
    if n < 10 then [0x30 + n] else Decimal(n / 10) + [0x30 + n % 10]
  }

  predicate AllDigits(s: seq<byte>) {
    forall i | 0 <= i < |s| :: IsDigit(s[i])
  }

  /** The number a digit string denotes. */
  function Value(s: seq<byte>): nat
    requires AllDigits(s)
  {
    if s == [] then 0 else 10 * Value(s[..|s| - 1]) + (s[|s| - 1] - 0x30)
  }

  /** Digits only, within the digit count, and within the integer width. */
  function ParseDecimal(s: seq<byte>, maxDigits: nat, limit: nat): Option<nat> {
    if 0 < |s| <= maxDigits && AllDigits(s) && Value(s) < limit then Some(Value(s)) else None
  }

  lemma {:induction false} ValueOfDecimal(n: nat)
    ensures AllDigits(Decimal(n)) && Value(Decimal(n)) == n
  {
    if n >= 10 {
      ValueOfDecimal(n / 10);
      assert Decimal(n)[..|Decimal(n)| - 1] == Decimal(n / 10);
    }
  }

  function Pow10(k: nat): (p: nat)
    ensures p > 0
  {
    if k == 0 then 1 else 10 * Pow10(k - 1)
  }

  lemma {:induction false} DecimalLength(n: nat, k: nat)
    requires k > 0 && n < Pow10(k)
    ensures |Decimal(n)| <= k
  {
    if n >= 10 {
      DecimalLength(n / 10, k - 1);
    }
  }

  lemma Pow10Widths()
    ensures U32_LIMIT <= Pow10(10) && U64_LIMIT <= Pow10(20)
  {
    assert Pow10(5) == 100000;
    assert Pow10(10) == 100000 * Pow10(5);
    assert Pow10(15) == 100000 * Pow10(10);
    assert Pow10(20) == 100000 * Pow10(15);
  }

  /** Printing and parsing an integer of the ledger's two widths. */
  lemma DecimalRoundTrip(n: nat)
    ensures n < U32_LIMIT ==> ParseDecimal(Decimal(n), 10, U32_LIMIT) == Some(n)
    ensures n < U64_LIMIT ==> ParseDecimal(Decimal(n), 20, U64_LIMIT) == Some(n)
  {
    Pow10Widths();
    ValueOfDecimal(n);
    if n < U32_LIMIT {
      DecimalLength(n, 10);
    }
    if n < U64_LIMIT {
      DecimalLength(n, 20);
    }
  }

  lemma {:induction false} PrefixValueSmaller(s: seq<byte>, k: nat)
    requires AllDigits(s) && k <= |s|
    ensures Value(s[..k]) <= Value(s)
    decreases |s| - k
  {
    if k == |s| {
      assert s[..k] == s;
    } else {
      PrefixValueSmaller(s, k + 1);
      assert s[..k + 1][..k] == s[..k];
    }
  }

  /** The digit loop with its overflow guard, in an integer type of `limit` values. */
  method ReadDecimal(s: seq<byte>, maxDigits: nat, limit: nat) returns (result: Option<nat>)
    requires limit >= 10
    ensures result == ParseDecimal(s, maxDigits, limit)
  {
    if |s| == 0 || |s| > maxDigits {
      return None;
    }
    var parsed := 0;
    for index := 0 to |s|
      invariant AllDigits(s[..index]) && parsed == Value(s[..index]) < limit
    {
      if s[index] < 0x30 || s[index] > 0x39 {
        return None;
      }
      var digit := s[index] - 0x30;
      assert s[..index + 1][..index] == s[..index];
      if parsed > (limit - 1 - digit) / 10 {
        if AllDigits(s) {
          PrefixValueSmaller(s, index + 1);
        }
        return None;
      }
      parsed := parsed * 10 + digit;
    }
    assert s[..|s|] == s;
    return Some(parsed);
  }

  // ---- Numerals: the digit strings a number may be written as ------------------------

  function ZeroDigits(k: nat): seq<byte> {
    seq(k, _ => 0x30)
  }

  /** A number in decimal, possibly behind zeros. */
  predicate Numeral(s: seq<byte>, n: nat, maxDigits: nat) {
    |Decimal(n)| <= |s| <= maxDigits && s == ZeroDigits(|s| - |Decimal(n)|) + Decimal(n)
  }

  lemma {:induction false} ValueBehindZeros(k: nat, t: seq<byte>)
    requires AllDigits(t)
    ensures AllDigits(ZeroDigits(k) + t) && Value(ZeroDigits(k) + t) == Value(t)
    decreases |t|, k
  {
    if t != [] {
      ValueBehindZeros(k, t[..|t| - 1]);
      assert (ZeroDigits(k) + t)[..k + |t| - 1] == ZeroDigits(k) + t[..|t| - 1];
    } else if k > 0 {
      ValueBehindZeros(k - 1, []);
      assert (ZeroDigits(k) + [])[..k - 1] == ZeroDigits(k - 1) + [];
    }
  }

  lemma {:induction false} DigitsAreNumeral(s: seq<byte>)
    requires s != [] && AllDigits(s)
    ensures Numeral(s, Value(s), |s|)
  {
    var front, last := s[..|s| - 1], s[|s| - 1];
    if front == [] {
      assert Value(front) == 0 && s == ZeroDigits(0) + [last];
    } else {
      DigitsAreNumeral(front);
      if Value(front) == 0 {
        assert Decimal(0) == [0x30];
        assert s == ZeroDigits(|s| - 1) + [last];
      } else {
        assert Decimal(Value(s)) == Decimal(Value(front)) + [last];
        assert s == front + [last];
      }
    }
  }

  /** A digit string is accepted as a number exactly when it is that number's numeral and it fits. */
  lemma NumeralIff(s: seq<byte>, maxDigits: nat, limit: nat, n: nat)
    ensures ParseDecimal(s, maxDigits, limit) == Some(n) <==> Numeral(s, n, maxDigits) && n < limit
  {
    hide Decimal, Value, ZeroDigits;
    if ParseDecimal(s, maxDigits, limit) == Some(n) {
      DigitsAreNumeral(s);
    }
    if Numeral(s, n, maxDigits) {
      ValueOfDecimal(n);
      ValueBehindZeros(|s| - |Decimal(n)|, Decimal(n));
    }
  }

  // ---- Hexadecimal -------------------------------------------------------------------

  function HexDigit(n: nat): byte
    requires n < 16
  {
    if n < 10 then 0x30 + n else 0x61 + (n - 10)
  }

  /** Upper- and lower-case digits; -1 for anything else. */
  function HexValue(b: byte): (v: int)
    ensures -1 <= v < 16
  {
    if IsDigit(b) then b - 0x30
    else if 0x61 <= b <= 0x66 then b - 0x61 + 10
    else if 0x41 <= b <= 0x46 then b - 0x41 + 10
    else -1
  }

  function Hex(s: seq<byte>): (text: seq<byte>)
    ensures |text| == 2 * |s|
  {
    if s == [] then [] else [HexDigit(s[0] / 16), HexDigit(s[0] % 16)] + Hex(s[1..])
  }

  /** The bytes a digit string denotes, when all its characters are digits. */
  function Unhex(text: seq<byte>): (result: Option<seq<byte>>)
    ensures result.Some? ==> 2 * |result.value| == |text|
  {
    if text == [] then Some([])
    else if |text| == 1 || HexValue(text[0]) < 0 || HexValue(text[1]) < 0 then None
    else match Unhex(text[2..])
         case None => None
         case Some(rest) => Some([16 * HexValue(text[0]) + HexValue(text[1])] + rest)
  }

  lemma {:induction false} UnhexHex(s: seq<byte>)
    ensures Unhex(Hex(s)) == Some(s)
  {
    if s != [] {
      UnhexHex(s[1..]);
      assert Hex(s)[2..] == Hex(s[1..]);
      assert s == [s[0]] + s[1..];
    }
  }

  lemma {:induction false} HexIsAlphanumeric(s: seq<byte>)
    ensures forall i | 0 <= i < |Hex(s)| :: IsAlphanumeric(Hex(s)[i])
  {
    if s != [] {
      HexIsAlphanumeric(s[1..]);
      assert forall i | 2 <= i < |Hex(s)| :: Hex(s)[i] == Hex(s[1..])[i - 2];
    }
  }

  lemma {:induction false} UnhexSplit(front: seq<byte>, high: byte, low: byte)
    requires Unhex(front).Some?
    ensures HexValue(high) >= 0 && HexValue(low) >= 0 ==>
              Unhex(front + [high, low]) == Some(Unhex(front).value + [16 * HexValue(high) + HexValue(low)])
  {
    var text := front + [high, low];
    if HexValue(high) >= 0 && HexValue(low) >= 0 {
      var last: byte := 16 * HexValue(high) + HexValue(low);
      if front == [] {
        assert text == [high, low] && text[2..] == [];
        assert [last] + [] == [] + [last];
      } else {
        UnhexSplit(front[2..], high, low);
        assert text[2..] == front[2..] + [high, low];
        var first: byte, rest := 16 * HexValue(front[0]) + HexValue(front[1]), Unhex(front[2..]).value;
        assert [first] + (rest + [last]) == ([first] + rest) + [last];
      }
    }
  }

  lemma {:induction false} UnhexNone(text: seq<byte>, k: nat)
    requires 2 * k + 1 < |text| && (HexValue(text[2 * k]) < 0 || HexValue(text[2 * k + 1]) < 0)
    ensures Unhex(text) == None
  {
    if k > 0 {
      UnhexNone(text[2..], k - 1);
    }
  }

  /** The byte loop over a digit string of the announced length. */
  method ReadHex(text: seq<byte>, length: nat) returns (result: Option<seq<byte>>)
    ensures result == if |text| == 2 * length then Unhex(text) else None
  {
    if |text| != 2 * length {
      return None;
    }
    var bytes: seq<byte> := [];
    assert Unhex(text[..0]) == Some([]);
    for index := 0 to length
      invariant Unhex(text[..2 * index]) == Some(bytes)
    {
      var high, low := HexValue(text[2 * index]), HexValue(text[2 * index + 1]);
      if high < 0 || low < 0 {
        UnhexNone(text, index);
        return None;
      }
      UnhexSplit(text[..2 * index], text[2 * index], text[2 * index + 1]);
      assert text[..2 * (index + 1)] == text[..2 * index] + [text[2 * index], text[2 * index + 1]];
      bytes := bytes + [16 * high + low];
    }
    assert text[..2 * length] == text;
    return Some(bytes);
  }

  /** The same hexadecimal digit, the letters A to F in either case. */
  predicate SameDigit(written: byte, digit: byte) {
    written == digit || (0x41 <= written <= 0x46 && written + 0x20 == digit)
  }

  /** A digest as it may be written. */
  predicate Hexadecimal(text: seq<byte>, s: seq<byte>) {
    SameDigits(text, Hex(s))
  }

  lemma HexPair(high: byte, low: byte, b: byte)
    ensures HexValue(high) >= 0 && HexValue(low) >= 0 && 16 * HexValue(high) + HexValue(low) == b
            <==> SameDigit(high, HexDigit(b / 16)) && SameDigit(low, HexDigit(b % 16))
  {
  }

  /** Text and digits agree place by place. */
  predicate SameDigits(text: seq<byte>, digits: seq<byte>) {
    |text| == |digits| && forall i | 0 <= i < |text| :: SameDigit(text[i], digits[i])
  }

  lemma SameDigitsParts(text: seq<byte>, first: byte, second: byte, rest: seq<byte>)
    requires |text| >= 2
    ensures SameDigits(text, [first, second] + rest) <==>
              SameDigit(text[0], first) && SameDigit(text[1], second) && SameDigits(text[2..], rest)
  {
    hide SameDigit;
    var digits := [first, second] + rest;
    assert digits[0] == first && digits[1] == second && digits[2..] == rest;
    if |text| == |digits| {
      assert forall i | 0 <= i < |rest| :: rest[i] == digits[i + 2] && text[2..][i] == text[i + 2];
      assert forall i | 2 <= i < |digits| :: digits[i] == rest[i - 2] && text[i] == text[2..][i - 2];
    }
  }

  lemma HexadecimalParts(text: seq<byte>, s: seq<byte>)
    requires |text| >= 2 && s != []
    ensures Hexadecimal(text, s) <==>
              && SameDigit(text[0], HexDigit(s[0] / 16)) && SameDigit(text[1], HexDigit(s[0] % 16))
              && Hexadecimal(text[2..], s[1..])
  {
    hide SameDigit, HexDigit, SameDigits;
    SameDigitsParts(text, HexDigit(s[0] / 16), HexDigit(s[0] % 16), Hex(s[1..]));
  }

  lemma HexadecimalLength(text: seq<byte>, s: seq<byte>)
    ensures Hexadecimal(text, s) ==> |text| == 2 * |s|
  {
  }

  /** A text is read as a byte string exactly when it is that string in hexadecimal. */
  lemma {:induction false} HexadecimalIff(text: seq<byte>, s: seq<byte>)
    ensures Unhex(text) == Some(s) <==> Hexadecimal(text, s)
  {
    hide SameDigit, HexValue, HexDigit;
    if s != [] && |text| >= 2 {
      HexadecimalIff(text[2..], s[1..]);
      HexadecimalParts(text, s);
      HexPair(text[0], text[1], s[0]);
      assert s == [s[0]] + s[1..];
    }
  }

  // ---- Separators ------------------------------------------------------------------

  /** Index of the first occurrence, or the length when there is none. */
  function IndexOf(s: seq<byte>, b: byte): (i: nat)
    ensures i <= |s|
    ensures i < |s| ==> s[i] == b
    ensures b !in s[..i]
  {
    if s == [] then 0
    else if s[0] == b then 0
    else
      var i := 1 + IndexOf(s[1..], b);
      assert s[..i] == [s[0]] + s[1..][..i - 1];
      i
  }

  lemma {:induction false} IndexOfIs(s: seq<byte>, b: byte, i: nat)
    requires i <= |s| && b !in s[..i] && (i < |s| ==> s[i] == b)
    ensures IndexOf(s, b) == i
  {
    if i > 0 {
      assert s[..i] == [s[0]] + s[1..][..i - 1];
      IndexOfIs(s[1..], b, i - 1);
    }
  }

  /** The parts of a line between tabs; there is always at least one. */
  function Fields(line: seq<byte>): (fields: seq<seq<byte>>)
    ensures |fields| > 0
    decreases |line|
  {
    var i := IndexOf(line, TAB);
    if i == |line| then [line] else [line[..i]] + Fields(line[i + 1..])
  }

  function Join(fields: seq<seq<byte>>): seq<byte>
    requires |fields| > 0
  {
    if |fields| == 1 then fields[0] else fields[0] + [TAB] + Join(fields[1..])
  }

  lemma {:induction false} FieldsOfJoin(fields: seq<seq<byte>>)
    requires |fields| > 0 && forall i | 0 <= i < |fields| :: TAB !in fields[i]
    ensures Fields(Join(fields)) == fields
  {
    var line, first := Join(fields), fields[0];
    assert line[..|first|] == first;
    IndexOfIs(line, TAB, |first|);
    if |fields| > 1 {
      FieldsOfJoin(fields[1..]);
      assert line[|first| + 1..] == Join(fields[1..]);
      assert fields == [first] + fields[1..];
    } else {
      assert fields == [first];
    }
  }

  /** Cutting at the tabs loses nothing, and leaves no tab. */
  lemma {:induction false} JoinOfFields(line: seq<byte>)
    ensures Join(Fields(line)) == line
    ensures forall k | 0 <= k < |Fields(line)| :: TAB !in Fields(line)[k]
    ensures forall b, k | b !in line && 0 <= k < |Fields(line)| :: b !in Fields(line)[k]
    decreases |line|
  {
    var i := IndexOf(line, TAB);
    if i < |line| {
      JoinOfFields(line[i + 1..]);
      assert line == line[..i] + [TAB] + line[i + 1..];
    }
  }

  lemma {:induction false} JoinAvoids(fields: seq<seq<byte>>, b: byte)
    requires |fields| > 0 && b != TAB && forall i | 0 <= i < |fields| :: b !in fields[i]
    ensures b !in Join(fields)
  {
    if |fields| > 1 {
      JoinAvoids(fields[1..], b);
    }
  }

  predicate NoneEmpty(fields: seq<seq<byte>>) {
    forall i | 0 <= i < |fields| :: |fields[i]| > 0
  }

  /** The first field ends at the first tab. */
  lemma FieldsFrom(line: seq<byte>, start: nat, index: nat)
    requires start <= index <= |line| && TAB !in line[start..index]
    requires index < |line| ==> line[index] == TAB
    ensures Fields(line[start..]) ==
            if index == |line| then [line[start..]] else [line[start..index]] + Fields(line[index + 1..])
  {
    var rest, k := line[start..], index - start;
    assert rest[..k] == line[start..index];
    IndexOfIs(rest, TAB, k);
    assert index < |line| ==> rest[k + 1..] == line[index + 1..];
  }

  /** The line scanner: up to seven nonempty fields, otherwise nothing. */
  method SplitLine(line: seq<byte>) returns (result: Option<seq<seq<byte>>>)
    ensures result ==
            if |Fields(line)| <= MAX_FIELDS && NoneEmpty(Fields(line)) then Some(Fields(line)) else None
  {
    hide Fields;
    var fields: seq<seq<byte>> := [];
    assert line[0..] == line;
    var start, index := 0, 0;
    while index < |line|
      invariant 0 <= start <= index <= |line|
      invariant |fields| <= MAX_FIELDS && NoneEmpty(fields)
      invariant Fields(line) == fields + Fields(line[start..])
      invariant TAB !in line[start..index]
    {
      if line[index] == TAB {
        FieldsFrom(line, start, index);
        assert Fields(line) == fields + [line[start..index]] + Fields(line[index + 1..]);
        assert Fields(line)[|fields|] == line[start..index];
        if |fields| >= MAX_FIELDS || index == start {
          return None;
        }
        fields := fields + [line[start..index]];
        start := index + 1;
      }
      index := index + 1;
    }
    FieldsFrom(line, start, index);
    assert Fields(line) == fields + [line[start..]];
    assert Fields(line)[|fields|] == line[start..];
    if |fields| >= MAX_FIELDS || index == start {
      return None;
    }
    return Some(fields + [line[start..]]);
  }

  /** First newline at or after an offset, as a length; the scan of one line. */
  method LineLength(input: seq<byte>, offset: nat) returns (length: nat)
    requires offset <= |input|
    ensures length == IndexOf(input[offset..], NEWLINE)
  {
    length := 0;
    while offset + length < |input| && input[offset + length] != NEWLINE
      invariant offset + length <= |input|
      invariant NEWLINE !in input[offset..][..length]
    {
      length := length + 1;
    }
    IndexOfIs(input[offset..], NEWLINE, length);
  }

  // ---- Output buffers ---------------------------------------------------------------

  /** Appends one piece to a bounded buffer, or reports how long the output would have become. */
  method Append(output: array<byte>, used: nat, piece: seq<byte>) returns (ok: bool, total: nat)
    requires used <= output.Length
    modifies output
    ensures total == used + |piece|
    ensures ok == (total <= output.Length)
    ensures output[..if ok then total else used] == old(output[..used]) + if ok then piece else []
  {
    total := used + |piece|;
    ok := |piece| <= output.Length - used;
    if ok {
      CopyInto(output, used, piece);
    }
  }

  lemma {:induction false} FlattenSplit(pieces: seq<seq<byte>>, k: nat)
    requires k <= |pieces|
    ensures Flatten(pieces) == Flatten(pieces[..k]) + Flatten(pieces[k..])
  {
    if k > 0 {
      FlattenSplit(pieces[1..], k - 1);
      assert pieces[1..][..k - 1] == pieces[..k][1..];
      assert pieces[1..][k - 1..] == pieces[k..];
    } else {
      assert pieces[0..] == pieces;
    }
  }

  /** Appends pieces in turn and stops at the first that does not fit. */
  method AppendAll(output: array<byte>, start: nat, pieces: seq<seq<byte>>) returns (ok: bool, total: nat)
    requires start <= output.Length
    modifies output
    ensures ok == (start + |Flatten(pieces)| <= output.Length)
    ensures ok ==> total == start + |Flatten(pieces)| && output[..total] == old(output[..start]) + Flatten(pieces)
    ensures !ok ==> output.Length < total <= start + |Flatten(pieces)|
  {
    hide Flatten;
    ok, total := true, start;
    NoPieces();
    for i := 0 to |pieces|
      invariant ok && total == start + |Flatten(pieces[..i])| <= output.Length
      invariant output[..total] == old(output[..start]) + Flatten(pieces[..i])
    {
      ghost var before := Flatten(pieces[..i]);
      assert pieces[..i + 1] == pieces[..i] + [pieces[i]];
      FlattenAppend(pieces[..i], pieces[i]);
      FlattenSplit(pieces, i + 1);
      ok, total := Append(output, total, pieces[i]);
      if !ok {
        return;
      }
    }
    assert pieces[..|pieces|] == pieces;
  }

  lemma NoPieces()
    ensures Flatten<byte>([]) == []
  {
  }

  lemma JoinMore(fields: seq<seq<byte>>)
    requires |fields| > 1
    ensures Join(fields) == fields[0] + [TAB] + Join(fields[1..])
  {
  }

  lemma FlattenMore(pieces: seq<seq<byte>>)
    requires |pieces| > 0
    ensures Flatten(pieces) == pieces[0] + Flatten(pieces[1..])
  {
  }

  lemma DecimalInRange(s: seq<byte>, maxDigits: nat, limit: nat)
    ensures ParseDecimal(s, maxDigits, limit).Some? ==> ParseDecimal(s, maxDigits, limit).value < limit
  {
  }

  // ---- Strings and separators in fields ----------------------------------------------

  /** A character field copied into a C string ends at its first zero byte. */
  function CString(field: seq<byte>): seq<byte> {
    field[..IndexOf(field, 0)]
  }

  lemma DigitsAvoid(n: nat)
    ensures TAB !in Decimal(n) && NEWLINE !in Decimal(n)
  {
    ValueOfDecimal(n);
  }

  lemma CStringOfValid(name: seq<byte>)
    requires ValidCacheName(name)
    ensures CString(name) == name
  {
    IndexOfIs(name, 0, |name|);
    assert name[..|name|] == name;
  }

  lemma ValidNameLength(name: seq<byte>)
    requires ValidCacheName(name)
    ensures |name| < CACHE_NAME_CAPACITY
  {
  }

  /** A name of at most 159 bytes, alone or ended early by a zero byte. */
  predicate NameField(field: seq<byte>, name: seq<byte>) {
    && |field| <= 159 && 0 !in name
    && (field == name || (|name| < |field| && field[..|name|] == name && field[|name|] == 0))
  }

  /** A field is read as a name exactly when it is the name, or the name, a zero byte and anything. */
  lemma NameFieldIff(field: seq<byte>, name: seq<byte>)
    ensures |field| < CACHE_NAME_CAPACITY && CString(field) == name <==> NameField(field, name)
  {
    if NameField(field, name) {
      IndexOfIs(field, 0, |name|);
    }
  }

  lemma JoinNonempty(fields: seq<seq<byte>>)
    requires |fields| > 0 && fields[0] != []
    ensures Join(fields) != []
  {
  }
}
