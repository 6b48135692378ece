/**
 * The reflected CRC-32 of section 8.1.1.6.2 of ITU-T V.42, one register bit at a time.
 *
 * The register is a 32-bit number.  Exclusive-or is defined on the binary digits of
 * naturals, so that shifts are divisions and no machine-word theory is needed.
 */
module Crc32 {
  import opened Bytes

  const POLYNOMIAL: u32 := 0xedb88320
  const INITIAL: u32 := 0xffff_ffff

  function Pow2(k: nat): (p: nat)
    ensures p >= 1
  {
    if k == 0 then 1 else 2 * Pow2(k - 1)
  }

  /** Bitwise exclusive-or of naturals. */
  function Xor(a: nat, b: nat): nat
    decreases a + b
  {
    if a == 0 then b
    else if b == 0 then a
    else (a + b) % 2 + 2 * Xor(a / 2, b / 2)
  }

  lemma DigitAndRest(digit: nat, rest: nat)
    requires digit < 2
    ensures (digit + 2 * rest) % 2 == digit && (digit + 2 * rest) / 2 == rest
  {
  }

  /** The last binary digit and the digits above it. */
  lemma {:induction false} XorUnfold(a: nat, b: nat)
    ensures Xor(a, b) % 2 == (a + b) % 2
    ensures Xor(a, b) / 2 == Xor(a / 2, b / 2)
  {
    if a == 0 {
      assert Xor(a, b) == b && Xor(a / 2, b / 2) == b / 2;
    } else if b == 0 {
      assert Xor(a, b) == a && Xor(a / 2, b / 2) == a / 2;
    } else {
      assert Xor(a, b) == (a + b) % 2 + 2 * Xor(a / 2, b / 2);
      DigitAndRest((a + b) % 2, Xor(a / 2, b / 2));
    }
  }

  lemma SameDigits(a: nat, b: nat)
    requires a % 2 == b % 2 && a / 2 == b / 2
    ensures a == b
  {
  }

  lemma {:induction false} XorCommutes(a: nat, b: nat)
    ensures Xor(a, b) == Xor(b, a)
    decreases a + b
  {
    if a != 0 && b != 0 {
      XorCommutes(a / 2, b / 2);
    }
  }

  lemma Parity(x: nat, y: nat, a: nat, b: nat, c: nat)
    requires x % 2 == (a + b) % 2 && y % 2 == (b + c) % 2
    ensures (x + c) % 2 == (a + y) % 2
  {
  }

  lemma XorTriple(a: nat, b: nat, c: nat)
    requires Xor(Xor(a / 2, b / 2), c / 2) == Xor(a / 2, Xor(b / 2, c / 2))
    ensures Xor(Xor(a, b), c) == Xor(a, Xor(b, c))
  {
    var x, y := Xor(a, b), Xor(b, c);
    XorUnfold(a, b);
    XorUnfold(b, c);
    XorUnfold(x, c);
    XorUnfold(a, y);
    Parity(x, y, a, b, c);
    SameDigits(Xor(x, c), Xor(a, y));
  }

  lemma {:induction false} XorAssociates(a: nat, b: nat, c: nat)
    ensures Xor(Xor(a, b), c) == Xor(a, Xor(b, c))
    decreases a + b + c
  {
    if a + b + c != 0 {
      XorAssociates(a / 2, b / 2, c / 2);
      XorTriple(a, b, c);
    }
  }

  lemma {:induction false} XorSelf(a: nat)
    ensures Xor(a, a) == 0
  {
    if a != 0 {
      XorSelf(a / 2);
    }
  }

  lemma XorCancel(a: nat, b: nat, m: nat)
    requires Xor(a, m) == Xor(b, m)
    ensures a == b
  {
    XorAssociates(a, m, m);
    XorAssociates(b, m, m);
    XorSelf(m);
    XorZero(a);
    XorZero(b);
  }

  lemma XorZero(a: nat)
    ensures Xor(a, 0) == a && Xor(0, a) == a
  {
  }

  lemma {:induction false} XorBound(a: nat, b: nat, k: nat)
    requires a < Pow2(k) && b < Pow2(k)
    ensures Xor(a, b) < Pow2(k)
  {
    if k > 0 {
      XorUnfold(a, b);
      XorBound(a / 2, b / 2, k - 1);
    }
  }

  /** Exclusive-or with a number whose top bit is set keeps that bit set. */
  lemma {:induction false} XorTopBit(a: nat, b: nat, k: nat)
    requires a < Pow2(k) <= b < Pow2(k + 1)
    ensures Pow2(k) <= Xor(a, b)
  {
    if k > 0 {
      XorUnfold(a, b);
      XorTopBit(a / 2, b / 2, k - 1);
    }
  }

  lemma Pow2Values()
    ensures Pow2(8) == 256
    ensures Pow2(31) == 0x8000_0000
    ensures Pow2(32) == 0x1_0000_0000
  {
    assert Pow2(8) == 256;
    assert Pow2(16) == 256 * Pow2(8);
    assert Pow2(24) == 256 * Pow2(16);
    assert Pow2(31) == 128 * Pow2(24);
  }

  lemma XorU32(a: u32, b: u32)
    ensures Xor(a, b) < U32_LIMIT
  {
    Pow2Values();
    XorBound(a, b, 32);
  }

  /** One register shift: the low bit decides whether the polynomial is folded in. */
  function CrcBit(c: u32): u32 {
    XorU32(c / 2, POLYNOMIAL);
    if c % 2 == 1 then Xor(c / 2, POLYNOMIAL) else c / 2
  }

  function CrcBits(c: u32, n: nat): u32
    decreases n
  {
    if n == 0 then c else CrcBits(CrcBit(c), n - 1)
  }

  /** Register shifts per data byte. */
  function ByteShifts(): nat {
    8
  }

  function CrcByte(c: u32, b: byte): u32 {
    XorU32(c, b);
    CrcBits(Xor(c, b), ByteShifts())
  }

  /** The register after a byte string. */
  function Crc(c: u32, s: seq<byte>): u32
    decreases |s|
  {
    if s == [] then c else Crc(CrcByte(c, s[0]), s[1..])
  }

  lemma {:induction false} CrcBitsSnoc(c: u32, n: nat)
    ensures CrcBits(c, n + 1) == CrcBit(CrcBits(c, n))
    decreases n
  {
    if n > 0 {
      CrcBitsSnoc(CrcBit(c), n - 1);
    }
  }

  lemma {:induction false} CrcBitsCompose(c: u32, m: nat, n: nat)
    ensures CrcBits(CrcBits(c, m), n) == CrcBits(c, m + n)
    decreases m
  {
    if m > 0 {
      CrcBitsCompose(CrcBit(c), m - 1, n);
    }
  }

  lemma {:induction false} CrcConcat(c: u32, s: seq<byte>, t: seq<byte>)
    ensures Crc(c, s + t) == Crc(Crc(c, s), t)
    decreases |s|
  {
    if s == [] {
      assert s + t == t;
    } else {
      assert (s + t)[1..] == s[1..] + t;
      CrcConcat(CrcByte(c, s[0]), s[1..], t);
    }
  }

  lemma CrcSnoc(c: u32, s: seq<byte>, b: byte)
    ensures Crc(c, s + [b]) == CrcByte(Crc(c, s), b)
  {
    CrcConcat(c, s, [b]);
    assert Crc(Crc(c, s), [b]) == Crc(CrcByte(Crc(c, s), b), []);
  }

  // ---- Injectivity -------------------------------------------------------------

  lemma CrcBitInjective(c: u32, d: u32)
    requires CrcBit(c) == CrcBit(d)
    ensures c == d
  {
    Pow2Values();
    if c % 2 == 1 {
      XorTopBit(c / 2, POLYNOMIAL, 31);
    }
    if d % 2 == 1 {
      XorTopBit(d / 2, POLYNOMIAL, 31);
    }
    if c % 2 == 1 && d % 2 == 1 {
      XorCancel(c / 2, d / 2, POLYNOMIAL);
    }
  }

  lemma {:induction false} CrcBitsInjective(c: u32, d: u32, n: nat)
    requires CrcBits(c, n) == CrcBits(d, n)
    ensures c == d
    decreases n
  {
    if n > 0 {
      CrcBitsInjective(CrcBit(c), CrcBit(d), n - 1);
      CrcBitInjective(c, d);
    }
  }

  /** Equal bytes cannot bring two different registers together. */
  lemma {:induction false} CrcInjectiveInRegister(c: u32, d: u32, s: seq<byte>)
    requires Crc(c, s) == Crc(d, s)
    ensures c == d
    decreases |s|
  {
    if s != [] {
      CrcInjectiveInRegister(CrcByte(c, s[0]), CrcByte(d, s[0]), s[1..]);
      XorU32(c, s[0]);
      XorU32(d, s[0]);
      CrcBitsInjective(Xor(c, s[0]), Xor(d, s[0]), ByteShifts());
      XorCancel(c, d, s[0]);
    }
  }

  // ---- Four bytes at a time: the register absorbs a little-endian word ----------

  lemma XorDouble(c: nat, w: nat)
    ensures Xor(c, 2 * w) % 2 == c % 2
    ensures Xor(c, 2 * w) / 2 == Xor(c / 2, w)
  {
    var d := 2 * w;
    assert d / 2 == w && (c + d) % 2 == c % 2;
    XorUnfold(c, d);
  }

  lemma XorSwap(a: nat, b: nat, m: nat)
    ensures Xor(Xor(a, b), m) == Xor(Xor(a, m), b)
  {
    hide Xor;
    XorAssociates(a, b, m);
    XorCommutes(b, m);
    XorAssociates(a, m, b);
  }

  /** A shift commutes with folding in an even number. */
  lemma CrcBitEven(c: u32, w: nat)
    requires 2 * w < U32_LIMIT
    ensures Xor(c, 2 * w) < U32_LIMIT
    ensures CrcBit(Xor(c, 2 * w)) == Xor(CrcBit(c), w)
  {
    hide Xor;
    XorU32(c, 2 * w);
    XorDouble(c, w);
    XorSwap(c / 2, w, POLYNOMIAL);
  }

  lemma {:induction false} CrcBitsShifted(c: u32, w: nat, n: nat)
    requires Pow2(n) * w < U32_LIMIT
    ensures Xor(c, Pow2(n) * w) < U32_LIMIT
    ensures w < U32_LIMIT
    ensures CrcBits(Xor(c, Pow2(n) * w), n) == Xor(CrcBits(c, n), w)
    decreases n
  {
    if n == 0 {
      XorU32(c, w);
    } else {
      var v := Pow2(n - 1) * w;
      assert Pow2(n) * w == 2 * v;
      CrcBitEven(c, v);
      CrcBitsShifted(CrcBit(c), w, n - 1);
    }
  }

  /** A byte in the low digit and a number above it do not interact. */
  lemma {:induction false} XorDisjoint(low: nat, high: nat, k: nat)
    requires low < Pow2(k)
    ensures Xor(low, Pow2(k) * high) == low + Pow2(k) * high
  {
    if k == 0 {
      XorZero(high);
    } else {
      var up := Pow2(k - 1) * high;
      PowDoubles(k, high);
      XorDisjoint(low / 2, high, k - 1);
      XorOfEven(low, up);
    }
  }

  lemma PowDoubles(k: nat, high: nat)
    requires k > 0
    ensures Pow2(k) * high == 2 * (Pow2(k - 1) * high)
    ensures forall low: nat | low < Pow2(k) :: low / 2 < Pow2(k - 1)
  {
  }

  lemma XorOfEven(low: nat, up: nat)
    requires Xor(low / 2, up) == low / 2 + up
    ensures Xor(low, 2 * up) == low + 2 * up
  {
    hide Xor;
    XorUnfold(low, 2 * up);
    SameDigits(Xor(low, 2 * up), low + 2 * up);
  }

  /** Absorbing a byte and then a word is absorbing the longer word, eight shifts earlier. */
  lemma CrcAbsorb(c: u32, b: byte, word: nat, longer: nat)
    requires longer == b + 256 * word < U32_LIMIT
    ensures Xor(c, longer) < U32_LIMIT
    ensures Xor(CrcByte(c, b), word) == CrcBits(Xor(c, longer), ByteShifts())
  {
    Pow2Values();
    hide Xor, CrcBits, Pow2;
    var n := ByteShifts();
    var raised := Pow2(n) * word;
    assert raised == 256 * word;
    XorDisjoint(b, word, n);
    XorAssociates(c, b, raised);
    XorU32(c, b);
    CrcBitsShifted(Xor(c, b), word, n);
  }

  /** The number whose base-256 digits are the bytes, least significant first. */
  function LittleEndian(s: seq<byte>): nat {
    if s == [] then 0 else s[0] + 256 * LittleEndian(s[1..])
  }

  lemma LittleEndianBound(s: seq<byte>)
    requires |s| <= 4
    ensures LittleEndian(s) < [1, 0x100, 0x1_0000, 0x100_0000, U32_LIMIT][|s|]
  {
    if s != [] {
      LittleEndianBound(s[1..]);
    }
  }

  lemma {:induction false} LittleEndianInjective(s: seq<byte>, t: seq<byte>)
    requires |s| == |t| && LittleEndian(s) == LittleEndian(t)
    ensures s == t
  {
    if s != [] {
      assert LittleEndian(s) % 256 == s[0] && LittleEndian(t) % 256 == t[0];
      LittleEndianInjective(s[1..], t[1..]);
      assert s == [s[0]] + s[1..] && t == [t[0]] + t[1..];
    }
  }

  /** The register after up to four bytes: fold their little-endian word in, then shift. */
  lemma {:induction false} CrcWord(c: u32, s: seq<byte>)
    requires |s| <= 4
    ensures LittleEndian(s) < U32_LIMIT && Xor(c, LittleEndian(s)) < U32_LIMIT
    ensures Crc(c, s) == CrcBits(Xor(c, LittleEndian(s)), ByteShifts() * |s|)
    decreases |s|
  {
    hide Xor, CrcBits, CrcByte;
    LittleEndianBound(s);
    XorU32(c, LittleEndian(s));
    if s == [] {
      XorZero(c);
      NoShifts(c);
    } else {
      var rest := LittleEndian(s[1..]);
      CrcWord(CrcByte(c, s[0]), s[1..]);
      CrcAbsorb(c, s[0], rest, LittleEndian(s));
      CrcBitsCompose(Xor(c, LittleEndian(s)), ByteShifts(), ByteShifts() * |s[1..]|);
    }
  }

  lemma NoShifts(c: u32)
    ensures CrcBits(c, 0) == c
  {
  }

  lemma CrcWordInjective(c: u32, s: seq<byte>, t: seq<byte>)
    requires |s| == |t| <= 4
    requires Crc(c, s) == Crc(c, t)
    ensures s == t
  {
    hide Xor, CrcBits, Crc, LittleEndian;
    CrcWord(c, s);
    CrcWord(c, t);
    var a, b := LittleEndian(s), LittleEndian(t);
    CrcBitsInjective(Xor(c, a), Xor(c, b), ByteShifts() * |s|);
    XorCommutes(c, a);
    XorCommutes(c, b);
    XorCancel(a, b, c);
    LittleEndianInjective(s, t);
  }

  /** Two strings of one length that differ only inside a window of four bytes. */
  predicate DifferInWindow(s: seq<byte>, t: seq<byte>, at: nat) {
    && |s| == |t|
    && s != t
    && forall i | 0 <= i < |s| && !(at <= i < at + 4) :: s[i] == t[i]
  }

  /**
   * Burst detection: the register tells apart any two strings that differ only within
   * four consecutive bytes, whatever surrounds them.
   */
  lemma BurstChangesCrc(c: u32, s: seq<byte>, t: seq<byte>, at: nat)
    requires DifferInWindow(s, t, at)
    ensures Crc(c, s) != Crc(c, t)
  {
    var k := if at <= |s| then at else |s|;
    var l := if at + 4 <= |s| then at + 4 else |s|;
    var mid, other, rest := s[k..l], t[k..l], s[l..];
    assert s == s[..k] + (mid + rest);
    assert t == t[..k] + (other + t[l..]);
    assert s[..k] == t[..k] && rest == t[l..];
    var d := Crc(c, s[..k]);
    CrcConcat(c, s[..k], mid + rest);
    CrcConcat(c, t[..k], other + rest);
    CrcConcat(d, mid, rest);
    CrcConcat(d, other, rest);
    if Crc(c, s) == Crc(c, t) {
      CrcInjectiveInRegister(Crc(d, mid), Crc(d, other), rest);
      CrcWordInjective(d, mid, other);
      assert false;
    }
  }

  // ---- The loops ---------------------------------------------------------------

  /** The bit loop: one byte of shifts. */
  method ShiftByte(register: u32) returns (crc: u32)
    ensures crc == CrcBits(register, ByteShifts())
  {
    crc := register;
    for bit := 0 to ByteShifts()
      invariant crc == CrcBits(register, bit)
    {
      CrcBitsSnoc(register, bit);
      XorU32(crc / 2, POLYNOMIAL);
      crc := if crc % 2 == 1 then Xor(crc / 2, POLYNOMIAL) else crc / 2;
    }
  }

  /** The byte and bit loops that advance a register over a buffer. */
  method Update(register: u32, data: seq<byte>) returns (crc: u32)
    ensures crc == Crc(register, data)
  {
    crc := register;
    for index := 0 to |data|
      invariant crc == Crc(register, data[..index])
    {
      XorU32(crc, data[index]);
      crc := ShiftByte(Xor(crc, data[index]));
      CrcSnoc(register, data[..index], data[index]);
      assert data[..index + 1] == data[..index] + [data[index]];
    }
    assert data[..|data|] == data;
  }

  /** Checksum of a frame whose last four bytes are read as zero. */
  function JamCrc(body: seq<byte>): u32 {
    Crc(INITIAL, body + [0, 0, 0, 0])
  }

  lemma JamCrcTellsApart(s: seq<byte>, t: seq<byte>, at: nat)
    requires DifferInWindow(s, t, at)
    ensures JamCrc(s) != JamCrc(t)
  {
    CrcConcat(INITIAL, s, [0, 0, 0, 0]);
    CrcConcat(INITIAL, t, [0, 0, 0, 0]);
    BurstChangesCrc(INITIAL, s, t, at);
    if JamCrc(s) == JamCrc(t) {
      CrcInjectiveInRegister(Crc(INITIAL, s), Crc(INITIAL, t), [0, 0, 0, 0]);
      assert false;
    }
  }

  /** Incremental checksum for transports that never hold a whole chunk. */
  class JamCrcStream {
    var value: u32
    ghost var absorbed: seq<byte>

    ghost predicate Valid()
      reads this
    {
      value == Crc(INITIAL, absorbed)
    }

    constructor ()
      ensures Valid() && absorbed == []
    {
      value := INITIAL;
      absorbed := [];
    }

    method Absorb(data: seq<byte>)
      requires Valid()
      modifies this
      ensures Valid() && absorbed == old(absorbed) + data
    {
      CrcConcat(INITIAL, absorbed, data);
      value := Update(value, data);
      absorbed := absorbed + data;
    }

    method FinishZeroedTrailer() returns (crc: u32)
      requires Valid()
      modifies this
      ensures crc == JamCrc(old(absorbed))
    {
      Absorb([0, 0, 0, 0]);
      crc := value;
    }
  }
}
