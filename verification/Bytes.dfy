/** Machine integers, byte strings and their big- and little-endian encodings. */
module Bytes {

  const U16_LIMIT: nat := 0x1_0000
  const U24_LIMIT: nat := 0x100_0000
  const U32_LIMIT: nat := 0x1_0000_0000
  const U64_LIMIT: nat := 0x1_0000_0000_0000_0000

  type byte = x: int | 0 <= x < 256
  type u16 = x: int | 0 <= x < 0x1_0000
  type u24 = x: int | 0 <= x < 0x100_0000
  type u32 = x: int | 0 <= x < 0x1_0000_0000
  type u64 = x: int | 0 <= x < 0x1_0000_0000_0000_0000

  function StoreU16Be(v: u16): seq<byte> {
    [v / 256, v % 256]
  }

  function StoreU16Le(v: u16): seq<byte> {
    [v % 256, v / 256]
  }

  function StoreU24Be(v: u24): seq<byte> {
    [v / 0x1_0000, v / 256 % 256, v % 256]
  }

  function StoreU32Be(v: u32): seq<byte> {
    [v / 0x100_0000, v / 0x1_0000 % 256, v / 256 % 256, v % 256]
  }

  function StoreU32Le(v: u32): seq<byte> {
    [v % 256, v / 256 % 256, v / 0x1_0000 % 256, v / 0x100_0000]
  }

  function LoadU16Be(s: seq<byte>): u16
    requires |s| == 2
  {
    var hi: int, lo: int := s[0], s[1];
    256 * hi + lo
  }

  function LoadU16Le(s: seq<byte>): u16
    requires |s| == 2
  {
    var lo: int, hi: int := s[0], s[1];
    lo + 256 * hi
  }

  function LoadU24Be(s: seq<byte>): u24
    requires |s| == 3
  {
    var a: int, b: int, c: int := s[0], s[1], s[2];
    0x1_0000 * a + 256 * b + c
  }

  function LoadU32Be(s: seq<byte>): u32
    requires |s| == 4
  {
    var a: int, b: int, c: int, d: int := s[0], s[1], s[2], s[3];
    0x100_0000 * a + 0x1_0000 * b + 256 * c + d
  }

  function LoadU32Le(s: seq<byte>): u32
    requires |s| == 4
  {
    var a: int, b: int, c: int, d: int := s[0], s[1], s[2], s[3];
    a + 256 * b + 0x1_0000 * c + 0x100_0000 * d
  }

  function StoreU64Le(v: u64): seq<byte> {
    StoreU32Le(v % 0x1_0000_0000) + StoreU32Le(v / 0x1_0000_0000)
  }

  function LoadU64Le(s: seq<byte>): u64
    requires |s| == 8
  {
    LoadU32Le(s[..4]) + 0x1_0000_0000 * LoadU32Le(s[4..])
  }

  lemma StoreLoadU16(v: u16)
    ensures LoadU16Be(StoreU16Be(v)) == v
    ensures LoadU16Le(StoreU16Le(v)) == v
  {
  }

  lemma StoreLoadU24(v: u24)
    ensures LoadU24Be(StoreU24Be(v)) == v
  {
  }

  lemma StoreLoadU32(v: u32)
    ensures LoadU32Be(StoreU32Be(v)) == v
    ensures LoadU32Le(StoreU32Le(v)) == v
  {
    var a: int, b: int, c: int := v / 256, v / 0x1_0000, v / 0x100_0000;
    assert v == 256 * a + v % 256 && a == 256 * b + a % 256 && b == 256 * c + b % 256;
  }

  lemma StoreLoadU64(v: u64)
    ensures LoadU64Le(StoreU64Le(v)) == v
  {
    var low, high := v % 0x1_0000_0000, v / 0x1_0000_0000;
    StoreLoadU32(low);
    StoreLoadU32(high);
    assert StoreU64Le(v)[..4] == StoreU32Le(low);
    assert StoreU64Le(v)[4..] == StoreU32Le(high);
  }

  lemma LoadStoreU32Be(s: seq<byte>)
    requires |s| == 4
    ensures StoreU32Be(LoadU32Be(s)) == s
  {
    var v: int := LoadU32Be(s);
    var upper: int := v / 256;
    assert v % 256 == s[3];
    assert upper == 0x1_0000 * (s[0] as int) + 256 * (s[1] as int) + s[2];
    assert upper % 256 == s[2];
    assert upper / 256 == 256 * (s[0] as int) + s[1];
    assert v / 0x1_0000 == upper / 256;
    assert v / 0x100_0000 == upper / 256 / 256;
  }

  /** The big-endian load of four bytes determines them. */
  lemma LoadU32BeInjective(s: seq<byte>, t: seq<byte>)
    requires |s| == |t| == 4
    requires LoadU32Be(s) == LoadU32Be(t)
    ensures s == t
  {
    LoadStoreU32Be(s);
    LoadStoreU32Be(t);
  }

  function Zeros(n: nat): (s: seq<byte>)
    ensures |s| == n
  {
    seq(n, _ => 0)
  }

  /** Concatenation of a list of byte strings. */
  function Flatten<T>(parts: seq<seq<T>>): seq<T> {
    if parts == [] then [] else parts[0] + Flatten(parts[1..])
  }

  lemma {:induction false} FlattenAppend<T>(parts: seq<seq<T>>, last: seq<T>)
    ensures Flatten(parts + [last]) == Flatten(parts) + last
  {
    if parts == [] {
      assert Flatten([last]) == last + Flatten<T>([]);
    } else {
      FlattenAppend(parts[1..], last);
      assert (parts + [last])[1..] == parts[1..] + [last];
    }
  }

  /** Copies bytes into a buffer; everything outside the copied range stays. */
  method CopyInto(output: array<byte>, at: nat, value: seq<byte>)
    requires at + |value| <= output.Length
    modifies output
    ensures output[..at + |value|] == old(output[..at]) + value
    ensures output[at + |value|..] == old(output[at + |value|..])
  {
    for index := 0 to |value|
      invariant output[..at + index] == old(output[..at]) + value[..index]
      invariant output[at + index..] == old(output[at + index..])
    {
      ghost var before := output[..at + index];
      output[at + index] := value[index];
      assert output[..at + index + 1] == before + [value[index]];
      assert value[..index + 1] == value[..index] + [value[index]];
      assert output[at + index + 1..] == old(output[at + index..])[1..];
    }
    assert value[..|value|] == value;
  }
}
