/** Octets and the fixed-width unsigned integers of the C sources, as bounded integers, with the
    big-endian accessors that network headers use. */
module Bytes {

  datatype Option<+T> = None | Some(value: T)

  type byte = x: int | 0 <= x < 0x100
  type u16 = x: int | 0 <= x < 0x1_0000
  type u32 = x: int | 0 <= x < 0x1_0000_0000

  /** A hardware address. */
  type Mac = x: int | 0 <= x < 0x1_0000_0000_0000

  /** `(b & mask) != 0` for a mask with a single bit set. */
  predicate Bit(b: byte, mask: int)
    requires mask in {1, 2, 4, 8, 16, 32, 64, 128}
  {
    (b / mask) % 2 == 1
  }

  /** The upper-case hexadecimal digit of a value. */
  function HexDigit(v: int): byte
    requires 0 <= v < 16
  {
    if v < 10 then '0' as int + v else 'A' as int + v - 10
  }

  /** The value of a hexadecimal digit of either case. */
  function HexValue(c: byte): (v: Option<int>)
    ensures v.Some? ==> 0 <= v.value < 16
  {
    if '0' as int <= c <= '9' as int then Some(c - '0' as int)
    else if 'A' as int <= c <= 'F' as int then Some(c - 'A' as int + 10)
    else if 'a' as int <= c <= 'f' as int then Some(c - 'a' as int + 10)
    else None
  }

  function Be16(x: u16): (s: seq<byte>)
    ensures |s| == 2
  {
    [x / 0x100, x % 0x100]
  }

  function Be32(x: u32): (s: seq<byte>)
    ensures |s| == 4
  {
    [x / 0x100_0000, (x / 0x1_0000) % 0x100, (x / 0x100) % 0x100, x % 0x100]
  }

  function U16At(s: seq<byte>, i: nat): u16
    requires i + 2 <= |s|
  {
    s[i] as int * 0x100 + s[i + 1] as int
  }

  function U32At(s: seq<byte>, i: nat): u32
    requires i + 4 <= |s|
  {
    s[i] as int * 0x100_0000 + s[i + 1] as int * 0x1_0000 + s[i + 2] as int * 0x100 + s[i + 3] as int
  }

  /** Network order: the highest byte first. */
  lemma NetworkOrder()
    ensures Be16(0x0102) == [1, 2] && U16At([1, 2], 0) == 0x0102
    ensures Be32(0x0102_0304) == [1, 2, 3, 4] && U32At([1, 2, 3, 4], 0) == 0x0102_0304
  {
  }

  lemma Be32RoundTrip(x: u32)
    ensures U32At(Be32(x), 0) == x
  {
    assert x / 0x100 == (x / 0x1_0000) * 0x100 + (x / 0x100) % 0x100;
    assert x / 0x1_0000 == (x / 0x100_0000) * 0x100 + (x / 0x1_0000) % 0x100;
  }

  /** The text of a C string: what comes before the first zero, or everything. */
  function CString(s: seq<byte>): (r: seq<byte>)
    ensures r <= s && 0 !in r && (|r| < |s| ==> s[|r|] == 0)
  {
    if s == [] || s[0] == 0 then [] else [s[0]] + CString(s[1..])
  }

  lemma {:induction false} CStringIs(s: seq<byte>, n: nat)
    requires n <= |s| && 0 !in s[..n] && (n < |s| ==> s[n] == 0)
    ensures CString(s) == s[..n]
  {
    if n > 0 {
      assert s[0] == s[..n][0];
      assert s[1..][..n - 1] == s[..n][1..];
      CStringIs(s[1..], n - 1);
    }
  }
}
