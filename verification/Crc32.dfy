/** The table-driven CRC of a buffer, and the polynomial division it stands for. */
module Crc32 {
  import opened Crc32Table

  /** The 32-bit register. */
  datatype Reg = Reg(bits: bv32)

  /** Section 8 of RFC 1952: the generator, bits reflected. */
  const POLY: bv32 := 0xedb88320

  function Shifted(c: bv32): bv32 {
    if c & 1 == 1 then (c >> 1) ^ POLY else c >> 1
  }

  /** One step of the reflected division: shift, and subtract the generator if a one falls out. */
  function Shift1(c: Reg): Reg {
    Reg(Shifted(c.bits))
  }

  function Shift8(c: Reg): Reg {
    Shift1(Shift1(Shift1(Shift1(Shift1(Shift1(Shift1(Shift1(c))))))))
  }

  function Xor(a: bv32, b: bv32): bv32 {
    a ^ b
  }

  /** Addition of polynomials over the field of two elements. */
  function Plus(a: Reg, b: Reg): Reg {
    Reg(Xor(a.bits, b.bits))
  }

  function Not(a: Reg): Reg {
    Reg(!a.bits)
  }

  function Init(): Reg {
    Reg(0xffff_ffff)
  }

  // ---------- the reference: one message bit at a time ----------

  function Half(b: bv8): bv8 {
    b >> 1
  }

  predicate Odd(b: bv8) {
    b & 1 == 1
  }

  function Bit(b: bool): Reg {
    Reg(if b then 1 else 0)
  }

  function Wide(b: bv8): Reg {
    Reg(b as bv32)
  }

  /** The bits of a byte, lowest first. */
  function BitsOf(b: bv8, n: nat): (bits: seq<bool>)
    ensures |bits| == n
  {
    if n == 0 then [] else [Odd(b)] + BitsOf(Half(b), n - 1)
  }

  function Bits(data: seq<bv8>): (bits: seq<bool>)
    ensures |bits| == 8 * |data|
  {
    if data == [] then [] else BitsOf(data[0], 8) + Bits(data[1..])
  }

  function Divide(c: Reg, bits: seq<bool>): Reg
    decreases bits
  {
    if bits == [] then c else Divide(Shift1(Plus(c, Bit(bits[0]))), bits[1..])
  }

  /** Section 8 of RFC 1952: the register starts with ones, and ones are added at the end. */
  function BitwiseCrc(data: seq<bv8>): Reg {
    Plus(Divide(Reg(0xffff_ffff), Bits(data)), Reg(0xffff_ffff))
  }

  // ---------- the table form ----------

  function Down(x: Reg): Reg {
    Reg(x.bits >> 8)
  }

  /** `x & 0xFF`. */
  function Index(x: Reg): bv8 {
    (x.bits & 0xff) as bv8
  }

  function Entry(i: bv8): Reg {
    Reg(Table(i))
  }

  /** The macro `CRC32C`: c = (c >> 8) ^ crc_c[(c ^ d) & 0xFF]. */
  function Update(c: Reg, d: bv8): Reg {
    Plus(Down(c), Entry(Index(Plus(c, Wide(d)))))
  }

  function UpdateAll(c: Reg, data: seq<bv8>): Reg
    decreases data
  {
    if data == [] then c else UpdateAll(Update(c, data[0]), data[1..])
  }

  function Crc(data: seq<bv8>): Reg {
    Not(UpdateAll(Init(), data))
  }

  // ---------- every table entry ----------

  lemma Row0Divides(i: bv8)
    requires i < 0x10
    ensures Row0(i) == Shift8(Wide(i)).bits
  {
  }

  lemma Row1Divides(i: bv8)
    requires 0x10 <= i < 0x20
    ensures Row1(i) == Shift8(Wide(i)).bits
  {
  }

  lemma Row2Divides(i: bv8)
    requires 0x20 <= i < 0x30
    ensures Row2(i) == Shift8(Wide(i)).bits
  {
  }

  lemma Row3DividesLow(i: bv8)
    requires 0x30 <= i < 0x38
    ensures Row3(i) == Shift8(Wide(i)).bits
  {
  }

  lemma Row3DividesHigh(i: bv8)
    requires 0x38 <= i < 0x40
    ensures Row3(i) == Shift8(Wide(i)).bits
  {
  }

  lemma Row3Divides(i: bv8)
    requires 0x30 <= i < 0x40
    ensures Row3(i) == Shift8(Wide(i)).bits
  {
    hide Row3, Shift8, Wide;
    if i < 0x38 {
      Row3DividesLow(i);
    } else {
      Row3DividesHigh(i);
    }
  }

  lemma Row4Divides(i: bv8)
    requires 0x40 <= i < 0x50
    ensures Row4(i) == Shift8(Wide(i)).bits
  {
  }

  lemma Row5Divides(i: bv8)
    requires 0x50 <= i < 0x60
    ensures Row5(i) == Shift8(Wide(i)).bits
  {
  }

  lemma Row6Divides(i: bv8)
    requires 0x60 <= i < 0x70
    ensures Row6(i) == Shift8(Wide(i)).bits
  {
  }

  lemma Row7Divides(i: bv8)
    requires 0x70 <= i < 0x80
    ensures Row7(i) == Shift8(Wide(i)).bits
  {
  }

  lemma Row8Divides(i: bv8)
    requires 0x80 <= i < 0x90
    ensures Row8(i) == Shift8(Wide(i)).bits
  {
  }

  lemma Row9Divides(i: bv8)
    requires 0x90 <= i < 0xa0
    ensures Row9(i) == Shift8(Wide(i)).bits
  {
  }

  lemma RowADivides(i: bv8)
    requires 0xa0 <= i < 0xb0
    ensures RowA(i) == Shift8(Wide(i)).bits
  {
  }

  lemma RowBDivides(i: bv8)
    requires 0xb0 <= i < 0xc0
    ensures RowB(i) == Shift8(Wide(i)).bits
  {
  }

  lemma RowCDivides(i: bv8)
    requires 0xc0 <= i < 0xd0
    ensures RowC(i) == Shift8(Wide(i)).bits
  {
  }

  lemma RowDDivides(i: bv8)
    requires 0xd0 <= i < 0xe0
    ensures RowD(i) == Shift8(Wide(i)).bits
  {
  }

  lemma RowEDivides(i: bv8)
    requires 0xe0 <= i < 0xf0
    ensures RowE(i) == Shift8(Wide(i)).bits
  {
  }

  lemma RowFDivides(i: bv8)
    requires 0xf0 <= i
    ensures RowF(i) == Shift8(Wide(i)).bits
  {
  }

  lemma TableDivides(i: bv8)
    ensures Table(i) == Shift8(Wide(i)).bits
  {
    if i < 0x10 {
      Row0Divides(i);
    } else if i < 0x20 {
      Row1Divides(i);
    } else if i < 0x30 {
      Row2Divides(i);
    } else if i < 0x40 {
      Row3Divides(i);
    } else if i < 0x50 {
      Row4Divides(i);
    } else if i < 0x60 {
      Row5Divides(i);
    } else if i < 0x70 {
      Row6Divides(i);
    } else if i < 0x80 {
      Row7Divides(i);
    } else if i < 0x90 {
      Row8Divides(i);
    } else if i < 0xa0 {
      Row9Divides(i);
    } else if i < 0xb0 {
      RowADivides(i);
    } else if i < 0xc0 {
      RowBDivides(i);
    } else if i < 0xd0 {
      RowCDivides(i);
    } else if i < 0xe0 {
      RowDDivides(i);
    } else if i < 0xf0 {
      RowEDivides(i);
    } else {
      RowFDivides(i);
    }
  }

  // ---------- the division is linear ----------

  function Halved(c: bv32): bv32 {
    c >> 1
  }

  predicate LowBit(c: bv32) {
    c & 1 == 1
  }

  lemma ShiftedIs(c: bv32)
    ensures Shifted(c) == if LowBit(c) then Xor(Halved(c), POLY) else Halved(c)
  {
  }

  lemma HalvedLinear(a: bv32, b: bv32)
    ensures Halved(Xor(a, b)) == Xor(Halved(a), Halved(b))
  {
  }

  lemma LowBitOfSum(a: bv32, b: bv32)
    ensures LowBit(Xor(a, b)) <==> LowBit(a) != LowBit(b)
  {
  }

  lemma XorRearranges(a: bv32, b: bv32, c: bv32)
    ensures Xor(Xor(a, c), b) == Xor(Xor(a, b), c)
    ensures Xor(a, Xor(b, c)) == Xor(Xor(a, b), c)
    ensures Xor(Xor(a, c), Xor(b, c)) == Xor(a, b)
  {
  }

  lemma ShiftedLinear(a: bv32, b: bv32)
    ensures Shifted(Xor(a, b)) == Xor(Shifted(a), Shifted(b))
  {
    hide Shifted, Xor, Halved, LowBit;
    ShiftedIs(a);
    ShiftedIs(b);
    ShiftedIs(Xor(a, b));
    HalvedLinear(a, b);
    LowBitOfSum(a, b);
    XorRearranges(Halved(a), Halved(b), POLY);
  }

  lemma Shift1Linear(a: Reg, b: Reg)
    ensures Shift1(Plus(a, b)) == Plus(Shift1(a), Shift1(b))
  {
    hide Shifted, Xor;
    ShiftedLinear(a.bits, b.bits);
  }

  lemma XorAssociates(a: bv32, b: bv32, c: bv32)
    ensures Xor(Xor(a, b), c) == Xor(a, Xor(b, c))
  {
  }

  lemma PlusAssociates(a: Reg, b: Reg, c: Reg)
    ensures Plus(Plus(a, b), c) == Plus(a, Plus(b, c))
  {
    hide Xor;
    XorAssociates(a.bits, b.bits, c.bits);
  }

  lemma Shift8Linear(a: Reg, b: Reg)
    ensures Shift8(Plus(a, b)) == Plus(Shift8(a), Shift8(b))
  {
    hide Shift1, Plus;
    var a1, b1 := Shift1(a), Shift1(b);
    var a2, b2 := Shift1(a1), Shift1(b1);
    var a3, b3 := Shift1(a2), Shift1(b2);
    var a4, b4 := Shift1(a3), Shift1(b3);
    var a5, b5 := Shift1(a4), Shift1(b4);
    var a6, b6 := Shift1(a5), Shift1(b5);
    var a7, b7 := Shift1(a6), Shift1(b6);
    Shift1Linear(a, b);
    Shift1Linear(a1, b1);
    Shift1Linear(a2, b2);
    Shift1Linear(a3, b3);
    Shift1Linear(a4, b4);
    Shift1Linear(a5, b5);
    Shift1Linear(a6, b6);
    Shift1Linear(a7, b7);
  }

  /** The part of the register that a table step only shifts down. */
  function High(x: Reg): Reg {
    Reg(x.bits & 0xffff_ff00)
  }

  lemma Shift8High(x: Reg)
    ensures Shift8(High(x)) == Down(x)
  {
  }

  lemma HighAndIndex(x: Reg)
    ensures x == Plus(High(x), Wide(Index(x)))
  {
  }

  lemma DownUntouched(c: Reg, d: bv8)
    ensures Down(Plus(c, Wide(d))) == Down(c)
  {
  }

  lemma EntryDivides(i: bv8)
    ensures Entry(i) == Shift8(Wide(i))
  {
    hide Table, Wide, Shift8;
    TableDivides(i);
  }

  /** One table step is eight division steps on the register with the byte added. */
  lemma UpdateDivides(c: Reg, d: bv8)
    ensures Update(c, d) == Shift8(Plus(c, Wide(d)))
  {
    hide Entry, Shift8, Plus, Wide, High, Index, Down;
    var x := Plus(c, Wide(d));
    HighAndIndex(x);
    DownUntouched(c, d);
    EntryDivides(Index(x));
    Shift8High(x);
    Shift8Linear(High(x), Wide(Index(x)));
  }

  // ---------- the table form refines the bitwise form ----------

  lemma SplitLow(b: bv8) returns (rest: Reg)
    ensures Wide(b) == Plus(Bit(Odd(b)), rest) && Shift1(rest) == Wide(Half(b))
  {
    rest := Reg(b as bv32 & 0xfe);
  }

  /** Adding a byte to the register and shifting feeds its lowest bit and leaves the others added. */
  lemma FeedLow(c: Reg, b: bv8)
    ensures Shift1(Plus(c, Wide(b))) == Plus(Shift1(Plus(c, Bit(Odd(b)))), Wide(Half(b)))
  {
    hide Shift1, Bit, Odd, Plus, Wide, Half;
    var rest := SplitLow(b);
    PlusAssociates(c, Bit(Odd(b)), rest);
    Shift1Linear(Plus(c, Bit(Odd(b))), rest);
  }

  lemma OneBit(c: Reg, b: bv8, n: nat, rest: seq<bool>) returns (c': Reg)
    requires n > 0
    ensures Divide(c, BitsOf(b, n) + rest) == Divide(c', BitsOf(Half(b), n - 1) + rest)
    ensures Shift1(Plus(c, Wide(b))) == Plus(c', Wide(Half(b)))
  {
    hide Shift1, Plus, Bit, Odd, Half, Wide;
    assert (BitsOf(b, n) + rest)[1..] == BitsOf(Half(b), n - 1) + rest;
    FeedLow(c, b);
    c' := Shift1(Plus(c, Bit(Odd(b))));
  }

  lemma NothingLeft(b: bv8, c: Reg)
    ensures Plus(c, Wide(Half(Half(Half(Half(Half(Half(Half(Half(b)))))))))) == c
  {
  }

  lemma Shift8Feeds(c: Reg, b: bv8, rest: seq<bool>)
    ensures Divide(c, BitsOf(b, 8) + rest) == Divide(Shift8(Plus(c, Wide(b))), rest)
  {
    hide Shift1, Plus, Divide, Half, Wide;
    var b1 := Half(b);
    var b2 := Half(b1);
    var b3 := Half(b2);
    var b4 := Half(b3);
    var b5 := Half(b4);
    var b6 := Half(b5);
    var b7 := Half(b6);
    var c1 := OneBit(c, b, 8, rest);
    var c2 := OneBit(c1, b1, 7, rest);
    var c3 := OneBit(c2, b2, 6, rest);
    var c4 := OneBit(c3, b3, 5, rest);
    var c5 := OneBit(c4, b4, 4, rest);
    var c6 := OneBit(c5, b5, 3, rest);
    var c7 := OneBit(c6, b6, 2, rest);
    var c8 := OneBit(c7, b7, 1, rest);
    NothingLeft(b, c8);
    assert BitsOf(Half(b7), 0) + rest == rest;
  }

  lemma {:induction false} UpdateAllDivides(c: Reg, data: seq<bv8>)
    ensures UpdateAll(c, data) == Divide(c, Bits(data))
    decreases data
  {
    hide Update, Shift8, Plus, Shift1, Wide;
    if data != [] {
      Shift8Feeds(c, data[0], Bits(data[1..]));
      UpdateDivides(c, data[0]);
      UpdateAllDivides(Update(c, data[0]), data[1..]);
    }
  }

  /** The table form is the bitwise division, for every buffer. */
  lemma CrcIsBitwise(data: seq<bv8>)
    ensures Crc(data) == BitwiseCrc(data)
  {
    hide UpdateAll, Divide, Bits, Plus, Not;
    UpdateAllDivides(Init(), data);
    NotAddsOnes(UpdateAll(Init(), data));
  }

  lemma NotAddsOnes(c: Reg)
    ensures Not(c) == Plus(c, Reg(0xffff_ffff))
  {
  }

  /** A buffer in two parts: the second continues from the register the first leaves. */
  lemma {:induction false} UpdateAllConcat(c: Reg, a: seq<bv8>, b: seq<bv8>)
    ensures UpdateAll(c, a + b) == UpdateAll(UpdateAll(c, a), b)
    decreases a
  {
    hide Update;
    if a == [] {
      assert a + b == b;
    } else {
      assert (a + b)[1..] == a[1..] + b;
      UpdateAllConcat(Update(c, a[0]), a[1..], b);
    }
  }

  /** The CRC of nothing. */
  lemma EmptyCrc()
    ensures Crc([]) == Reg(0)
  {
  }

  lemma UpdatedBy(c: Reg, data: seq<bv8>, n: nat)
    requires n < |data|
    ensures UpdateAll(c, data[..n + 1]) == Update(UpdateAll(c, data[..n]), data[n])
  {
    hide Update;
    assert data[..n + 1] == data[..n] + [data[n]];
    UpdateAllConcat(c, data[..n], [data[n]]);
  }

  /** The registers after the bytes "1" to "9". */
  lemma FirstThree()
    ensures Update(Reg(0xffffffff), 0x31) == Reg(0x7c231048)
    ensures Update(Reg(0x7c231048), 0x32) == Reg(0xb0acbb32)
    ensures Update(Reg(0xb0acbb32), 0x33) == Reg(0x77b79c2d)
  {
  }

  lemma NextThree()
    ensures Update(Reg(0x77b79c2d), 0x34) == Reg(0x641c1f5c)
    ensures Update(Reg(0x641c1f5c), 0x35) == Reg(0x340ac5e3)
    ensures Update(Reg(0x340ac5e3), 0x36) == Reg(0xf68d2c9e)
  {
  }

  lemma LastThree()
    ensures Update(Reg(0xf68d2c9e), 0x37) == Reg(0xaffc9660)
    ensures Update(Reg(0xaffc9660), 0x38) == Reg(0x651f2550)
    ensures Update(Reg(0x651f2550), 0x39) == Reg(0x340bc6d9)
  {
  }

  /** The check value of this CRC: that of the bytes "123456789". */
  lemma CheckValue()
    ensures Crc([0x31, 0x32, 0x33, 0x34, 0x35, 0x36, 0x37, 0x38, 0x39]) == Reg(0xcbf4_3926)
  {
    hide Update;
    var data: seq<bv8> := [0x31, 0x32, 0x33, 0x34, 0x35, 0x36, 0x37, 0x38, 0x39];
    FirstThree();
    NextThree();
    LastThree();
    assert data[..0] == [] && data[..9] == data;
    UpdatedBy(Init(), data, 0);
    UpdatedBy(Init(), data, 1);
    UpdatedBy(Init(), data, 2);
    UpdatedBy(Init(), data, 3);
    UpdatedBy(Init(), data, 4);
    UpdatedBy(Init(), data, 5);
    UpdatedBy(Init(), data, 6);
    UpdatedBy(Init(), data, 7);
    UpdatedBy(Init(), data, 8);
  }

  method GenerateCrc(buffer: seq<bv8>) returns (r: Reg)
    ensures r == Crc(buffer)
  {
    hide Update;
    var crc := Init();
    for i := 0 to |buffer|
      invariant crc == UpdateAll(Init(), buffer[..i])
    {
      assert buffer[..i + 1] == buffer[..i] + [buffer[i]];
      UpdateAllConcat(Init(), buffer[..i], [buffer[i]]);
      crc := Update(crc, buffer[i]);
    }
    assert buffer[..|buffer|] == buffer;
    r := Not(crc);
  }
}
