/** What the CRC detects: any difference confined to four consecutive bytes. */
module Crc32Burst {
  import opened Crc32

  predicate Zero(x: Reg) {
    x.bits == 0
  }

  /** The register difference still reaches above its lowest `k` bytes. */
  predicate Reaches(x: Reg, k: nat) {
    if k == 0 then x.bits != 0
    else if k == 1 then x.bits >= 0x100
    else if k == 2 then x.bits >= 0x1_0000
    else x.bits >= 0x100_0000
  }

  function XorByte(a: bv8, b: bv8): bv8 {
    a ^ b
  }

  lemma NonzeroByteReaches(z: bv8)
    requires z != 0
    ensures Reaches(Shift8(Wide(z)), 3)
  {
  }

  lemma ReachesOneLess(x: Reg, z: bv8, k: nat)
    requires 1 <= k <= 3 && Reaches(x, k)
    ensures Reaches(Shift8(Plus(x, Wide(z))), k - 1)
  {
  }

  lemma NonzeroStays(x: Reg)
    requires !Zero(x)
    ensures !Zero(Shift8(x))
  {
  }

  /** Feeding two registers a byte each feeds their difference the difference of the bytes. */
  lemma UpdateDifference(c: Reg, d: Reg, a: bv8, b: bv8)
    ensures Plus(Update(c, a), Update(d, b)) == Shift8(Plus(Plus(c, d), Wide(XorByte(a, b))))
  {
    hide Shift8, Plus, Wide, XorByte, Update;
    UpdateDivides(c, a);
    UpdateDivides(d, b);
    var x, y := Wide(a), Wide(b);
    Shift8Linear(Plus(c, x), Plus(d, y));
    Interchange(c, x, d, y);
    WideXor(a, b);
  }

  lemma Interchange(a: Reg, x: Reg, b: Reg, y: Reg)
    ensures Plus(Plus(a, x), Plus(b, y)) == Plus(Plus(a, b), Plus(x, y))
  {
    hide Xor;
    XorInterchange(a.bits, x.bits, b.bits, y.bits);
  }

  lemma XorInterchange(a: bv32, x: bv32, b: bv32, y: bv32)
    ensures Xor(Xor(a, x), Xor(b, y)) == Xor(Xor(a, b), Xor(x, y))
  {
    hide Xor;
    XorAssociates(a, x, Xor(b, y));
    XorAssociates(x, b, y);
    XorCommutes(x, b);
    XorAssociates(b, x, y);
    XorAssociates(a, b, Xor(x, y));
  }

  lemma XorCommutes(a: bv32, b: bv32)
    ensures Xor(a, b) == Xor(b, a)
  {
  }

  lemma WideXor(a: bv8, b: bv8)
    ensures Wide(XorByte(a, b)) == Plus(Wide(a), Wide(b))
  {
  }

  lemma XorUnits(a: bv32)
    ensures Xor(a, a) == 0 && Xor(a, 0) == a && Xor(0, a) == a
  {
  }

  lemma XorZero(a: bv32, b: bv32)
    ensures Xor(a, b) == 0 <==> a == b
  {
    hide Xor;
    XorAssociates(a, b, b);
    XorUnits(a);
    XorUnits(b);
  }

  lemma EqualIffZero(c: Reg, d: Reg)
    ensures c == d <==> Zero(Plus(c, d))
  {
    hide Xor;
    XorZero(c.bits, d.bits);
    assert c == d <==> c.bits == d.bits;
  }

  lemma EqualByte(a: bv8, c: Reg)
    ensures Plus(c, Wide(XorByte(a, a))) == c
  {
  }

  /** Different registers stay different over the same bytes. */
  lemma {:induction false} RegisterRemembered(c: Reg, d: Reg, s: seq<bv8>)
    requires c != d
    ensures UpdateAll(c, s) != UpdateAll(d, s)
    decreases s
  {
    hide Shift8, Plus, Wide, XorByte, Update, Zero;
    if s != [] {
      var a := s[0];
      UpdateDifference(c, d, a, a);
      EqualByte(a, Plus(c, d));
      EqualIffZero(c, d);
      NonzeroStays(Plus(c, d));
      EqualIffZero(Update(c, a), Update(d, a));
      RegisterRemembered(Update(c, a), Update(d, a), s[1..]);
    }
  }

  /** A difference that reaches above `k` bytes survives `k` more bytes, whatever they are. */
  lemma {:induction false} ReachSurvives(c: Reg, d: Reg, u: seq<bv8>, v: seq<bv8>, k: nat)
    requires |u| == |v| <= k <= 3 && Reaches(Plus(c, d), k)
    ensures UpdateAll(c, u) != UpdateAll(d, v)
    decreases u
  {
    hide Shift8, Plus, Wide, XorByte, Update;
    if u == [] {
      EqualIffZero(c, d);
    } else {
      UpdateDifference(c, d, u[0], v[0]);
      ReachesOneLess(Plus(c, d), XorByte(u[0], v[0]), k);
      ReachSurvives(Update(c, u[0]), Update(d, v[0]), u[1..], v[1..], k - 1);
    }
  }

  lemma FirstDifference(c: Reg, a: bv8, b: bv8)
    requires a != b
    ensures Reaches(Plus(Update(c, a), Update(c, b)), 3)
  {
    hide Shift8, Plus, Wide, Update, Reaches;
    UpdateDifference(c, c, a, b);
    DifferentBytes(a, b, c);
    NonzeroByteReaches(XorByte(a, b));
  }

  lemma DifferentBytes(a: bv8, b: bv8, c: Reg)
    requires a != b
    ensures XorByte(a, b) != 0 && Plus(Plus(c, c), Wide(XorByte(a, b))) == Wide(XorByte(a, b))
  {
  }

  /** Two different windows of up to four bytes leave different registers. */
  lemma {:induction false} WindowRemembered(c: Reg, u: seq<bv8>, v: seq<bv8>)
    requires |u| == |v| <= 4 && u != v
    ensures UpdateAll(c, u) != UpdateAll(c, v)
    decreases u
  {
    hide Update, Reaches;
    if u[0] == v[0] {
      assert u[1..] != v[1..] by {
        assert u == [u[0]] + u[1..] && v == [v[0]] + v[1..];
      }
      WindowRemembered(Update(c, u[0]), u[1..], v[1..]);
    } else {
      FirstDifference(c, u[0], v[0]);
      ReachSurvives(Update(c, u[0]), Update(c, v[0]), u[1..], v[1..], 3);
    }
  }

  lemma NotInjective(a: Reg, b: Reg)
    ensures Not(a) == Not(b) <==> a == b
  {
    assert a == b <==> a.bits == b.bits;
  }

  /** Buffers of equal length, of any length, that differ only inside four consecutive bytes never
      have the same CRC. */
  lemma BurstDetected(a: seq<bv8>, b: seq<bv8>, at: nat)
    requires |a| == |b| && a != b
    requires forall j :: 0 <= j < |a| && !(at <= j < at + 4) ==> a[j] == b[j]
    ensures Crc(a) != Crc(b)
  {
    hide Update, UpdateAll, Not;
    var i := if at <= |a| then at else |a|;
    var e := if at + 4 <= |a| then at + 4 else |a|;
    var p, u, v, s := a[..i], a[i..e], b[i..e], a[e..];
    assert a == p + (u + s) && b == p + (v + s);
    var c := UpdateAll(Init(), p);
    UpdateAllConcat(Init(), p, u + s);
    UpdateAllConcat(Init(), p, v + s);
    UpdateAllConcat(c, u, s);
    UpdateAllConcat(c, v, s);
    WindowRemembered(c, u, v);
    RegisterRemembered(UpdateAll(c, u), UpdateAll(c, v), s);
    NotInjective(UpdateAll(UpdateAll(c, u), s), UpdateAll(UpdateAll(c, v), s));
  }

  // ---------- four is the most ----------

  /** Five bytes with the bits of the generator flipped. */
  function Flipped(u: seq<bv8>): (v: seq<bv8>)
    requires |u| == 5
  {
    [XorByte(u[0], 0x01), XorByte(u[1], 0x96), XorByte(u[2], 0x30), XorByte(u[3], 0x07), XorByte(u[4], 0x77)]
  }

  lemma FlippedByte(a: bv8, z: bv8)
    ensures XorByte(a, XorByte(a, z)) == z
  {
  }

  /** One byte further into the flipped bytes: the difference of the registers becomes `y`. */
  lemma FlippedStep(c: Reg, d: Reg, a: bv8, z: bv8, x: Reg, y: Reg)
    requires Plus(c, d) == x && Shift8(Plus(x, Wide(z))) == y
    ensures Plus(Update(c, a), Update(d, XorByte(a, z))) == y
  {
    hide Shift8, Plus, Wide, XorByte, Update;
    UpdateDifference(c, d, a, XorByte(a, z));
    FlippedByte(a, z);
  }

  lemma FlippedDifferences()
    ensures Shift8(Plus(Reg(0), Wide(0x01))) == Reg(0x7707_3096)
    ensures Shift8(Plus(Reg(0x7707_3096), Wide(0x96))) == Reg(0x0077_0730)
    ensures Shift8(Plus(Reg(0x0077_0730), Wide(0x30))) == Reg(0x0000_7707)
    ensures Shift8(Plus(Reg(0x0000_7707), Wide(0x07))) == Reg(0x0000_0077)
    ensures Shift8(Plus(Reg(0x0000_0077), Wide(0x77))) == Reg(0)
  {
  }

  function Five(c: Reg, u: seq<bv8>): Reg
    requires |u| == 5
  {
    Update(Update(Update(Update(Update(c, u[0]), u[1]), u[2]), u[3]), u[4])
  }

  lemma UpdateAllFive(c: Reg, u: seq<bv8>, s: seq<bv8>)
    requires |u| == 5
    ensures UpdateAll(c, u + s) == UpdateAll(Five(c, u), s)
  {
    hide Update;
    var t := u + s;
    var c1 := Update(c, u[0]);
    var c2 := Update(c1, u[1]);
    var c3 := Update(c2, u[2]);
    assert t[1..][1..] == t[2..] && t[2..][1..] == t[3..] && t[3..][1..] == t[4..] && t[4..][1..] == s;
    assert UpdateAll(c, t) == UpdateAll(c1, t[1..]) == UpdateAll(c2, t[2..]);
    assert UpdateAll(c2, t[2..]) == UpdateAll(c3, t[3..]);
    assert UpdateAll(c3, t[3..]) == UpdateAll(Update(c3, u[3]), t[4..]);
  }

  lemma FiveFlipped(c: Reg, u: seq<bv8>)
    requires |u| == 5
    ensures Five(c, Flipped(u)) == Five(c, u)
  {
    hide Shift8, Plus, Wide, XorByte, Update;
    var v := Flipped(u);
    FlippedDifferences();
    EqualIffZero(c, c);
    assert Plus(c, c) == Reg(0);
    var c1, d1 := Update(c, u[0]), Update(c, v[0]);
    var c2, d2 := Update(c1, u[1]), Update(d1, v[1]);
    var c3, d3 := Update(c2, u[2]), Update(d2, v[2]);
    var c4, d4 := Update(c3, u[3]), Update(d3, v[3]);
    FlippedStep(c, c, u[0], 0x01, Reg(0), Reg(0x7707_3096));
    FlippedStep(c1, d1, u[1], 0x96, Reg(0x7707_3096), Reg(0x0077_0730));
    FlippedStep(c2, d2, u[2], 0x30, Reg(0x0077_0730), Reg(0x0000_7707));
    FlippedStep(c3, d3, u[3], 0x07, Reg(0x0000_7707), Reg(0x0000_0077));
    FlippedStep(c4, d4, u[4], 0x77, Reg(0x0000_0077), Reg(0));
    EqualIffZero(Update(c4, u[4]), Update(d4, v[4]));
  }

  lemma FlippedDiffers(a: bv8)
    ensures XorByte(a, 0x01) != a
  {
  }

  /** Every buffer of five bytes or more has, at every place, a change of five consecutive bytes that
      leaves its CRC as it was. */
  lemma FiveBytesUndetected(p: seq<bv8>, u: seq<bv8>, s: seq<bv8>)
    requires |u| == 5
    ensures Flipped(u) != u && Crc(p + (Flipped(u) + s)) == Crc(p + (u + s))
  {
    hide Update, UpdateAll, Not, Five, XorByte;
    FlippedDiffers(u[0]);
    var c := UpdateAll(Init(), p);
    UpdateAllConcat(Init(), p, u + s);
    UpdateAllConcat(Init(), p, Flipped(u) + s);
    UpdateAllFive(c, u, s);
    UpdateAllFive(c, Flipped(u), s);
    FiveFlipped(c, u);
  }
}
