/** The checks on the LAN address, its mask and the range given out by DHCP. Addresses are 32-bit words,
    in host order unless said otherwise. */
module Netmask {
  const TOP: bv32 := 0x8000_0000

  // ---------- masks ----------

  predicate Top(m: bv32) {
    m & TOP != 0
  }

  function Shifted(m: bv32): bv32 {
    m << 1
  }

  lemma ShiftDecreases(m: bv32)
    requires Top(m)
    ensures Shifted(m) < m
  {
  }

  /** What is left of a word when its leading ones are shifted out. */
  function Rest(m: bv32): bv32
    decreases m
  {
    if !Top(m) then m else
      ShiftDecreases(m);
      Rest(Shifted(m))
  }

  /** `checkmask`; a word that is not zero is not zero as a signed number either. */
  method CheckMask(mask: bv32) returns (r: bv32)
    ensures r == Rest(mask)
  {
    r := mask;
    while Top(r)
      invariant Rest(r) == Rest(mask)
      decreases r
    {
      ShiftDecreases(r);
      r := r << 1;
    }
  }

  function OneMore(m: bv32): bv32 {
    (m >> 1) | TOP
  }

  /** The word that starts with n ones and ends with zeros. */
  function Ones(n: nat): bv32 {
    if n == 0 then 0 else OneMore(Ones(n - 1))
  }

  /** Below its highest zero a word has no one. */
  predicate High(m: bv32) {
    !m & (!m + 1) == 0
  }

  lemma HighWithoutTop(m: bv32)
    requires !Top(m)
    ensures High(m) <==> m == 0
  {
  }

  lemma HighShifted(m: bv32)
    requires Top(m)
    ensures High(m) <==> High(Shifted(m))
  {
  }

  lemma ShiftedBack(m: bv32)
    requires Top(m)
    ensures m == OneMore(Shifted(m))
  {
  }

  lemma HighOneMore(m: bv32)
    requires High(m)
    ensures High(OneMore(m))
  {
  }

  lemma {:induction false} RestIsZeroIff(m: bv32)
    ensures Rest(m) == 0 <==> High(m)
    decreases m
  {
    hide High, Shifted, Top;
    if Top(m) {
      HighShifted(m);
      ShiftDecreases(m);
      RestIsZeroIff(Shifted(m));
    } else {
      HighWithoutTop(m);
    }
  }

  lemma HighZero()
    ensures High(0)
  {
  }

  lemma {:induction false} OnesAreHigh(n: nat)
    ensures High(Ones(n))
  {
    hide High, OneMore;
    if n > 0 {
      OnesAreHigh(n - 1);
      HighOneMore(Ones(n - 1));
    } else {
      HighZero();
    }
  }

  lemma {:induction false} HighIsOnes(m: bv32) returns (n: nat)
    requires High(m)
    ensures m == Ones(n)
    decreases m
  {
    hide High, Shifted, Top, OneMore;
    if Top(m) {
      HighShifted(m);
      ShiftedBack(m);
      ShiftDecreases(m);
      n := HighIsOnes(Shifted(m));
      n := n + 1;
    } else {
      HighWithoutTop(m);
      n := 0;
    }
  }

  /** `checkmask` accepts exactly the words that are ones followed by zeros. */
  lemma MaskAcceptedIff(m: bv32)
    ensures Rest(m) == 0 <==> exists n :: m == Ones(n)
  {
    hide Rest, High;
    RestIsZeroIff(m);
    if High(m) {
      var n := HighIsOnes(m);
    }
    forall n | m == Ones(n)
      ensures High(m)
    {
      OnesAreHigh(n);
    }
  }

  // ---------- address pairs ----------

  function And(a: bv32, b: bv32): bv32 {
    a & b
  }

  function Not(a: bv32): bv32 {
    !a
  }

  /** `ip_check2`. */
  function IpCheck2(ips: bv32, ipe: bv32, mask: bv32): int {
    if ips == ipe then -1
    else if And(ips, mask) != And(ipe, mask) then -1
    else
      var s := And(ips, Not(mask));
      if s == 0 || s == Not(mask) then -1
      else
        var e := And(ipe, Not(mask));
        if e == 0 || e == Not(mask) then -1 else 0
  }

  // ---------- byte order ----------

  /** `ntohl` and `htonl` on a little-endian machine. */
  function Swap(x: bv32): bv32 {
    (x << 24) | ((x & 0xFF00) << 8) | ((x >> 8) & 0xFF00) | (x >> 24)
  }

  lemma SwapTwice(x: bv32)
    ensures Swap(Swap(x)) == x
  {
  }

  lemma SwapAnd(a: bv32, b: bv32)
    ensures And(Swap(a), Swap(b)) == Swap(And(a, b)) && Not(Swap(a)) == Swap(Not(a)) && Swap(0) == 0
  {
  }

  lemma SwapSame(a: bv32, b: bv32)
    ensures Swap(a) == Swap(b) <==> a == b
  {
    SwapTwice(a);
    SwapTwice(b);
  }

  /** The check gives the same answer on words in network order. */
  lemma OrderDoesNotMatter(ips: bv32, ipe: bv32, mask: bv32)
    ensures IpCheck2(Swap(ips), Swap(ipe), Swap(mask)) == IpCheck2(ips, ipe, mask)
  {
    hide Swap, And, Not;
    SwapAnd(mask, mask);
    SwapAnd(ips, mask);
    SwapAnd(ipe, mask);
    SwapAnd(ips, Not(mask));
    SwapAnd(ipe, Not(mask));
    SwapSame(ips, ipe);
    SwapSame(And(ips, mask), And(ipe, mask));
    SwapSame(And(ips, Not(mask)), 0);
    SwapSame(And(ips, Not(mask)), Not(mask));
    SwapSame(And(ipe, Not(mask)), 0);
    SwapSame(And(ipe, Not(mask)), Not(mask));
  }

  // ---------- the settings ----------

  /** `x` is in the subnet of `ip` and is neither its network nor its broadcast address. */
  predicate HostOf(x: bv32, ip: bv32, mask: bv32) {
    And(x, mask) == And(ip, mask) && x != And(ip, mask) && x != Or(And(ip, mask), Not(mask))
  }

  function Or(a: bv32, b: bv32): bv32 {
    a | b
  }

  lemma NoHostPart(x: bv32, mask: bv32)
    requires x == And(x, mask)
    ensures And(x, Not(mask)) == 0
  {
  }

  lemma OnlyNetPart(x: bv32, mask: bv32)
    requires And(x, Not(mask)) == 0
    ensures x == And(x, mask)
  {
  }

  lemma FullHostPart(x: bv32, mask: bv32)
    requires x == Or(And(x, mask), Not(mask))
    ensures And(x, Not(mask)) == Not(mask)
  {
  }

  lemma AllOnesPart(x: bv32, mask: bv32)
    requires And(x, Not(mask)) == Not(mask)
    ensures x == Or(And(x, mask), Not(mask))
  {
  }

  lemma PartsOf(x: bv32, mask: bv32)
    ensures x == And(x, mask) <==> And(x, Not(mask)) == 0
    ensures x == Or(And(x, mask), Not(mask)) <==> And(x, Not(mask)) == Not(mask)
  {
    hide And, Or, Not;
    if x == And(x, mask) { NoHostPart(x, mask); }
    if And(x, Not(mask)) == 0 { OnlyNetPart(x, mask); }
    if x == Or(And(x, mask), Not(mask)) { FullHostPart(x, mask); }
    if And(x, Not(mask)) == Not(mask) { AllOnesPart(x, mask); }
  }

  lemma CheckMeans(ip: bv32, x: bv32, mask: bv32)
    ensures IpCheck2(ip, x, mask) == 0 <==> ip != x && HostOf(ip, ip, mask) && HostOf(x, ip, mask)
  {
    PartsOf(ip, mask);
    PartsOf(x, mask);
    hide And, Or, Not;
  }

  predicate Le(a: bv32, b: bv32) {
    a <= b
  }

  function Xor(a: bv32, b: bv32): bv32 {
    a ^ b
  }

  lemma XorUnits(a: bv32, b: bv32)
    ensures Xor(a, a) == 0 && Xor(a, Xor(a, b)) == b && Xor(a, 0) == a
  {
  }

  lemma AndXor(a: bv32, b: bv32, mask: bv32)
    ensures And(Xor(a, b), mask) == Xor(And(a, mask), And(b, mask))
  {
    AndXorBits(a, b, mask);
  }

  lemma AndXorBits(a: bv32, b: bv32, m: bv32)
    ensures (a ^ b) & m == (a & m) ^ (b & m)
  {
  }

  /** Two words are in one subnet exactly when the mask leaves nothing of their difference. */
  lemma SameNetIff(a: bv32, b: bv32, mask: bv32)
    ensures And(a, mask) == And(b, mask) <==> And(Xor(a, b), mask) == 0
  {
    hide And, Xor;
    AndXor(a, b, mask);
    XorUnits(And(a, mask), And(b, mask));
  }

  lemma DifferenceBetween(start: bv32, x: bv32, end: bv32, mask: bv32)
    requires High(mask) && Le(start, x) && Le(x, end) && And(Xor(start, end), mask) == 0
    ensures And(Xor(start, x), mask) == 0
  {
    DifferenceBits(start, x, end, mask);
  }

  lemma DifferenceBits(s: bv32, x: bv32, e: bv32, m: bv32)
    requires !m & (!m + 1) == 0 && s <= x && x <= e && (s ^ e) & m == 0
    ensures (s ^ x) & m == 0
  {
  }

  /** Between two words of one subnet there are only words of it. */
  lemma SameNet(start: bv32, x: bv32, end: bv32, mask: bv32)
    requires High(mask) && Le(start, x) && Le(x, end) && And(start, mask) == And(end, mask)
    ensures And(x, mask) == And(start, mask)
  {
    hide And, Xor, High, Le;
    SameNetIff(start, end, mask);
    SameNetIff(start, x, mask);
    DifferenceBetween(start, x, end, mask);
  }

  lemma NoHostBelow(start: bv32, x: bv32, mask: bv32)
    requires High(mask) && Le(start, x) && And(Xor(start, x), mask) == 0 && And(x, Not(mask)) == 0
    ensures And(start, Not(mask)) == 0
  {
  }

  /** Below a network address nothing is in its subnet. */
  lemma NothingBelow(start: bv32, x: bv32, mask: bv32)
    requires High(mask) && Le(start, x) && And(x, mask) == And(start, mask) && And(x, Not(mask)) == 0
    ensures And(start, Not(mask)) == 0
  {
    hide And, Xor, Not, High, Le;
    SameNetIff(start, x, mask);
    NoHostBelow(start, x, mask);
  }

  lemma NotTurnsOrder(x: bv32, end: bv32)
    requires Le(x, end)
    ensures Le(Not(end), Not(x))
  {
  }

  lemma NotOfNet(x: bv32, mask: bv32)
    ensures And(Not(x), mask) == And(Not(And(x, mask)), mask)
  {
  }

  lemma FullToEmpty(x: bv32, mask: bv32)
    requires And(x, Not(mask)) == Not(mask)
    ensures And(Not(x), Not(mask)) == 0
  {
  }

  lemma EmptyToFull(x: bv32, mask: bv32)
    requires And(Not(x), Not(mask)) == 0
    ensures And(x, Not(mask)) == Not(mask)
  {
  }

  /** Above a broadcast address nothing is in its subnet. */
  lemma NothingAbove(x: bv32, end: bv32, mask: bv32)
    requires High(mask) && Le(x, end) && And(x, mask) == And(end, mask) && And(x, Not(mask)) == Not(mask)
    ensures And(end, Not(mask)) == Not(mask)
  {
    hide And, Not, High, Le;
    NotTurnsOrder(x, end);
    NotOfNet(x, mask);
    NotOfNet(end, mask);
    FullToEmpty(x, mask);
    NothingBelow(Not(end), Not(x), mask);
    EmptyToFull(end, mask);
  }

  /** Between two hosts of a subnet there are only hosts of it. */
  lemma RangeInSubnet(x: bv32, start: bv32, end: bv32, ip: bv32, mask: bv32)
    requires High(mask) && Le(start, x) && Le(x, end) && HostOf(start, ip, mask) && HostOf(end, ip, mask)
    ensures HostOf(x, ip, mask)
  {
    hide And, Or, Not, High, Le;
    SameNet(start, x, end, mask);
    PartsOf(x, mask);
    PartsOf(start, mask);
    PartsOf(end, mask);
    if And(x, Not(mask)) == 0 {
      NothingBelow(start, x, mask);
    }
    if And(x, Not(mask)) == Not(mask) {
      NothingAbove(x, end, mask);
    }
  }

  /** The bytes of a word in turned order, and the mask of a network of 256 addresses. */
  lemma Examples()
    ensures Swap(0x0102_0304) == 0x0403_0201 && Ones(24) == 0xffff_ff00
    ensures Le(0x0a00_0001, 0xc0a8_0001) && !Le(0xc0a8_0001, 0x0a00_0001)
    ensures And(0xff00_ff00, 0x0ff0_0ff0) == 0x0f00_0f00 && Or(0xff00_ff00, 0x0ff0_0ff0) == 0xfff0_fff0
    ensures Not(0xff00_0ff0) == 0x00ff_f00f
  {
    OnesOf24();
  }

  lemma OnesOf24()
    ensures Ones(24) == 0xffff_ff00
  {
    assert Ones(4) == 0xf000_0000;
    assert Ones(8) == 0xff00_0000;
    assert Ones(12) == 0xfff0_0000;
    assert Ones(16) == 0xffff_0000;
    assert Ones(20) == 0xffff_f000;
  }

  /** The checks of the LAN settings, on words in network order. */
  method LanCheck(ip: bv32, mask: bv32, start: bv32, end: bv32) returns (ok: bool)
    ensures ok <==> LanAccepted(ip, mask, start, end)
  {
    var rest := CheckMask(Swap(mask));
    if rest != 0 {
      return false;
    }
    if !Le(Swap(start), Swap(end)) {
      return false;
    }
    if IpCheck2(ip, start, mask) != 0 {
      return false;
    }
    ok := IpCheck2(ip, end, mask) == 0;
  }

  predicate LanAccepted(ip: bv32, mask: bv32, start: bv32, end: bv32) {
    && Rest(Swap(mask)) == 0 && Le(Swap(start), Swap(end))
    && IpCheck2(ip, start, mask) == 0 && IpCheck2(ip, end, mask) == 0
  }

  lemma LeSelf(a: bv32)
    ensures Le(a, a)
  {
  }

  /** Settings are accepted exactly when the mask is ones and then zeros, the range is not empty, its ends
      are not the LAN address, and the LAN address and all of the range are hosts of one subnet. */
  lemma AcceptedIff(ip: bv32, mask: bv32, start: bv32, end: bv32)
    ensures LanAccepted(Swap(ip), Swap(mask), Swap(start), Swap(end)) <==>
      && (exists n :: mask == Ones(n)) && Le(start, end) && ip != start && ip != end && HostOf(ip, ip, mask)
      && forall x: bv32 :: Le(start, x) && Le(x, end) ==> HostOf(x, ip, mask)
  {
    hide Rest, Swap, IpCheck2, HostOf, High, Le;
    LeSelf(start);
    LeSelf(end);
    SwapTwice(mask);
    SwapTwice(start);
    SwapTwice(end);
    OrderDoesNotMatter(ip, start, mask);
    OrderDoesNotMatter(ip, end, mask);
    CheckMeans(ip, start, mask);
    CheckMeans(ip, end, mask);
    MaskAcceptedIff(mask);
    RestIsZeroIff(mask);
    if LanAccepted(Swap(ip), Swap(mask), Swap(start), Swap(end)) {
      forall x: bv32 | Le(start, x) && Le(x, end)
        ensures HostOf(x, ip, mask)
      {
        RangeInSubnet(x, start, end, ip, mask);
      }
    }
  }

  /** The range may contain the LAN address: only its ends are compared with it. */
  lemma AddressInRange()
    ensures exists ip, mask, start, end :: LanAccepted(Swap(ip), Swap(mask), Swap(start), Swap(end)) && start < ip < end
  {
    var ip, mask, start, end := 0xC0A8_0A05, 0xFFFF_FF00, 0xC0A8_0A02, 0xC0A8_0A09;
    RestIsZeroIff(mask);
    SwapTwice(mask);
    SwapTwice(start);
    SwapTwice(end);
    OrderDoesNotMatter(ip, start, mask);
    OrderDoesNotMatter(ip, end, mask);
    assert LanAccepted(Swap(ip), Swap(mask), Swap(start), Swap(end));
  }
}
