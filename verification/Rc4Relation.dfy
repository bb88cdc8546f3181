/** The key schedule and the generator as tables of states in plain arithmetic, and the proof that the
    functions which specify the program fill in these tables. */
module Rc4Relation {
  import opened Bytes
  import opened Rc4

  /** `t` is `s` with cells i and j exchanged. */
  ghost predicate Exchanged(s: seq<byte>, t: seq<byte>, i: int, j: int) {
    && |s| == |t| == 256 && 0 <= i < 256 && 0 <= j < 256
    && t[i] == s[j] && t[j] == s[i]
    && forall k :: 0 <= k < 256 && k != i && k != j ==> t[k] == s[k]
  }

  // ---------- the key schedule ----------

  function Remainder(n: nat, len: nat): (r: nat)
    requires len > 0
    ensures r < len
  {
    n % len
  }

  /** Round n adds the n-th cell and the next byte of the key, used over and over, to the index, and
      exchanges the n-th cell with the one at the index. */
  ghost predicate IsRound(key: seq<byte>, s: seq<byte>, j: int, t: seq<byte>, j': int, n: nat)
    requires key != [] && n < 256 && |s| == 256
  {
    j' == (j + s[n] as int + key[Remainder(n, |key|)] as int) % 256 && Exchanged(s, t, n, j')
  }

  /** The states and indices before the first round and after each of the 256. */
  ghost predicate IsSchedule(key: seq<byte>, ss: seq<seq<byte>>, js: seq<int>)
    requires key != []
  {
    && |ss| == |js| == 257
    && (forall n :: 0 <= n <= 256 ==> |ss[n]| == 256)
    && js[0] == 0 && (forall k :: 0 <= k < 256 ==> ss[0][k] == k)
    && (forall n :: 0 <= n < 256 ==> IsRound(key, ss[n], js[n], ss[n + 1], js[n + 1], n))
  }

  lemma AtLeastOne(a: int, len: nat)
    requires a >= 1
    ensures a * len >= len
  {
    assert (a - 1) * len >= 0;
  }

  lemma RemainderIs(n: nat, len: nat, q: nat, r: nat)
    requires r < len && n == q * len + r
    ensures n % len == r
  {
    var q', r' := n / len, n % len;
    assert (q - q') * len == q * len - q' * len && (q' - q) * len == q' * len - q * len;
    if q > q' {
      AtLeastOne(q - q', len);
    } else if q < q' {
      AtLeastOne(q' - q, len);
    }
  }

  lemma NextRemainder(n: nat, len: nat)
    requires len > 0
    ensures (n + 1) % len == if n % len + 1 == len then 0 else n % len + 1
  {
    var q, r := n / len, n % len;
    if r + 1 == len {
      assert (q + 1) * len == q * len + len;
      RemainderIs(n + 1, len, q + 1, 0);
    } else {
      RemainderIs(n + 1, len, q, r + 1);
    }
  }

  lemma KeyIndexNext(len: nat, n: nat)
    requires len > 0 && KeyIndex(len, n) <= n < 255
    ensures KeyIndex(len, n + 1) == if KeyIndex(len, n) + 1 == len then 0 else KeyIndex(len, n) + 1
  {
    NextIndex(KeyIndex(len, n), len);
  }

  lemma FirstRemainder(len: nat)
    requires len > 0
    ensures Remainder(0, len) == 0 && KeyIndex(len, 0) == 0
  {
    RemainderIs(0, len, 0, 0);
  }

  lemma RemainderStep(n: nat, len: nat)
    requires len > 0
    ensures Remainder(n + 1, len) == if Remainder(n, len) + 1 == len then 0 else Remainder(n, len) + 1
  {
    NextRemainder(n, len);
  }

  lemma {:induction false} KeyIndexIsRemainder(len: nat, n: nat)
    requires len > 0 && n < 256
    ensures KeyIndex(len, n) == Remainder(n, len) <= n
  {
    hide KeyIndex, Remainder;
    FirstRemainder(len);
    if n > 0 {
      KeyIndexIsRemainder(len, n - 1);
      KeyIndexNext(len, n - 1);
      RemainderStep(n - 1, len);
    }
  }

  /** Any tables that follow the rounds hold what the specification says, so there is only one such state
      for a key. */
  lemma {:induction false} ScheduleIs(key: seq<byte>, ss: seq<seq<byte>>, js: seq<int>, n: nat)
    requires key != [] && IsSchedule(key, ss, js) && n <= 256
    ensures Scheduled(key, n) == (ss[n], js[n])
  {
    if n == 0 {
      assert ss[0] == Identity();
    } else {
      ScheduleIs(key, ss, js, n - 1);
      KeyIndexIsRemainder(|key|, n - 1);
      assert IsRound(key, ss[n - 1], js[n - 1], ss[n - 1 + 1], js[n - 1 + 1], n - 1);
      RoundIs(key, ss[n - 1], js[n - 1], ss[n], js[n], n - 1);
    }
  }

  lemma AddThree(a: byte, b: byte, c: byte)
    ensures Add(Add(a, b), c) == (c as int + b as int + a as int) % 256
  {
  }

  lemma SwapExchanges(s: seq<byte>, i: byte, j: byte)
    requires |s| == 256
    ensures Exchanged(s, Swapped(s, i, j), i, j)
  {
  }

  lemma ExchangedIs(s: seq<byte>, t: seq<byte>, i: byte, j: byte)
    requires Exchanged(s, t, i, j)
    ensures t == Swapped(s, i, j)
  {
  }

  lemma RoundIs(key: seq<byte>, s: seq<byte>, j: byte, t: seq<byte>, j': int, n: nat)
    requires key != [] && n < 256 && |s| == 256 && IsRound(key, s, j, t, j', n)
    ensures 0 <= j' < 256 && j' == Add(Add(key[Remainder(n, |key|)], s[n]), j) && t == Swapped(s, n, j')
  {
    hide Remainder, Add, Swapped, Exchanged;
    AddThree(key[Remainder(n, |key|)], s[n], j);
    ExchangedIs(s, t, n, j');
  }

  lemma RoundHolds(key: seq<byte>, n: nat)
    requires key != [] && n < 256
    ensures var (s, j), (t, j') := Scheduled(key, n), Scheduled(key, n + 1); IsRound(key, s, j, t, j', n)
  {
    hide Remainder, Add, Swapped, Exchanged, KeyIndex;
    KeyIndexIsRemainder(|key|, n);
    var (s, j) := Scheduled(key, n);
    var k := key[Remainder(n, |key|)];
    AddThree(k, s[n], j);
    SwapExchanges(s, n, Add(Add(k, s[n]), j));
  }

  lemma NoRounds(key: seq<byte>)
    requires key != []
    ensures Scheduled(key, 0) == (Identity(), 0)
  {
  }

  /** There are such tables for every key. */
  lemma ScheduleExists(key: seq<byte>) returns (ss: seq<seq<byte>>, js: seq<int>)
    requires key != []
    ensures IsSchedule(key, ss, js) && ss[256] == Scheduled(key, 256).0
  {
    hide Scheduled, IsRound;
    ss := seq(257, n requires 0 <= n <= 256 => Scheduled(key, n).0);
    js := seq(257, n requires 0 <= n <= 256 => Scheduled(key, n).1);
    NoRounds(key);
    forall n | 0 <= n < 256
      ensures IsRound(key, ss[n], js[n], ss[n + 1], js[n + 1], n)
    {
      RoundHolds(key, n);
    }
  }

  // ---------- the generator ----------

  /** One step: the first index moves on, the second moves by the cell at the first, the two cells are
      exchanged, and the output is the cell at the sum of the two. */
  ghost predicate IsStep(g: Gen, h: Gen, out: int)
    requires g.Valid() && h.Valid()
  {
    && h.x == (g.x as int + 1) % 256
    && h.y == (g.y as int + g.s[h.x] as int) % 256
    && Exchanged(g.s, h.s, h.x, h.y)
    && out == h.s[(h.s[h.x] as int + h.s[h.y] as int) % 256]
  }

  ghost predicate IsStream(gs: seq<Gen>, out: seq<int>) {
    && |gs| == |out| + 1 && (forall i :: 0 <= i < |gs| ==> gs[i].Valid())
    && forall i :: 0 <= i < |out| ==> IsStep(gs[i], gs[i + 1], out[i])
  }

  lemma StepIs(g: Gen, h: Gen, out: int)
    requires g.Valid() && h.Valid() && IsStep(g, h, out)
    ensures h == Step(g) && out == h.s[Add(h.s[h.x], h.s[h.y])]
  {
    ExchangedIs(g.s, h.s, h.x, h.y);
    hide Exchanged;
  }

  /** A table of steps holds the states of the generator, and its outputs are the key stream. */
  lemma {:induction false} StreamIs(gs: seq<Gen>, out: seq<int>, n: nat)
    requires IsStream(gs, out) && n <= |out|
    ensures After(gs[0], n) == gs[n] && (n > 0 ==> KeyByte(gs[0], n - 1) == out[n - 1])
  {
    hide Step, IsStep;
    if n > 0 {
      StreamIs(gs, out, n - 1);
      assert IsStep(gs[n - 1], gs[n - 1 + 1], out[n - 1]);
      StepIs(gs[n - 1], gs[n], out[n - 1]);
    }
  }

  /** Encryption adds the output bytes to the text, bit by bit without carry. */
  lemma CryptIs(gs: seq<Gen>, out: seq<int>, text: seq<bv8>, i: nat)
    requires IsStream(gs, out) && |out| == |text| && i < |text|
    ensures 0 <= out[i] < 256 && Crypt(gs[0], text)[i] == text[i] ^ (out[i] as bv8)
  {
    hide IsStep, KeyByte;
    StreamIs(gs, out, i + 1);
  }
}
