/** The RC4 key schedule and the cipher that starts from a copy of the key on every call. */
module Rc4 {
  import opened Bytes

  /** Addition of `unsigned char`s, modulo 256. */
  function Add(a: byte, b: byte): byte {
    (a as int + b as int) % 256
  }

  function Identity(): (s: seq<byte>)
    ensures |s| == 256
  {
    seq(256, i requires 0 <= i < 256 => i)
  }

  /** The state holds every byte value exactly once. */
  ghost predicate Permutation(s: seq<byte>) {
    |s| == 256 && multiset(s) == multiset(Identity())
  }

  function Swapped(s: seq<byte>, i: byte, j: byte): (r: seq<byte>)
    requires |s| == 256
    ensures |r| == 256
  {
    s[i := s[j]][j := s[i]]
  }

  lemma SwapPermutes(s: seq<byte>, i: byte, j: byte)
    requires |s| == 256
    ensures multiset(Swapped(s, i, j)) == multiset(s)
  {
  }

  lemma EveryByteOnce(s: seq<byte>, b: byte)
    requires Permutation(s)
    ensures multiset(s)[b] == 1 && b in s
  {
    IdentityOnce(256, b);
    assert Identity()[..256] == Identity();
    assert b in multiset(s);
  }

  lemma {:induction false} IdentityOnce(n: nat, b: byte)
    requires n <= 256
    ensures multiset(Identity()[..n])[b] == if b < n then 1 else 0
  {
    if n > 0 {
      IdentityOnce(n - 1, b);
      assert Identity()[..n] == Identity()[..n - 1] + [n - 1];
    }
  }

  // ---------- key schedule ----------

  /** The key byte used in round `n`, as the `unsigned char` index moves. */
  function KeyIndex(len: nat, n: nat): (k: nat)
    requires len > 0
    ensures k < len && k < 256
  {
    if n == 0 then 0 else (KeyIndex(len, n - 1) + 1) % len % 256
  }

  /** The key is used byte after byte and over again, whatever its length. */
  lemma {:induction false} KeyIndexCycles(len: nat, n: nat)
    requires len > 0 && n < 256
    ensures KeyIndex(len, n) == if n < len then n else KeyIndex(len, n - len)
  {
    if n > 0 {
      KeyIndexCycles(len, n - 1);
      NextIndex(KeyIndex(len, n - 1), len);
      NextIndex(if n <= len then 0 else KeyIndex(len, n - 1 - len), len);
    }
  }

  lemma NextIndex(k: nat, len: nat)
    requires k < len
    ensures (k + 1) % len == if k + 1 == len then 0 else k + 1
  {
  }

  /** The state and the running index after `n` rounds. */
  function Scheduled(key: seq<byte>, n: nat): (r: (seq<byte>, byte))
    requires key != [] && n <= 256
    ensures |r.0| == 256
  {
    if n == 0 then (Identity(), 0)
    else
      var (s, j) := Scheduled(key, n - 1);
      var j' := Add(Add(key[KeyIndex(|key|, n - 1)], s[n - 1]), j);
      (Swapped(s, n - 1, j'), j')
  }

  lemma {:induction false} SchedulePermutes(key: seq<byte>, n: nat)
    requires key != [] && n <= 256
    ensures Permutation(Scheduled(key, n).0)
  {
    if n > 0 {
      SchedulePermutes(key, n - 1);
      var (s, j) := Scheduled(key, n - 1);
      SwapPermutes(s, n - 1, Add(Add(key[KeyIndex(|key|, n - 1)], s[n - 1]), j));
    }
  }

  // ---------- key stream ----------

  /** A generator: state and the two indices. */
  datatype Gen = Gen(s: seq<byte>, x: byte, y: byte)
  {
    predicate Valid() {
      |s| == 256
    }
  }

  function Step(g: Gen): (r: Gen)
    requires g.Valid()
    ensures r.Valid()
  {
    var x := Add(g.x, 1);
    var y := Add(g.s[x], g.y);
    Gen(Swapped(g.s, x, y), x, y)
  }

  function After(g: Gen, n: nat): (r: Gen)
    requires g.Valid()
    ensures r.Valid()
  {
    if n == 0 then g else Step(After(g, n - 1))
  }

  /** The `i`-th byte of the key stream. */
  function KeyByte(g: Gen, i: nat): byte
    requires g.Valid()
  {
    var r := After(g, i + 1);
    r.s[Add(r.s[r.x], r.s[r.y])]
  }

  function Mask(b: bv8, k: byte): bv8 {
    b ^ (k as bv8)
  }

  function Crypt(g: Gen, text: seq<bv8>): (r: seq<bv8>)
    requires g.Valid()
    ensures |r| == |text|
  {
    seq(|text|, i requires 0 <= i < |text| => Mask(text[i], KeyByte(g, i)))
  }

  lemma StepPermutes(g: Gen)
    requires Permutation(g.s)
    ensures Permutation(Step(g).s)
  {
    hide Swapped, Add, Identity;
    var x := Add(g.x, 1);
    SwapPermutes(g.s, x, Add(g.s[x], g.y));
  }

  lemma {:induction false} AfterPermutes(g: Gen, n: nat)
    requires Permutation(g.s)
    ensures Permutation(After(g, n).s)
  {
    hide Step;
    if n > 0 {
      AfterPermutes(g, n - 1);
      StepPermutes(After(g, n - 1));
    }
  }

  lemma MaskTwice(b: bv8, k: byte)
    ensures Mask(Mask(b, k), k) == b
  {
  }

  /** Encrypting twice with the same key restores the text. */
  lemma CryptTwice(g: Gen, text: seq<bv8>)
    requires g.Valid()
    ensures Crypt(g, Crypt(g, text)) == text
  {
    hide KeyByte, Mask;
    forall i | 0 <= i < |text|
      ensures Crypt(g, Crypt(g, text))[i] == text[i]
    {
      MaskTwice(text[i], KeyByte(g, i));
    }
  }

  /** A text in two calls is not a text in one call: every call restarts the key stream. */
  lemma CryptRestarts(g: Gen, a: seq<bv8>, b: seq<bv8>, i: nat)
    requires g.Valid() && i < |a| && i < |b|
    ensures Crypt(g, a)[i] ^ Crypt(g, b)[i] == a[i] ^ b[i]
  {
    hide KeyByte, Mask;
    MaskCancels(a[i], b[i], KeyByte(g, i));
  }

  lemma MaskCancels(a: bv8, b: bv8, k: byte)
    ensures Mask(a, k) ^ Mask(b, k) == a ^ b
  {
  }

  // ---------- the code ----------

  const SHORT_MAX := 0x7fff

  type short = x: int | -0x8000 <= x <= SHORT_MAX

  /** The counter of the byte loop after n increments: 16 bits, with wrap. */
  function Counter(n: nat): (c: short) {
    if n == 0 then 0 else if Counter(n - 1) == SHORT_MAX then -0x8000 else Counter(n - 1) + 1
  }

  lemma {:induction false} CounterCounts(n: nat)
    requires n <= SHORT_MAX
    ensures Counter(n) == n
  {
    if n > 0 {
      CounterCounts(n - 1);
    }
  }

  /** The loop ends, after some number of increments with `counter < len` false, exactly for lengths a
      `short` can reach; and it does so after as many increments as there are bytes. */
  lemma CounterStopsIff(len: int)
    ensures (exists n :: !(Counter(n) < len)) <==> len <= 32767
    ensures 0 <= len <= 32767 ==> Counter(len) == len && forall n :: 0 <= n < len ==> Counter(n) < len
  {
    if 0 <= len <= SHORT_MAX {
      CounterCounts(len);
      forall n | 0 <= n < len
        ensures Counter(n) < len
      {
        CounterCounts(n);
      }
    } else if len < 0 {
      assert !(Counter(0) < len);
    }
  }

  class Key {
    const state: array<byte>
    var x: byte
    var y: byte

    function View(): Gen
      reads this, state
    {
      Gen(state[..], x, y)
    }

    constructor ()
      ensures state.Length == 256 && fresh(state)
    {
      state := new byte[256](_ => 0);
      x, y := 0, 0;
    }

    method Prepare(key: seq<byte>)
      requires key != [] && state.Length == 256
      modifies this, state
      ensures View() == Gen(Scheduled(key, 256).0, 0, 0)
      ensures Permutation(state[..])
    {
      for counter := 0 to 256
        invariant forall i :: 0 <= i < counter ==> state[i] == i
      {
        state[counter] := counter;
      }
      assert state[..] == Identity();
      x, y := 0, 0;
      var index1: byte, index2: byte := 0, 0;
      for counter := 0 to 256
        invariant x == y == 0 && index1 == KeyIndex(|key|, counter)
        invariant (state[..], index2) == Scheduled(key, counter)
      {
        hide Add;
        index2 := Add(Add(key[index1], state[counter]), index2);
        ghost var before := state[..];
        var t := state[counter];
        state[counter] := state[index2];
        state[index2] := t;
        assert state[..] == Swapped(before, counter, index2);
        index1 := (index1 + 1) % |key| % 256;
      }
      SchedulePermutes(key, 256);
    }

    /** One step of the generator on a working copy. */
    static method Advance(s: array<byte>, x0: byte, y0: byte) returns (x: byte, y: byte, xorIndex: byte)
      requires s.Length == 256
      modifies s
      ensures Gen(s[..], x, y) == Step(old(Gen(s[..], x0, y0)))
      ensures xorIndex == Add(s[x], s[y])
    {
      hide Add;
      x := Add(x0, 1);
      y := Add(s[x], y0);
      ghost var before := s[..];
      var t := s[x];
      s[x] := s[y];
      s[y] := t;
      assert s[..] == Swapped(before, x, y);
      xorIndex := Add(s[x], s[y]);
    }

    /** Works on a copy of the state: the key is in no `modifies` clause. */
    method Rc4(buffer: array<bv8>, len: int)
      requires state.Length == 256 && len <= buffer.Length && len <= SHORT_MAX && buffer as object != state
      modifies buffer
      ensures var n := if len < 0 then 0 else len;
              buffer[..] == Crypt(View(), old(buffer[..n])) + old(buffer[n..])
    {
      hide KeyByte, Add, Step, Mask;
      var s := new byte[256](i requires 0 <= i < 256 reads this, state requires state.Length == 256 => state[i]);
      var x: byte, y: byte := this.x, this.y;
      ghost var g := View();
      assert s[..] == g.s;
      var counter: short := 0;
      while counter < len
        invariant 0 <= counter && (len >= 0 ==> counter <= len) && fresh(s) && (len < 0 ==> counter == 0)
        invariant View() == g && Gen(s[..], x, y) == After(g, counter)
        invariant forall i :: 0 <= i < counter ==> buffer[i] == Mask(old(buffer[i]), KeyByte(g, i))
        invariant forall i :: counter <= i < buffer.Length ==> buffer[i] == old(buffer[i])
      {
        var xorIndex;
        x, y, xorIndex := Advance(s, x, y);
        KeyByteIs(g, counter, s[..], x, y);
        buffer[counter] := Mask(buffer[counter], s[xorIndex]);
        counter := counter + 1;
      }
      CryptCells(g, old(buffer[..]), counter, buffer[..]);
    }
  }

  lemma CryptCells(g: Gen, before: seq<bv8>, n: nat, after: seq<bv8>)
    requires g.Valid() && n <= |before| == |after|
    requires forall i :: 0 <= i < n ==> after[i] == Mask(before[i], KeyByte(g, i))
    requires forall i :: n <= i < |after| ==> after[i] == before[i]
    ensures after == Crypt(g, before[..n]) + before[n..]
  {
    hide KeyByte, Mask;
  }

  lemma KeyByteIs(g: Gen, i: nat, s: seq<byte>, x: byte, y: byte)
    requires g.Valid() && |s| == 256 && After(g, i + 1) == Gen(s, x, y)
    ensures KeyByte(g, i) == s[Add(s[x], s[y])]
  {
  }
}
