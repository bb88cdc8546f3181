/** The unrolled MD5 block transformation, and that it is the tabulated one. */
module Md5Transform {
  import opened Md5Fold

  /** The constants of the four steps from `i` on are the tabulated ones. */
  ghost predicate Tabulated(i: nat, k0: nat, t0: word, k1: nat, t1: word, k2: nat, t2: word, k3: nat, t3: word) {
    && i + 4 <= 64
    && k0 == WordIndex(i) && k1 == WordIndex(i + 1) && k2 == WordIndex(i + 2) && k3 == WordIndex(i + 3)
    && t0 == T(i) && t1 == T(i + 1) && t2 == T(i + 2) && t3 == T(i + 3)
  }

  /** Four lines of round 1, which leave every register in its own place. */
  method FourFF(ghost s: State, x: seq<word>, ghost i: nat, a0: word, b0: word, c0: word, d0: word,
      k0: nat, t0: word, k1: nat, t1: word, k2: nat, t2: word, k3: nat, t3: word)
    returns (a: word, b: word, c: word, d: word)
    requires Tabulated(i, k0, t0, k1, t1, k2, t2, k3, t3) && i / 16 == 0 && i % 4 == 0
    requires |x| == 16 && Steps(s, x, i) == State(a0, b0, c0, d0)
    ensures State(a, b, c, d) == Steps(s, x, i + 4)
  {
    hide Steps, T, WordIndex, FF, GG, HH, II;
    OneMoreStep(s, x, i);
    a, b, c, d := a0, b0, c0, d0;
    a := FF(a, b, c, d, x[k0], 7, t0);
    assert State(d, a, b, c) == Steps(s, x, i + 1);
    OneMoreStep(s, x, i + 1);
    d := FF(d, a, b, c, x[k1], 12, t1);
    assert State(c, d, a, b) == Steps(s, x, i + 2);
    OneMoreStep(s, x, i + 2);
    c := FF(c, d, a, b, x[k2], 17, t2);
    assert State(b, c, d, a) == Steps(s, x, i + 3);
    OneMoreStep(s, x, i + 3);
    b := FF(b, c, d, a, x[k3], 22, t3);
  }

  /** Four lines of round 2, which leave every register in its own place. */
  method FourGG(ghost s: State, x: seq<word>, ghost i: nat, a0: word, b0: word, c0: word, d0: word,
      k0: nat, t0: word, k1: nat, t1: word, k2: nat, t2: word, k3: nat, t3: word)
    returns (a: word, b: word, c: word, d: word)
    requires Tabulated(i, k0, t0, k1, t1, k2, t2, k3, t3) && i / 16 == 1 && i % 4 == 0
    requires |x| == 16 && Steps(s, x, i) == State(a0, b0, c0, d0)
    ensures State(a, b, c, d) == Steps(s, x, i + 4)
  {
    hide Steps, T, WordIndex, FF, GG, HH, II;
    OneMoreStep(s, x, i);
    a, b, c, d := a0, b0, c0, d0;
    a := GG(a, b, c, d, x[k0], 5, t0);
    assert State(d, a, b, c) == Steps(s, x, i + 1);
    OneMoreStep(s, x, i + 1);
    d := GG(d, a, b, c, x[k1], 9, t1);
    assert State(c, d, a, b) == Steps(s, x, i + 2);
    OneMoreStep(s, x, i + 2);
    c := GG(c, d, a, b, x[k2], 14, t2);
    assert State(b, c, d, a) == Steps(s, x, i + 3);
    OneMoreStep(s, x, i + 3);
    b := GG(b, c, d, a, x[k3], 20, t3);
  }

  /** Four lines of round 3, which leave every register in its own place. */
  method FourHH(ghost s: State, x: seq<word>, ghost i: nat, a0: word, b0: word, c0: word, d0: word,
      k0: nat, t0: word, k1: nat, t1: word, k2: nat, t2: word, k3: nat, t3: word)
    returns (a: word, b: word, c: word, d: word)
    requires Tabulated(i, k0, t0, k1, t1, k2, t2, k3, t3) && i / 16 == 2 && i % 4 == 0
    requires |x| == 16 && Steps(s, x, i) == State(a0, b0, c0, d0)
    ensures State(a, b, c, d) == Steps(s, x, i + 4)
  {
    hide Steps, T, WordIndex, FF, GG, HH, II;
    OneMoreStep(s, x, i);
    a, b, c, d := a0, b0, c0, d0;
    a := HH(a, b, c, d, x[k0], 4, t0);
    assert State(d, a, b, c) == Steps(s, x, i + 1);
    OneMoreStep(s, x, i + 1);
    d := HH(d, a, b, c, x[k1], 11, t1);
    assert State(c, d, a, b) == Steps(s, x, i + 2);
    OneMoreStep(s, x, i + 2);
    c := HH(c, d, a, b, x[k2], 16, t2);
    assert State(b, c, d, a) == Steps(s, x, i + 3);
    OneMoreStep(s, x, i + 3);
    b := HH(b, c, d, a, x[k3], 23, t3);
  }

  /** Four lines of round 4, which leave every register in its own place. */
  method FourII(ghost s: State, x: seq<word>, ghost i: nat, a0: word, b0: word, c0: word, d0: word,
      k0: nat, t0: word, k1: nat, t1: word, k2: nat, t2: word, k3: nat, t3: word)
    returns (a: word, b: word, c: word, d: word)
    requires Tabulated(i, k0, t0, k1, t1, k2, t2, k3, t3) && i / 16 == 3 && i % 4 == 0
    requires |x| == 16 && Steps(s, x, i) == State(a0, b0, c0, d0)
    ensures State(a, b, c, d) == Steps(s, x, i + 4)
  {
    hide Steps, T, WordIndex, FF, GG, HH, II;
    OneMoreStep(s, x, i);
    a, b, c, d := a0, b0, c0, d0;
    a := II(a, b, c, d, x[k0], 6, t0);
    assert State(d, a, b, c) == Steps(s, x, i + 1);
    OneMoreStep(s, x, i + 1);
    d := II(d, a, b, c, x[k1], 10, t1);
    assert State(c, d, a, b) == Steps(s, x, i + 2);
    OneMoreStep(s, x, i + 2);
    c := II(c, d, a, b, x[k2], 15, t2);
    assert State(b, c, d, a) == Steps(s, x, i + 3);
    OneMoreStep(s, x, i + 3);
    b := II(b, c, d, a, x[k3], 21, t3);
  }

  method Round1(ghost s: State, x: seq<word>, a0: word, b0: word, c0: word, d0: word)
    returns (a: word, b: word, c: word, d: word)
    requires |x| == 16 && Steps(s, x, 0) == State(a0, b0, c0, d0)
    ensures State(a, b, c, d) == Steps(s, x, 16)
  {
    hide Steps;
    a, b, c, d := a0, b0, c0, d0;
    a, b, c, d := FourFF(s, x, 0, a, b, c, d,
      0, 0xd76aa478, 1, 0xe8c7b756, 2, 0x242070db, 3, 0xc1bdceee);
    a, b, c, d := FourFF(s, x, 4, a, b, c, d,
      4, 0xf57c0faf, 5, 0x4787c62a, 6, 0xa8304613, 7, 0xfd469501);
    a, b, c, d := FourFF(s, x, 8, a, b, c, d,
      8, 0x698098d8, 9, 0x8b44f7af, 10, 0xffff5bb1, 11, 0x895cd7be);
    a, b, c, d := FourFF(s, x, 12, a, b, c, d,
      12, 0x6b901122, 13, 0xfd987193, 14, 0xa679438e, 15, 0x49b40821);
  }

  method Round2(ghost s: State, x: seq<word>, a0: word, b0: word, c0: word, d0: word)
    returns (a: word, b: word, c: word, d: word)
    requires |x| == 16 && Steps(s, x, 16) == State(a0, b0, c0, d0)
    ensures State(a, b, c, d) == Steps(s, x, 32)
  {
    hide Steps;
    a, b, c, d := a0, b0, c0, d0;
    a, b, c, d := FourGG(s, x, 16, a, b, c, d,
      1, 0xf61e2562, 6, 0xc040b340, 11, 0x265e5a51, 0, 0xe9b6c7aa);
    a, b, c, d := FourGG(s, x, 20, a, b, c, d,
      5, 0xd62f105d, 10, 0x02441453, 15, 0xd8a1e681, 4, 0xe7d3fbc8);
    a, b, c, d := FourGG(s, x, 24, a, b, c, d,
      9, 0x21e1cde6, 14, 0xc33707d6, 3, 0xf4d50d87, 8, 0x455a14ed);
    a, b, c, d := FourGG(s, x, 28, a, b, c, d,
      13, 0xa9e3e905, 2, 0xfcefa3f8, 7, 0x676f02d9, 12, 0x8d2a4c8a);
  }

  method Round3(ghost s: State, x: seq<word>, a0: word, b0: word, c0: word, d0: word)
    returns (a: word, b: word, c: word, d: word)
    requires |x| == 16 && Steps(s, x, 32) == State(a0, b0, c0, d0)
    ensures State(a, b, c, d) == Steps(s, x, 48)
  {
    hide Steps;
    a, b, c, d := a0, b0, c0, d0;
    a, b, c, d := FourHH(s, x, 32, a, b, c, d,
      5, 0xfffa3942, 8, 0x8771f681, 11, 0x6d9d6122, 14, 0xfde5380c);
    a, b, c, d := FourHH(s, x, 36, a, b, c, d,
      1, 0xa4beea44, 4, 0x4bdecfa9, 7, 0xf6bb4b60, 10, 0xbebfbc70);
    a, b, c, d := FourHH(s, x, 40, a, b, c, d,
      13, 0x289b7ec6, 0, 0xeaa127fa, 3, 0xd4ef3085, 6, 0x04881d05);
    a, b, c, d := FourHH(s, x, 44, a, b, c, d,
      9, 0xd9d4d039, 12, 0xe6db99e5, 15, 0x1fa27cf8, 2, 0xc4ac5665);
  }

  method Round4(ghost s: State, x: seq<word>, a0: word, b0: word, c0: word, d0: word)
    returns (a: word, b: word, c: word, d: word)
    requires |x| == 16 && Steps(s, x, 48) == State(a0, b0, c0, d0)
    ensures State(a, b, c, d) == Steps(s, x, 64)
  {
    hide Steps;
    a, b, c, d := a0, b0, c0, d0;
    a, b, c, d := FourII(s, x, 48, a, b, c, d,
      0, 0xf4292244, 7, 0x432aff97, 14, 0xab9423a7, 5, 0xfc93a039);
    a, b, c, d := FourII(s, x, 52, a, b, c, d,
      12, 0x655b59c3, 3, 0x8f0ccc92, 10, 0xffeff47d, 1, 0x85845dd1);
    a, b, c, d := FourII(s, x, 56, a, b, c, d,
      8, 0x6fa87e4f, 15, 0xfe2ce6e0, 6, 0xa3014314, 13, 0x4e0811a1);
    a, b, c, d := FourII(s, x, 60, a, b, c, d,
      4, 0xf7537e82, 11, 0xbd3af235, 2, 0x2ad7d2bb, 9, 0xeb86d391);
  }

  method Decode(input: seq<bv8>) returns (output: seq<word>)
    requires |input| % 4 == 0
    ensures output == DecodeWords(input)
  {
    hide DecodeWord, DecodeWords;
    output := [];
    var i, j := 0, 0;
    NoWords();
    assert input[..0] == [];
    while j < |input|
      invariant j == 4 * i && j <= |input|
      invariant output == DecodeWords(input[..j])
    {
      DecodeOneMore(input, i);
      output := output + [DecodeWord(input[j..j + 4])];
      i, j := i + 1, j + 4;
    }
    assert input[..j] == input;
  }

  method Encode(input: seq<word>) returns (output: seq<bv8>)
    ensures output == EncodeWords(input)
  {
    hide EncodeWord, EncodeWords;
    output := [];
    NoWords();
    assert input[..0] == [];
    for i := 0 to |input|
      invariant output == EncodeWords(input[..i])
    {
      EncodeOneMore(input, i);
      output := output + EncodeWord(input[i]);
    }
    assert input[..|input|] == input;
  }

  method Transform(state: State, block: seq<bv8>) returns (next: State)
    requires |block| == 64
    ensures next == Compress(state, block)
  {
    hide DecodeWords, Steps, SumStates;
    var x := Decode(block);
    NoSteps(state, x);
    var a, b, c, d := Round1(state, x, state.a, state.b, state.c, state.d);
    a, b, c, d := Round2(state, x, a, b, c, d);
    a, b, c, d := Round3(state, x, a, b, c, d);
    a, b, c, d := Round4(state, x, a, b, c, d);
    next := SumStates(state, State(a, b, c, d));
  }
}
