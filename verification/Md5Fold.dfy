/** The MD5 message digest of RFC 1321: the compression function as the standard tabulates it, the
    padding and the digest of a whole message. */
module Md5Fold {

  type word = bv32

  datatype State = State(a: word, b: word, c: word, d: word)

  /** Section 3.3 of RFC 1321. */
  const INIT := State(0x67452301, 0xefcdab89, 0x98badcfe, 0x10325476)

  function F(x: word, y: word, z: word): word { (x & y) | (!x & z) }
  function G(x: word, y: word, z: word): word { (x & z) | (y & !z) }
  function H(x: word, y: word, z: word): word { x ^ y ^ z }
  function I(x: word, y: word, z: word): word { y ^ (x | !z) }

  predicate IsShift(n: nat) {
    4 <= n <= 23 && n != 8 && n != 13 && n != 18 && n != 19
  }

  /** `ROTATE_LEFT` for the amounts the four rounds use, each shift by a constant. */
  function RotateLeft(x: word, n: nat): word
    requires IsShift(n)
  {
    match n
    case 4 => (x << 4) | (x >> 28)
    case 5 => (x << 5) | (x >> 27)
    case 6 => (x << 6) | (x >> 26)
    case 7 => (x << 7) | (x >> 25)
    case 9 => (x << 9) | (x >> 23)
    case 10 => (x << 10) | (x >> 22)
    case 11 => (x << 11) | (x >> 21)
    case 12 => (x << 12) | (x >> 20)
    case 14 => (x << 14) | (x >> 18)
    case 15 => (x << 15) | (x >> 17)
    case 16 => (x << 16) | (x >> 16)
    case 17 => (x << 17) | (x >> 15)
    case 20 => (x << 20) | (x >> 12)
    case 21 => (x << 21) | (x >> 11)
    case 22 => (x << 22) | (x >> 10)
    case _ => (x << 23) | (x >> 9)
  }

  /** The table T of section 3.4, a round at a time: integer parts of 4294967296 * |sin(i + 1)|. */
  function T1(j: nat): word
    requires j < 16
  {
    match j
    case 0 => 0xd76aa478 case 1 => 0xe8c7b756 case 2 => 0x242070db case 3 => 0xc1bdceee
    case 4 => 0xf57c0faf case 5 => 0x4787c62a case 6 => 0xa8304613 case 7 => 0xfd469501
    case 8 => 0x698098d8 case 9 => 0x8b44f7af case 10 => 0xffff5bb1 case 11 => 0x895cd7be
    case 12 => 0x6b901122 case 13 => 0xfd987193 case 14 => 0xa679438e case _ => 0x49b40821
  }

  function T2(j: nat): word
    requires j < 16
  {
    match j
    case 0 => 0xf61e2562 case 1 => 0xc040b340 case 2 => 0x265e5a51 case 3 => 0xe9b6c7aa
    case 4 => 0xd62f105d case 5 => 0x02441453 case 6 => 0xd8a1e681 case 7 => 0xe7d3fbc8
    case 8 => 0x21e1cde6 case 9 => 0xc33707d6 case 10 => 0xf4d50d87 case 11 => 0x455a14ed
    case 12 => 0xa9e3e905 case 13 => 0xfcefa3f8 case 14 => 0x676f02d9 case _ => 0x8d2a4c8a
  }

  function T3(j: nat): word
    requires j < 16
  {
    match j
    case 0 => 0xfffa3942 case 1 => 0x8771f681 case 2 => 0x6d9d6122 case 3 => 0xfde5380c
    case 4 => 0xa4beea44 case 5 => 0x4bdecfa9 case 6 => 0xf6bb4b60 case 7 => 0xbebfbc70
    case 8 => 0x289b7ec6 case 9 => 0xeaa127fa case 10 => 0xd4ef3085 case 11 => 0x04881d05
    case 12 => 0xd9d4d039 case 13 => 0xe6db99e5 case 14 => 0x1fa27cf8 case _ => 0xc4ac5665
  }

  function T4(j: nat): word
    requires j < 16
  {
    match j
    case 0 => 0xf4292244 case 1 => 0x432aff97 case 2 => 0xab9423a7 case 3 => 0xfc93a039
    case 4 => 0x655b59c3 case 5 => 0x8f0ccc92 case 6 => 0xffeff47d case 7 => 0x85845dd1
    case 8 => 0x6fa87e4f case 9 => 0xfe2ce6e0 case 10 => 0xa3014314 case 11 => 0x4e0811a1
    case 12 => 0xf7537e82 case 13 => 0xbd3af235 case 14 => 0x2ad7d2bb case _ => 0xeb86d391
  }

  function T(i: nat): word
    requires i < 64
  {
    if i < 16 then T1(i) else if i < 32 then T2(i - 16) else if i < 48 then T3(i - 32) else T4(i - 48)
  }

  /** Which message word step `i` of the 64 uses. */
  function WordIndex(i: nat): (k: nat)
    requires i < 64
    ensures k < 16
  {
    if i < 16 then i else if i < 32 then (5 * i + 1) % 16 else if i < 48 then (3 * i + 5) % 16 else (7 * i) % 16
  }

  function Shift(i: nat): (n: nat)
    requires i < 64
    ensures IsShift(n)
  {
    var j := i % 4;
    if i < 16 then if j == 0 then 7 else if j == 1 then 12 else if j == 2 then 17 else 22
    else if i < 32 then if j == 0 then 5 else if j == 1 then 9 else if j == 2 then 14 else 20
    else if i < 48 then if j == 0 then 4 else if j == 1 then 11 else if j == 2 then 16 else 23
    else if j == 0 then 6 else if j == 1 then 10 else if j == 2 then 15 else 21
  }

  /** Addition modulo 2^32. */
  function Sum(a: word, f: word, k: word, t: word): word {
    a + f + k + t
  }

  function Plus(a: word, b: word): word {
    a + b
  }

  /** `[abcd k s i]` of section 3.4: a = b + ((a + F(b, c, d) + X[k] + T(i)) <<< s), and the like for
      the other rounds. */
  function FF(a: word, b: word, c: word, d: word, x: word, s: nat, ac: word): word
    requires IsShift(s)
  {
    Plus(RotateLeft(Sum(a, F(b, c, d), x, ac), s), b)
  }

  function GG(a: word, b: word, c: word, d: word, x: word, s: nat, ac: word): word
    requires IsShift(s)
  {
    Plus(RotateLeft(Sum(a, G(b, c, d), x, ac), s), b)
  }

  function HH(a: word, b: word, c: word, d: word, x: word, s: nat, ac: word): word
    requires IsShift(s)
  {
    Plus(RotateLeft(Sum(a, H(b, c, d), x, ac), s), b)
  }

  function II(a: word, b: word, c: word, d: word, x: word, s: nat, ac: word): word
    requires IsShift(s)
  {
    Plus(RotateLeft(Sum(a, I(b, c, d), x, ac), s), b)
  }

  function Operation(round: nat, a: word, b: word, c: word, d: word, x: word, s: nat, ac: word): word
    requires round < 4 && IsShift(s)
  {
    if round == 0 then FF(a, b, c, d, x, s, ac) else if round == 1 then GG(a, b, c, d, x, s, ac)
    else if round == 2 then HH(a, b, c, d, x, s, ac) else II(a, b, c, d, x, s, ac)
  }

  /** Step `i`: the four registers move round by one place. */
  function Step(s: State, x: seq<word>, i: nat): State
    requires i < 64 && |x| == 16
  {
    State(s.d, Operation(i / 16, s.a, s.b, s.c, s.d, x[WordIndex(i)], Shift(i), T(i)), s.b, s.c)
  }

  function Steps(s: State, x: seq<word>, n: nat): State
    requires n <= 64 && |x| == 16
  {
    if n == 0 then s else Step(Steps(s, x, n - 1), x, n - 1)
  }

  lemma NoSteps(s: State, x: seq<word>)
    requires |x| == 16
    ensures Steps(s, x, 0) == s
  {
  }

  lemma OneMoreStep(s: State, x: seq<word>, i: nat)
    requires |x| == 16 && i < 64
    ensures Steps(s, x, i + 1) == Step(Steps(s, x, i), x, i)
  {
  }

  function DecodeWord(b: seq<bv8>): word
    requires |b| == 4
  {
    (b[0] as word) | (b[1] as word << 8) | (b[2] as word << 16) | (b[3] as word << 24)
  }

  function EncodeWord(w: word): (b: seq<bv8>)
    ensures |b| == 4
  {
    [(w & 0xff) as bv8, ((w >> 8) & 0xff) as bv8, ((w >> 16) & 0xff) as bv8, ((w >> 24) & 0xff) as bv8]
  }

  function DecodeWords(b: seq<bv8>): (x: seq<word>)
    requires |b| % 4 == 0
    ensures |x| == |b| / 4
  {
    if |b| == 0 then [] else DecodeWords(b[..|b| - 4]) + [DecodeWord(b[|b| - 4..])]
  }

  function EncodeWords(x: seq<word>): (b: seq<bv8>)
    ensures |b| == 4 * |x|
  {
    if |x| == 0 then [] else EncodeWords(x[..|x| - 1]) + EncodeWord(x[|x| - 1])
  }

  lemma DecodeOneMore(b: seq<bv8>, i: nat)
    requires |b| % 4 == 0 && 4 * i + 4 <= |b|
    ensures DecodeWords(b[..4 * i + 4]) == DecodeWords(b[..4 * i]) + [DecodeWord(b[4 * i..4 * i + 4])]
  {
    hide DecodeWord;
    var c := b[..4 * i + 4];
    assert c[..|c| - 4] == b[..4 * i] && c[|c| - 4..] == b[4 * i..4 * i + 4];
  }

  lemma EncodeOneMore(x: seq<word>, i: nat)
    requires i < |x|
    ensures EncodeWords(x[..i + 1]) == EncodeWords(x[..i]) + EncodeWord(x[i])
  {
    hide EncodeWord;
    assert x[..i + 1][..i] == x[..i];
  }

  lemma NoWords()
    ensures DecodeWords([]) == [] && EncodeWords([]) == []
  {
  }

  lemma WordRoundTrip(w: word)
    ensures DecodeWord(EncodeWord(w)) == w
  {
  }

  /** Encoding and decoding word sequences undo each other. */
  lemma {:induction false} WordsRoundTrip(x: seq<word>)
    ensures DecodeWords(EncodeWords(x)) == x
  {
    hide DecodeWord, EncodeWord;
    if |x| > 0 {
      var b, n := EncodeWords(x), |x| - 1;
      assert b[..4 * n] == EncodeWords(x[..n]) && b[4 * n..] == EncodeWord(x[n]);
      WordsRoundTrip(x[..n]);
      WordRoundTrip(x[n]);
    }
  }

  function SumStates(s: State, t: State): State {
    State(s.a + t.a, s.b + t.b, s.c + t.c, s.d + t.d)
  }

  function Compress(s: State, block: seq<bv8>): State
    requires |block| == 64
  {
    var x := DecodeWords(block);
    SumStates(s, Steps(s, x, 4 * |x|))
  }

  /** All blocks of a message, first to last. */
  function Fold(m: seq<bv8>): State
    requires |m| % 64 == 0
  {
    if |m| == 0 then INIT else Compress(Fold(m[..|m| - 64]), m[|m| - 64..])
  }

  /** Section 3.1: one bit and then zeros, at least one byte, up to 56 modulo 64. */
  function PadLength(n: nat): (k: nat)
    ensures 1 <= k <= 64
  {
    if n % 64 < 56 then 56 - n % 64 else 120 - n % 64
  }

  lemma PadLengthIsRfc(n: nat, k: nat)
    ensures k == PadLength(n) <==> 1 <= k <= 64 && (n + k) % 64 == 56
  {
  }

  function Padding(k: nat): (p: seq<bv8>)
    requires k >= 1
    ensures |p| == k
  {
    [0x80] + seq(k - 1, _ => 0)
  }

  function WordOf(n: nat): word {
    (n % 0x1_0000_0000) as word
  }

  /** Section 3.2: the length in bits, modulo 2^64, low word first. */
  function LengthBytes(n: nat): (b: seq<bv8>)
    ensures |b| == 8
  {
    EncodeWords([WordOf(8 * n), WordOf(8 * n / 0x1_0000_0000)])
  }

  function Padded(m: seq<bv8>): (p: seq<bv8>)
    ensures |p| % 64 == 0
  {
    var k := PadLength(|m|);
    assert (|m| + k + 8) % 64 == 0;
    m + Padding(k) + LengthBytes(|m|)
  }

  function Md5(m: seq<bv8>): (digest: seq<bv8>)
    ensures |digest| == 16
  {
    var s := Fold(Padded(m));
    EncodeWords([s.a, s.b, s.c, s.d])
  }
}
