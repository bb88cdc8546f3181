/** Known answers of appendix A.5 of RFC 1321, and its functions bit by bit. */
module Md5Answers {
  import opened Md5Fold
  import opened Md5Steps

  // ---------- the blocks ----------

  lemma {:induction false} WordAt(b: seq<bv8>, k: nat)
    requires |b| % 4 == 0 && 4 * k < |b|
    ensures DecodeWords(b)[..k] == DecodeWords(b[..4 * k]) && DecodeWords(b)[k] == DecodeWord(b[4 * k..4 * k + 4])
    decreases |b| - 4 * k
  {
    hide DecodeWord, DecodeWords;
    DecodeOneMore(b, k);
    var front, w := DecodeWords(b[..4 * k]), DecodeWord(b[4 * k..4 * k + 4]);
    if 4 * k + 4 < |b| {
      WordAt(b, k + 1);
      assert DecodeWords(b)[..k + 1] == front + [w];
      assert DecodeWords(b)[..k] == DecodeWords(b)[..k + 1][..k] && DecodeWords(b)[k] == DecodeWords(b)[..k + 1][k];
    } else {
      assert b[..4 * k + 4] == b;
    }
  }

  lemma WordsOf(b: seq<bv8>)
    requires |b| == 64
    ensures forall k :: 0 <= k < 16 ==>
      DecodeWords(b)[k] == DecodeWord([b[4 * k], b[4 * k + 1], b[4 * k + 2], b[4 * k + 3]])
  {
    hide DecodeWord, DecodeWords;
    forall k | 0 <= k < 16
      ensures DecodeWords(b)[k] == DecodeWord([b[4 * k], b[4 * k + 1], b[4 * k + 2], b[4 * k + 3]])
    {
      WordAt(b, k);
      assert b[4 * k..4 * k + 4] == [b[4 * k], b[4 * k + 1], b[4 * k + 2], b[4 * k + 3]];
    }
  }

  lemma LiteralWords()
    ensures DecodeWord([0, 0, 0, 0]) == 0 && DecodeWord([0x80, 0, 0, 0]) == 0x80 && DecodeWord([0x80, 2, 0, 0]) == 0x280
    ensures DecodeWord([0x31, 0x32, 0x33, 0x34]) == 0x34333231 && DecodeWord([0x35, 0x36, 0x37, 0x38]) == 0x38373635
    ensures DecodeWord([0x39, 0x30, 0x31, 0x32]) == 0x32313039 && DecodeWord([0x33, 0x34, 0x35, 0x36]) == 0x36353433
    ensures DecodeWord([0x37, 0x38, 0x39, 0x30]) == 0x30393837
  {
  }

  lemma LengthOfNothing()
    ensures LengthBytes(0) == [0, 0, 0, 0, 0, 0, 0, 0]
  {
    assert EncodeWord(0) == [0, 0, 0, 0];
    TwoWords(0, 0);
  }

  lemma WordOf640()
    ensures WordOf(640) == 640 && WordOf(0) == 0
  {
  }

  lemma Encoded640()
    ensures EncodeWord(640) == [0x80, 2, 0, 0] && EncodeWord(0) == [0, 0, 0, 0]
  {
  }

  lemma LengthOfEighty()
    ensures LengthBytes(80) == [0x80, 2, 0, 0, 0, 0, 0, 0]
  {
    hide WordOf, EncodeWord, EncodeWords;
    WordOf640();
    Encoded640();
    TwoWords(640, 0);
  }

  lemma TwoWords(v: word, w: word)
    ensures EncodeWords([v, w]) == EncodeWord(v) + EncodeWord(w)
  {
    hide EncodeWord;
    assert [v, w][..1] == [v] && [v][..0] == [];
  }

  lemma FourWords(s: State)
    ensures EncodeWords([s.a, s.b, s.c, s.d]) == EncodeWord(s.a) + EncodeWord(s.b) + EncodeWord(s.c) + EncodeWord(s.d)
  {
    hide EncodeWord, EncodeWords;
    var x := [s.a, s.b, s.c, s.d];
    TwoWords(s.a, s.b);
    EncodeOneMore(x, 2);
    EncodeOneMore(x, 3);
    assert x[..2] == [s.a, s.b] && x[..4] == x;
  }

  // ---------- the answers ----------

  lemma OneBlock(p: seq<bv8>)
    requires |p| == 64
    ensures Fold(p) == Compress(INIT, p)
  {
    assert p[..0] == [] && p[0..] == p;
  }

  lemma TwoBlocks(p: seq<bv8>)
    requires |p| == 128
    ensures Fold(p) == Compress(Compress(INIT, p[..64]), p[64..])
  {
    OneBlock(p[..64]);
  }

  lemma EmptyBlock(p: seq<bv8>)
    requires p == [0x80] + seq(55, _ => 0) + [0, 0, 0, 0, 0, 0, 0, 0]
    ensures Compress(INIT, p) == State(0xd98c1dd4, 0x04b2008f, 0x980980e9, 0x7e42f8ec)
  {
    hide DecodeWord, DecodeWords, Steps;
    WordsOf(p);
    LiteralWords();
    var x := DecodeWords(p);
    assert p[0] == 0x80 && forall i :: 1 <= i < 64 ==> p[i] == 0;
    assert EmptyWords(x);
    EmptySteps(x);
  }

  /** MD5 ("") */
  lemma EmptyAnswer()
    ensures Md5([]) == [0xd4, 0x1d, 0x8c, 0xd9, 0x8f, 0x00, 0xb2, 0x04, 0xe9, 0x80, 0x09, 0x98, 0xec, 0xf8, 0x42, 0x7e]
  {
    hide Compress, Fold;
    LengthOfNothing();
    var p := Padded([]);
    assert p == [0x80] + seq(55, _ => 0) + [0, 0, 0, 0, 0, 0, 0, 0];
    OneBlock(p);
    EmptyBlock(p);
    FourWords(Fold(p));
  }

  /** The digits 1 to 9 and 0, over and over. */
  function DigitAt(i: nat): bv8 {
    match i % 10
    case 0 => 0x31 case 1 => 0x32 case 2 => 0x33 case 3 => 0x34 case 4 => 0x35
    case 5 => 0x36 case 6 => 0x37 case 7 => 0x38 case 8 => 0x39 case _ => 0x30
  }

  function Digits(n: nat): (d: seq<bv8>)
    ensures |d| == n
  {
    seq(n, i requires 0 <= i < n => DigitAt(i))
  }

  function DigitWord(k: nat): word {
    match k % 5
    case 0 => 0x34333231 case 1 => 0x38373635 case 2 => 0x32313039 case 3 => 0x36353433 case _ => 0x30393837
  }

  lemma SameDigit(m: nat, t: nat)
    ensures DigitAt(20 * t + m) == DigitAt(m)
  {
    assert (20 * t + m) % 10 == m % 10;
  }

  lemma FirstWordsOfDigits(r: nat)
    requires r < 5
    ensures DecodeWord([DigitAt(4 * r), DigitAt(4 * r + 1), DigitAt(4 * r + 2), DigitAt(4 * r + 3)]) == DigitWord(r)
  {
    hide DecodeWord;
    LiteralWords();
  }

  lemma SameWord(r: nat, q: nat)
    requires r < 5
    ensures DigitWord(5 * q + r) == DigitWord(r)
  {
    assert (5 * q + r) % 5 == r;
  }

  lemma DigitWordIs(k: nat)
    ensures DecodeWord([DigitAt(4 * k), DigitAt(4 * k + 1), DigitAt(4 * k + 2), DigitAt(4 * k + 3)]) == DigitWord(k)
  {
    hide DecodeWord, DigitAt, DigitWord;
    var q, r := k / 5, k % 5;
    assert 4 * k == 20 * q + 4 * r;
    SameDigit(4 * r, q);
    SameDigit(4 * r + 1, q);
    SameDigit(4 * r + 2, q);
    SameDigit(4 * r + 3, q);
    FirstWordsOfDigits(r);
    SameWord(r, q);
  }

  lemma FirstBlock(p: seq<bv8>)
    requires p == Digits(64)
    ensures Compress(INIT, p) == State(0xc88d8bec, 0xa4a0dc8b, 0xe9edef99, 0xb0d18d1d)
  {
    hide DecodeWord, DecodeWords, Steps, FirstWords, DigitAt, DigitWord;
    WordsOf(p);
    var x := DecodeWords(p);
    forall k | 0 <= k < 16
      ensures x[k] == DigitWord(k)
    {
      DigitWordIs(k);
    }
    DigitWordsFirst(x);
    FirstSteps(x);
  }

  lemma DigitWordsFirst(x: seq<word>)
    requires |x| == 16 && forall k :: 0 <= k < 16 ==> x[k] == DigitWord(k)
    ensures FirstWords(x)
  {
  }

  lemma SecondBlock(p: seq<bv8>)
    requires |p| == 64 && (forall i :: 0 <= i < 16 ==> p[i] == DigitAt(64 + i)) && p[16] == 0x80
    requires p[56] == 0x80 && p[57] == 2
    requires forall i :: 17 <= i < 64 && i != 56 && i != 57 ==> p[i] == 0
    ensures Compress(State(0xc88d8bec, 0xa4a0dc8b, 0xe9edef99, 0xb0d18d1d), p)
         == State(0xa2f4ed57, 0x55c9e32b, 0x2eda49ac, 0x7ab60721)
  {
    hide DecodeWord, DecodeWords, Steps;
    WordsOf(p);
    LiteralWords();
    var x := DecodeWords(p);
    SecondSteps(x);
  }

  lemma PaddedEighty()
    ensures var p := Padded(Digits(80));
      && p[..64] == Digits(64) && |p| == 128 && (forall i :: 64 <= i < 80 ==> p[i] == DigitAt(i))
      && p[80..] == [0x80] + seq(39, _ => 0) + [0x80, 2, 0, 0, 0, 0, 0, 0]
  {
    hide DigitAt;
    LengthOfEighty();
    assert Padded(Digits(80)) == Digits(80) + ([0x80] + seq(39, _ => 0)) + [0x80, 2, 0, 0, 0, 0, 0, 0];
  }

  /** MD5 of "1234567890" eight times: two blocks. */
  lemma EightyDigitsAnswer()
    ensures Md5(Digits(80))
         == [0x57, 0xed, 0xf4, 0xa2, 0x2b, 0xe3, 0xc9, 0x55, 0xac, 0x49, 0xda, 0x2e, 0x21, 0x07, 0xb6, 0x7a]
  {
    hide Compress, Fold, DigitAt, EncodeWord, EncodeWords, Padded;
    var p := Padded(Digits(80));
    PaddedEighty();
    TwoBlocks(p);
    FirstBlock(p[..64]);
    var q := p[64..];
    assert q[16..] == p[80..] && forall i :: 0 <= i < 16 ==> q[i] == p[64 + i];
    assert forall i :: 16 <= i < 64 ==> q[i] == q[16..][i - 16];
    SecondBlock(q);
    FourWords(Fold(p));
    EightyDigitsEncoded();
  }

  lemma EightyDigitsEncoded()
    ensures EncodeWord(0xa2f4ed57) + EncodeWord(0x55c9e32b) + EncodeWord(0x2eda49ac) + EncodeWord(0x7ab60721)
         == [0x57, 0xed, 0xf4, 0xa2, 0x2b, 0xe3, 0xc9, 0x55, 0xac, 0x49, 0xda, 0x2e, 0x21, 0x07, 0xb6, 0x7a]
  {
  }

  // ---------- bit by bit ----------

  /** `a` and `b` have the same bits at the places of `m`. */
  predicate Agree(a: word, b: word, m: word) {
    (a ^ b) & m == 0
  }

  /** Section 3.4 of RFC 1321: in each bit position F acts as a conditional, if X then Y else Z. */
  lemma FSelects(x: word, y: word, z: word, m: word)
    ensures Agree(x, 0xffff_ffff, m) ==> Agree(F(x, y, z), y, m)
    ensures Agree(x, 0, m) ==> Agree(F(x, y, z), z, m)
  {
  }

  /** If Z then X else Y. */
  lemma GSelects(x: word, y: word, z: word, m: word)
    ensures Agree(z, 0xffff_ffff, m) ==> Agree(G(x, y, z), x, m)
    ensures Agree(z, 0, m) ==> Agree(G(x, y, z), y, m)
  {
  }

  /** The parity: X where Y and Z agree, and its inverse where they do not. */
  lemma HIsParity(x: word, y: word, z: word, m: word)
    ensures Agree(y, z, m) ==> Agree(H(x, y, z), x, m)
    ensures Agree(y, !z, m) ==> Agree(H(x, y, z), !x, m)
  {
  }

  /** Y inverted where X is one or Z is zero, and Y elsewhere. */
  lemma IInverts(x: word, y: word, z: word, m: word)
    ensures Agree(x, 0xffff_ffff, m) || Agree(z, 0, m) ==> Agree(I(x, y, z), !y, m)
    ensures Agree(x, 0, m) && Agree(z, 0xffff_ffff, m) ==> Agree(I(x, y, z), y, m)
  {
  }
}
