/** The steps of MD5 on the blocks of two of the messages of appendix A.5 of RFC 1321. */
module Md5Steps {
  import opened Md5Fold

  /** The padded empty message, as words. */
  ghost predicate EmptyWords(x: seq<word>) {
    && |x| == 16
    && x[0] == 0x80 && x[1] == 0x0 && x[2] == 0x0 && x[3] == 0x0
    && x[4] == 0x0 && x[5] == 0x0 && x[6] == 0x0 && x[7] == 0x0
    && x[8] == 0x0 && x[9] == 0x0 && x[10] == 0x0 && x[11] == 0x0
    && x[12] == 0x0 && x[13] == 0x0 && x[14] == 0x0 && x[15] == 0x0
  }

  /** The first block of eighty digits. */
  ghost predicate FirstWords(x: seq<word>) {
    && |x| == 16
    && x[0] == 0x34333231 && x[1] == 0x38373635 && x[2] == 0x32313039 && x[3] == 0x36353433
    && x[4] == 0x30393837 && x[5] == 0x34333231 && x[6] == 0x38373635 && x[7] == 0x32313039
    && x[8] == 0x36353433 && x[9] == 0x30393837 && x[10] == 0x34333231 && x[11] == 0x38373635
    && x[12] == 0x32313039 && x[13] == 0x36353433 && x[14] == 0x30393837 && x[15] == 0x34333231
  }

  /** The second one, padded. */
  ghost predicate SecondWords(x: seq<word>) {
    && |x| == 16
    && x[0] == 0x38373635 && x[1] == 0x32313039 && x[2] == 0x36353433 && x[3] == 0x30393837
    && x[4] == 0x80 && x[5] == 0x0 && x[6] == 0x0 && x[7] == 0x0
    && x[8] == 0x0 && x[9] == 0x0 && x[10] == 0x0 && x[11] == 0x0
    && x[12] == 0x0 && x[13] == 0x0 && x[14] == 0x280 && x[15] == 0x0
  }

  lemma FourSteps(s: State, x: seq<word>, i: nat)
    requires |x| == 16 && i + 4 <= 64
    ensures Steps(s, x, i + 4) == Step(Step(Step(Step(Steps(s, x, i), x, i), x, i + 1), x, i + 2), x, i + 3)
  {
    hide Step;
    OneMoreStep(s, x, i);
    OneMoreStep(s, x, i + 1);
    OneMoreStep(s, x, i + 2);
    OneMoreStep(s, x, i + 3);
  }

  /** The function of a round. */
  function Round(r: nat, b: word, c: word, d: word): word
    requires r < 4
  {
    if r == 0 then F(b, c, d) else if r == 1 then G(b, c, d) else if r == 2 then H(b, c, d) else I(b, c, d)
  }

  lemma OperationShape(r: nat, a: word, b: word, c: word, d: word, x: word, s: nat, ac: word)
    requires r < 4 && IsShift(s)
    ensures Operation(r, a, b, c, d, x, s, ac) == Plus(RotateLeft(Sum(a, Round(r, b, c, d), x, ac), s), b)
  {
    hide F, G, H, I, RotateLeft, IsShift, Sum, Plus;
  }

  lemma StepShape(s: State, x: seq<word>, i: nat)
    requires |x| == 16 && i < 64
    ensures var sum := Sum(s.a, Round(i / 16, s.b, s.c, s.d), x[WordIndex(i)], T(i));
      Step(s, x, i) == State(s.d, Plus(RotateLeft(sum, Shift(i)), s.b), s.b, s.c)
  {
    hide Operation, Round, RotateLeft, T, WordIndex, Shift, Sum, Plus, IsShift;
    OperationShape(i / 16, s.a, s.b, s.c, s.d, x[WordIndex(i)], Shift(i), T(i));
  }

  /** One step with the values on the way: the function of the round, the message word, the sum, the rotated
      sum and the new register. */
  lemma StepIs(s: State, x: seq<word>, i: nat, f: word, k: word, sum: word, rotated: word, new': word)
    requires |x| == 16 && i < 64 && Round(i / 16, s.b, s.c, s.d) == f && x[WordIndex(i)] == k
    requires Sum(s.a, f, k, T(i)) == sum && RotateLeft(sum, Shift(i)) == rotated && Plus(rotated, s.b) == new'
    ensures Step(s, x, i) == State(s.d, new', s.b, s.c)
  {
    hide Round, RotateLeft, T, WordIndex, Shift, Sum, Plus, Step;
    StepShape(s, x, i);
  }

  lemma Empty0(x: seq<word>)
    requires |x| == 16 && EmptyWords(x)
    ensures Step(Step(Step(Step(State(0x67452301, 0xefcdab89, 0x98badcfe, 0x10325476), x, 0), x, 1), x, 2), x, 3)
         == State(0xa5202774, 0x1b163203, 0xe7f06b23, 0xf59592dd)
  {
    hide Step;
    StepIs(State(0x67452301, 0xefcdab89, 0x98badcfe, 0x10325476), x, 0,
      0x98badcfe, 0x00000080, 0xd76aa4f7, 0xb5527beb, 0xa5202774);
    StepIs(State(0x10325476, 0xa5202774, 0xefcdab89, 0x98badcfe), x, 1,
      0xbd9afb8a, 0x00000000, 0xb6950756, 0x50756b69, 0xf59592dd);
    StepIs(State(0x98badcfe, 0xf59592dd, 0xa5202774, 0xefcdab89), x, 2,
      0xaf482b54, 0x00000000, 0x6c23792d, 0xf25ad846, 0xe7f06b23);
    StepIs(State(0xefcdab89, 0xe7f06b23, 0xf59592dd, 0xa5202774), x, 3,
      0xe5900655, 0x00000000, 0x971b80cc, 0x3325c6e0, 0x1b163203);
  }

  lemma Empty1(x: seq<word>)
    requires |x| == 16 && EmptyWords(x)
    ensures Step(Step(Step(Step(State(0xa5202774, 0x1b163203, 0xe7f06b23, 0xf59592dd), x, 4), x, 5), x, 6), x, 7)
         == State(0x32033344, 0x9bc13ce9, 0xf5b158db, 0x2f35d494)
  {
    hide Step;
    StepIs(State(0xa5202774, 0x1b163203, 0xe7f06b23, 0xf59592dd), x, 4,
      0xe791a2df, 0x00000000, 0x822dda02, 0x16ed0141, 0x32033344);
    StepIs(State(0xf59592dd, 0x32033344, 0x1b163203, 0xe7f06b23), x, 5,
      0xd7f27a23, 0x00000000, 0x150fd32a, 0xfd32a150, 0x2f35d494);
    StepIs(State(0xe7f06b23, 0x2f35d494, 0x32033344, 0x1b163203), x, 6,
      0x32033207, 0x00000000, 0xc223e33d, 0xc67b8447, 0xf5b158db);
    StepIs(State(0x1b163203, 0xf5b158db, 0x2f35d494, 0x32033344), x, 7,
      0x27337394, 0x00000000, 0x3f903a98, 0xa60fe40e, 0x9bc13ce9);
  }

  lemma Empty2(x: seq<word>)
    requires |x| == 16 && EmptyWords(x)
    ensures Step(Step(Step(Step(State(0x32033344, 0x9bc13ce9, 0xf5b158db, 0x2f35d494), x, 8), x, 9), x, 10), x, 11)
         == State(0x3893b991, 0x70768a29, 0xe1ef0576, 0xfce4a312)
  {
    hide Step;
    StepIs(State(0x32033344, 0x9bc13ce9, 0xf5b158db, 0x2f35d494), x, 8,
      0xb5b5d8dd, 0x00000000, 0x5139a4f9, 0x9cd27ca8, 0x3893b991);
    StepIs(State(0x2f35d494, 0x3893b991, 0x9bc13ce9, 0xf5b158db), x, 9,
      0xdda178cb, 0x00000000, 0x981c450e, 0xc450e981, 0xfce4a312);
    StepIs(State(0xf5b158db, 0xfce4a312, 0x3893b991, 0x9bc13ce9), x, 10,
      0x3b81bdf9, 0x00000000, 0x31327285, 0xe50a6264, 0xe1ef0576);
    StepIs(State(0x9bc13ce9, 0xe1ef0576, 0xfce4a312, 0x3893b991), x, 11,
      0xf8f4b993, 0x00000000, 0x1e12ce3a, 0x8e8784b3, 0x70768a29);
  }

  lemma Empty3(x: seq<word>)
    requires |x| == 16 && EmptyWords(x)
    ensures Step(Step(Step(Step(State(0x3893b991, 0x70768a29, 0xe1ef0576, 0xfce4a312), x, 12), x, 13), x, 14), x, 15)
         == State(0xf56c7cf1, 0xd6819c6a, 0x5aa53f75, 0x374943a7)
  {
    hide Step;
    StepIs(State(0x3893b991, 0x70768a29, 0xe1ef0576, 0xfce4a312), x, 12,
      0xece62132, 0x00000000, 0x9109ebe5, 0x84f5f2c8, 0xf56c7cf1);
    StepIs(State(0xfce4a312, 0xf56c7cf1, 0x70768a29, 0xe1ef0576), x, 13,
      0x70e70927, 0x00000000, 0x6b641dcc, 0x41dcc6b6, 0x374943a7);
    StepIs(State(0xe1ef0576, 0x374943a7, 0xf56c7cf1, 0x70768a29), x, 14,
      0x757ec8a9, 0x00000000, 0xfde711ad, 0x235bfbce, 0x5aa53f75);
    StepIs(State(0x70768a29, 0x5aa53f75, 0x374943a7, 0xf56c7cf1), x, 15,
      0xb74943a5, 0x00000000, 0x7173d5ef, 0x7bdc5cf5, 0xd6819c6a);
  }

  lemma Empty4(x: seq<word>)
    requires |x| == 16 && EmptyWords(x)
    ensures Step(Step(Step(Step(State(0xf56c7cf1, 0xd6819c6a, 0x5aa53f75, 0x374943a7), x, 16), x, 17), x, 18), x, 19)
         == State(0x1c7d7513, 0xbd782e17, 0xc095f13a, 0x7bd57a3a)
  {
    hide Step;
    StepIs(State(0xf56c7cf1, 0xd6819c6a, 0x5aa53f75, 0x374943a7), x, 16,
      0x5ea53c72, 0x00000000, 0x4a2fdec5, 0x45fbd8a9, 0x1c7d7513);
    StepIs(State(0x374943a7, 0x1c7d7513, 0xd6819c6a, 0x5aa53f75), x, 17,
      0x9c25b51b, 0x00000000, 0x93afac02, 0x5f580527, 0x7bd57a3a);
    StepIs(State(0x5aa53f75, 0x7bd57a3a, 0x1c7d7513, 0xd6819c6a), x, 18,
      0x5afd793b, 0x00000000, 0xdc011301, 0x44c07700, 0xc095f13a);
    StepIs(State(0xd6819c6a, 0xc095f13a, 0x7bd57a3a, 0x1c7d7513), x, 19,
      0x63957b3a, 0x00000080, 0x23cddfce, 0xfce23cdd, 0xbd782e17);
  }

  lemma Empty5(x: seq<word>)
    requires |x| == 16 && EmptyWords(x)
    ensures Step(Step(Step(Step(State(0x1c7d7513, 0xbd782e17, 0xc095f13a, 0x7bd57a3a), x, 20), x, 21), x, 22), x, 23)
         == State(0x3d1e3e6c, 0xe422531a, 0xeb41643e, 0x68b7b3e3)
  {
    hide Step;
    StepIs(State(0x1c7d7513, 0xbd782e17, 0xc095f13a, 0x7bd57a3a), x, 20,
      0xb950ab12, 0x00000000, 0xabfd3082, 0x7fa61055, 0x3d1e3e6c);
    StepIs(State(0x7bd57a3a, 0x3d1e3e6c, 0xbd782e17, 0xc095f13a), x, 21,
      0x3d7c3e2d, 0x00000000, 0xbb95ccba, 0x2b997577, 0x68b7b3e3);
    StepIs(State(0xc095f13a, 0x68b7b3e3, 0x3d1e3e6c, 0xbd782e17), x, 22,
      0x2836326b, 0x00000000, 0xc16e0a26, 0x8289b05b, 0xeb41643e);
    StepIs(State(0xbd782e17, 0xeb41643e, 0x68b7b3e3, 0x3d1e3e6c), x, 23,
      0x69a1a5af, 0x00000000, 0x0eedcf8e, 0xf8e0eedc, 0xe422531a);
  }

  lemma Empty6(x: seq<word>)
    requires |x| == 16 && EmptyWords(x)
    ensures Step(Step(Step(Step(State(0x3d1e3e6c, 0xe422531a, 0xeb41643e, 0x68b7b3e3), x, 24), x, 25), x, 26), x, 27)
         == State(0x306ec122, 0xa0572807, 0xa3c663da, 0xd28c77c2)
  {
    hide Step;
    StepIs(State(0x3d1e3e6c, 0xe422531a, 0xeb41643e, 0x68b7b3e3), x, 24,
      0xe362571e, 0x00000000, 0x42626370, 0x4c4c6e08, 0x306ec122);
    StepIs(State(0x68b7b3e3, 0x306ec122, 0xe422531a, 0xeb41643e), x, 25,
      0x24625322, 0x00000000, 0x50510edb, 0xa21db6a0, 0xd28c77c2);
    StepIs(State(0xeb41643e, 0xd28c77c2, 0x306ec122, 0xe422531a), x, 26,
      0xd04cd322, 0x00000000, 0xb06344e7, 0xd139ec18, 0xa3c663da);
    StepIs(State(0xe422531a, 0xa3c663da, 0xd28c77c2, 0x306ec122), x, 27,
      0xe2c677c2, 0x00000000, 0x0c42dfc9, 0xfc90c42d, 0xa0572807);
  }

  lemma Empty7(x: seq<word>)
    requires |x| == 16 && EmptyWords(x)
    ensures Step(Step(Step(Step(State(0x306ec122, 0xa0572807, 0xa3c663da, 0xd28c77c2), x, 28), x, 29), x, 30), x, 31)
         == State(0x13707036, 0xa2205f1f, 0x1c31c384, 0xae7813db)
  {
    hide Step;
    StepIs(State(0x306ec122, 0xa0572807, 0xa3c663da, 0xd28c77c2), x, 28,
      0xa146201a, 0x00000000, 0x7b98ca41, 0x7319482f, 0x13707036);
    StepIs(State(0xd28c77c2, 0x13707036, 0xa0572807, 0xa3c663da), x, 29,
      0x03516817, 0x00000000, 0xd2cd83d1, 0x9b07a3a5, 0xae7813db);
    StepIs(State(0xa3c663da, 0xae7813db, 0x13707036, 0xa0572807), x, 30,
      0xb3705033, 0x00000000, 0xbea5b6e6, 0x6db9afa9, 0x1c31c384);
    StepIs(State(0xa0572807, 0x1c31c384, 0xae7813db, 0x13707036), x, 31,
      0xbc3843cd, 0x00000000, 0xe9b9b85e, 0x85ee9b9b, 0xa2205f1f);
  }

  lemma Empty8(x: seq<word>)
    requires |x| == 16 && EmptyWords(x)
    ensures Step(Step(Step(Step(State(0x13707036, 0xa2205f1f, 0x1c31c384, 0xae7813db), x, 32), x, 33), x, 34), x, 35)
         == State(0xdf63eaa1, 0x004b6669, 0x12f3e755, 0xc3689f5b)
  {
    hide Step;
    StepIs(State(0x13707036, 0xa2205f1f, 0x1c31c384, 0xae7813db), x, 32,
      0x10698f40, 0x00000000, 0x23d438b8, 0x3d438b82, 0xdf63eaa1);
    StepIs(State(0xae7813db, 0xdf63eaa1, 0xa2205f1f, 0x1c31c384), x, 33,
      0x6172763a, 0x00000000, 0x975c8096, 0xe404b4ba, 0xc3689f5b);
    StepIs(State(0x1c31c384, 0xc3689f5b, 0xdf63eaa1, 0xa2205f1f), x, 34,
      0xbe2b2ae5, 0x00000000, 0x47fa4f8b, 0x4f8b47fa, 0x12f3e755);
    StepIs(State(0xa2205f1f, 0x12f3e755, 0xc3689f5b, 0xdf63eaa1), x, 35,
      0x0ef892af, 0x00000000, 0xaefe29da, 0xed577f14, 0x004b6669);
  }

  lemma Empty9(x: seq<word>)
    requires |x| == 16 && EmptyWords(x)
    ensures Step(Step(Step(Step(State(0xdf63eaa1, 0x004b6669, 0x12f3e755, 0xc3689f5b), x, 36), x, 37), x, 38), x, 39)
         == State(0x5f7a9b2e, 0xc5dc8c15, 0x91ca4cb7, 0xabc34e16)
  {
    hide Step;
    StepIs(State(0xdf63eaa1, 0x004b6669, 0x12f3e755, 0xc3689f5b), x, 36,
      0xd1d01e67, 0x00000000, 0x55f2f34c, 0x5f2f34c5, 0x5f7a9b2e);
    StepIs(State(0xc3689f5b, 0x5f7a9b2e, 0x004b6669, 0x12f3e755), x, 37,
      0x4dc21a12, 0x00000000, 0x5d098916, 0x4c48b2e8, 0xabc34e16);
    StepIs(State(0x12f3e755, 0xabc34e16, 0x5f7a9b2e, 0x004b6669), x, 38,
      0xf4f2b351, 0x00000000, 0xfea1e606, 0xe606fea1, 0x91ca4cb7);
    StepIs(State(0x004b6669, 0x91ca4cb7, 0xabc34e16, 0x5f7a9b2e), x, 39,
      0x6573998f, 0x00000000, 0x247ebc68, 0x34123f5e, 0xc5dc8c15);
  }

  lemma EmptyA(x: seq<word>)
    requires |x| == 16 && EmptyWords(x)
    ensures Step(Step(Step(Step(State(0x5f7a9b2e, 0xc5dc8c15, 0x91ca4cb7, 0xabc34e16), x, 40), x, 41), x, 42), x, 43)
         == State(0x4497169d, 0x0fe32453, 0xfd95f243, 0x76fd93d4)
  {
    hide Step;
    StepIs(State(0x5f7a9b2e, 0xc5dc8c15, 0x91ca4cb7, 0xabc34e16), x, 40,
      0xffd58eb4, 0x00000000, 0x87eba8a8, 0x7eba8a88, 0x4497169d);
    StepIs(State(0xabc34e16, 0x4497169d, 0xc5dc8c15, 0x91ca4cb7), x, 41,
      0x1081d63f, 0x00000080, 0xa6e64ccf, 0x32667d37, 0x76fd93d4);
    StepIs(State(0x91ca4cb7, 0x76fd93d4, 0x4497169d, 0xc5dc8c15), x, 42,
      0xf7b6095c, 0x00000000, 0x5e6f8698, 0x86985e6f, 0xfd95f243);
    StepIs(State(0xc5dc8c15, 0xfd95f243, 0x76fd93d4, 0x4497169d), x, 43,
      0xcfff770a, 0x00000000, 0x9a642024, 0x124d3210, 0x0fe32453);
  }

  lemma EmptyB(x: seq<word>)
    requires |x| == 16 && EmptyWords(x)
    ensures Step(Step(Step(Step(State(0x4497169d, 0x0fe32453, 0xfd95f243, 0x76fd93d4), x, 44), x, 45), x, 46), x, 47)
         == State(0x3f55edfd, 0xca7d2dbd, 0x68d84ea2, 0x22a31f54)
  {
    hide Step;
    StepIs(State(0x4497169d, 0x0fe32453, 0xfd95f243, 0x76fd93d4), x, 44,
      0x848b45c4, 0x00000000, 0xa2f72c9a, 0x2f72c9aa, 0x3f55edfd);
    StepIs(State(0x76fd93d4, 0x3f55edfd, 0x0fe32453, 0xfd95f243), x, 45,
      0xcd233bed, 0x00000000, 0x2afc69a6, 0xe34d3157, 0x22a31f54);
    StepIs(State(0xfd95f243, 0x22a31f54, 0x3f55edfd, 0x0fe32453), x, 46,
      0x1215d6fa, 0x00000000, 0x2f4e4635, 0x46352f4e, 0x68d84ea2);
    StepIs(State(0x0fe32453, 0x68d84ea2, 0x22a31f54, 0x3f55edfd), x, 47,
      0x752ebc0b, 0x00000000, 0x49be36c3, 0x61a4df1b, 0xca7d2dbd);
  }

  lemma EmptyC(x: seq<word>)
    requires |x| == 16 && EmptyWords(x)
    ensures Step(Step(Step(Step(State(0x3f55edfd, 0xca7d2dbd, 0x68d84ea2, 0x22a31f54), x, 48), x, 49), x, 50), x, 51)
         == State(0x93aa2577, 0x561e0689, 0xcd85b8cb, 0x1688dc85)
  {
    hide Step;
    StepIs(State(0x3f55edfd, 0xca7d2dbd, 0x68d84ea2, 0x22a31f54), x, 48,
      0xb7a5a31d, 0x00000080, 0xeb24b3de, 0xc92cf7ba, 0x93aa2577);
    StepIs(State(0x22a31f54, 0x93aa2577, 0xca7d2dbd, 0x68d84ea2), x, 49,
      0x5dd298c2, 0x00000000, 0xc3a0b7ad, 0x82deb70e, 0x1688dc85);
    StepIs(State(0x68d84ea2, 0x1688dc85, 0x93aa2577, 0xca7d2dbd), x, 50,
      0xa420fbb0, 0x00000000, 0xb88d6df9, 0xb6fcdc46, 0xcd85b8cb);
    StepIs(State(0xca7d2dbd, 0xcd85b8cb, 0x1688dc85, 0x93aa2577), x, 51,
      0xfb5d264e, 0x00000000, 0xc26df444, 0x88984dbe, 0x561e0689);
  }

  lemma EmptyD(x: seq<word>)
    requires |x| == 16 && EmptyWords(x)
    ensures Step(Step(Step(Step(State(0x93aa2577, 0x561e0689, 0xcd85b8cb, 0x1688dc85), x, 52), x, 53), x, 54), x, 55)
         == State(0x5625a114, 0x1e77fa61, 0x392ad0d0, 0x3450f42b)
  {
    hide Step;
    StepIs(State(0x93aa2577, 0x561e0689, 0xcd85b8cb, 0x1688dc85), x, 52,
      0x32fa9f30, 0x00000000, 0x2c001e6a, 0x00079a8b, 0x5625a114);
    StepIs(State(0x1688dc85, 0x5625a114, 0x561e0689, 0xcd85b8cb), x, 53,
      0x2061e1bd, 0x00000000, 0xc5f78ad4, 0xde2b5317, 0x3450f42b);
    StepIs(State(0xcd85b8cb, 0x3450f42b, 0x5625a114, 0x561e0689), x, 54,
      0xebd45c6b, 0x00000000, 0xb94a09b3, 0x04d9dca5, 0x392ad0d0);
    StepIs(State(0x561e0689, 0x392ad0d0, 0x3450f42b, 0x5625a114), x, 55,
      0x8daa2ad0, 0x00000000, 0x694c8f2a, 0xe54d2991, 0x1e77fa61);
  }

  lemma EmptyE(x: seq<word>)
    requires |x| == 16 && EmptyWords(x)
    ensures Step(Step(Step(Step(State(0x5625a114, 0x1e77fa61, 0x392ad0d0, 0x3450f42b), x, 56), x, 57), x, 58), x, 59)
         == State(0x474a9c8c, 0x30130182, 0x36594b14, 0xdfce00bc)
  {
    hide Step;
    StepIs(State(0x5625a114, 0x1e77fa61, 0x392ad0d0, 0x3450f42b), x, 56,
      0xe6d52b25, 0x00000000, 0xaca34a88, 0x28d2a22b, 0x474a9c8c);
    StepIs(State(0x3450f42b, 0x474a9c8c, 0x1e77fa61, 0x392ad0d0), x, 57,
      0xd9a845ce, 0x00000000, 0x0c2620d9, 0x98836430, 0xdfce00bc);
    StepIs(State(0x392ad0d0, 0xdfce00bc, 0x474a9c8c, 0x1e77fa61), x, 58,
      0xb8849932, 0x00000000, 0x94b0ad16, 0x568b4a58, 0x36594b14);
    StepIs(State(0x1e77fa61, 0x36594b14, 0xdfce00bc, 0x474a9c8c), x, 59,
      0x61336bcb, 0x00000000, 0xcdb377cd, 0xf9b9b66e, 0x30130182);
  }

  lemma EmptyF(x: seq<word>)
    requires |x| == 16 && EmptyWords(x)
    ensures Step(Step(Step(Step(State(0x474a9c8c, 0x30130182, 0x36594b14, 0xdfce00bc), x, 60), x, 61), x, 62), x, 63)
         == State(0x7246fad3, 0x14e45506, 0xff4ea3eb, 0x6e10a476)
  {
    hide Step;
    StepIs(State(0x474a9c8c, 0x30130182, 0x36594b14, 0xdfce00bc), x, 60,
      0x066ab4d7, 0x00000000, 0x4508cfe5, 0x4233f951, 0x7246fad3);
    StepIs(State(0xdfce00bc, 0x7246fad3, 0x30130182, 0x36594b14), x, 61,
      0xcbf5ff79, 0x00000000, 0x68fef26a, 0xfbc9a9a3, 0x6e10a476);
    StepIs(State(0x36594b14, 0x6e10a476, 0x7246fad3, 0x30130182), x, 62,
      0x9dba04ac, 0x00000000, 0xfeeb227b, 0x913dff75, 0xff4ea3eb);
    StepIs(State(0x30130182, 0xff4ea3eb, 0x6e10a476, 0x7246fad3), x, 63,
      0x91ef0399, 0x00000000, 0xad88d8ac, 0x1595b11b, 0x14e45506);
  }

  lemma EmptySteps(x: seq<word>)
    requires |x| == 16 && EmptyWords(x)
    ensures Steps(State(0x67452301, 0xefcdab89, 0x98badcfe, 0x10325476), x, 64)
         == State(0x7246fad3, 0x14e45506, 0xff4ea3eb, 0x6e10a476)
  {
    hide Step, EmptyWords;
    var s := State(0x67452301, 0xefcdab89, 0x98badcfe, 0x10325476);
    NoSteps(s, x);
    FourSteps(s, x, 0);
    Empty0(x);
    FourSteps(s, x, 4);
    Empty1(x);
    FourSteps(s, x, 8);
    Empty2(x);
    FourSteps(s, x, 12);
    Empty3(x);
    FourSteps(s, x, 16);
    Empty4(x);
    FourSteps(s, x, 20);
    Empty5(x);
    FourSteps(s, x, 24);
    Empty6(x);
    FourSteps(s, x, 28);
    Empty7(x);
    FourSteps(s, x, 32);
    Empty8(x);
    FourSteps(s, x, 36);
    Empty9(x);
    FourSteps(s, x, 40);
    EmptyA(x);
    FourSteps(s, x, 44);
    EmptyB(x);
    FourSteps(s, x, 48);
    EmptyC(x);
    FourSteps(s, x, 52);
    EmptyD(x);
    FourSteps(s, x, 56);
    EmptyE(x);
    FourSteps(s, x, 60);
    EmptyF(x);
  }

  lemma First0(x: seq<word>)
    requires |x| == 16 && FirstWords(x)
    ensures Step(Step(Step(Step(State(0x67452301, 0xefcdab89, 0x98badcfe, 0x10325476), x, 0), x, 1), x, 2), x, 3)
         == State(0xbeb8ff8e, 0x862797b0, 0xf8cdf95d, 0x7d989d89)
  {
    hide Step;
    StepIs(State(0x67452301, 0xefcdab89, 0x98badcfe, 0x10325476), x, 0,
      0x98badcfe, 0x34333231, 0x0b9dd6a8, 0xceeb5405, 0xbeb8ff8e);
    StepIs(State(0x10325476, 0xbeb8ff8e, 0xefcdab89, 0x98badcfe), x, 1,
      0xae8aabf8, 0x38373635, 0xdfbbedf9, 0xbedf9dfb, 0x7d989d89);
    StepIs(State(0x98badcfe, 0x7d989d89, 0xbeb8ff8e, 0xefcdab89), x, 2,
      0xbeddbf88, 0x32313039, 0xadea3d9a, 0x7b355bd4, 0xf8cdf95d);
    StepIs(State(0xefcdab89, 0xf8cdf95d, 0x7d989d89, 0xbeb8ff8e), x, 3,
      0x7eb89f8b, 0x36353433, 0x66794e35, 0x8d599e53, 0x862797b0);
  }

  lemma First1(x: seq<word>)
    requires |x| == 16 && FirstWords(x)
    ensures Step(Step(Step(Step(State(0xbeb8ff8e, 0x862797b0, 0xf8cdf95d, 0x7d989d89), x, 4), x, 5), x, 6), x, 7)
         == State(0x8c17de9f, 0xc57e78c1, 0xe99fec1b, 0xc0f32d81)
  {
    hide Step;
    StepIs(State(0xbeb8ff8e, 0x862797b0, 0xf8cdf95d, 0x7d989d89), x, 4,
      0xf99d9919, 0x30393837, 0xde0be08d, 0x05f046ef, 0x8c17de9f);
    StepIs(State(0x7d989d89, 0x8c17de9f, 0x862797b0, 0xf8cdf95d), x, 5,
      0xf4cfb7d0, 0x34333231, 0xee234db4, 0x34db4ee2, 0xc0f32d81);
    StepIs(State(0xf8cdf95d, 0xc0f32d81, 0x8c17de9f, 0x862797b0), x, 6,
      0x86179eb1, 0x38373635, 0x5f4d1456, 0x28acbe9a, 0xe99fec1b);
    StepIs(State(0x862797b0, 0xe99fec1b, 0xc0f32d81, 0x8c17de9f), x, 7,
      0xc4933e85, 0x32313039, 0x7a329b6f, 0xdbde8ca6, 0xc57e78c1);
  }

  lemma First2(x: seq<word>)
    requires |x| == 16 && FirstWords(x)
    ensures Step(Step(Step(Step(State(0x8c17de9f, 0xc57e78c1, 0xe99fec1b, 0xc0f32d81), x, 8), x, 9), x, 10), x, 11)
         == State(0x7c0aceb7, 0xa5f36f8d, 0x5186a8ba, 0x8869d2d8)
  {
    hide Step;
    StepIs(State(0x8c17de9f, 0xc57e78c1, 0xe99fec1b, 0xc0f32d81), x, 8,
      0xc19f6d01, 0x36353433, 0xed6d18ab, 0xb68c55f6, 0x7c0aceb7);
    StepIs(State(0xc0f32d81, 0x7c0aceb7, 0xc57e78c1, 0xe99fec1b), x, 9,
      0xc59f6889, 0x30393837, 0x4210c5f0, 0x0c5f0421, 0x8869d2d8);
    StepIs(State(0xe99fec1b, 0x8869d2d8, 0x7c0aceb7, 0xc57e78c1), x, 10,
      0x4d1eea91, 0x34333231, 0x6af1648e, 0xc91cd5e2, 0x5186a8ba);
    StepIs(State(0xc57e78c1, 0x5186a8ba, 0x8869d2d8, 0x7c0aceb7), x, 11,
      0x2c08c69d, 0x38373635, 0xb31b4d51, 0x546cc6d3, 0xa5f36f8d);
  }

  lemma First3(x: seq<word>)
    requires |x| == 16 && FirstWords(x)
    ensures Step(Step(Step(Step(State(0x7c0aceb7, 0xa5f36f8d, 0x5186a8ba, 0x8869d2d8), x, 12), x, 13), x, 14), x, 15)
         == State(0x5157e49e, 0xaf506a03, 0x27e983a0, 0xffac907e)
  {
    hide Step;
    StepIs(State(0x7c0aceb7, 0xa5f36f8d, 0x5186a8ba, 0x8869d2d8), x, 12,
      0x098ab8d8, 0x32313039, 0x2356c8ea, 0xab647511, 0x5157e49e);
    StepIs(State(0x8869d2d8, 0x5157e49e, 0xa5f36f8d, 0x5186a8ba), x, 13,
      0x01d36cac, 0x36353433, 0xbe0ae54a, 0xae54abe0, 0xffac907e);
    StepIs(State(0x5186a8ba, 0xffac907e, 0x5157e49e, 0xa5f36f8d), x, 14,
      0x5157ef9f, 0x30393837, 0x7991141e, 0x283cf322, 0x27e983a0);
    StepIs(State(0xa5f36f8d, 0x27e983a0, 0xffac907e, 0x5157e49e), x, 15,
      0x77bee43e, 0x34333231, 0x9b998e1d, 0x8766e663, 0xaf506a03);
  }

  lemma First4(x: seq<word>)
    requires |x| == 16 && FirstWords(x)
    ensures Step(Step(Step(Step(State(0x5157e49e, 0xaf506a03, 0x27e983a0, 0xffac907e), x, 16), x, 17), x, 18), x, 19)
         == State(0x8d18e0e8, 0x04280170, 0xef223167, 0x07de0df2)
  {
    hide Step;
    StepIs(State(0x5157e49e, 0xaf506a03, 0x27e983a0, 0xffac907e), x, 16,
      0xaf410382, 0x38373635, 0x2eee43b7, 0xddc876e5, 0x8d18e0e8);
    StepIs(State(0xffac907e, 0x8d18e0e8, 0xaf506a03, 0x27e983a0), x, 17,
      0x8d18e8a3, 0x38373635, 0x853d6296, 0x7ac52d0a, 0x07de0df2);
    StepIs(State(0x27e983a0, 0x07de0df2, 0x8d18e0e8, 0xaf506a03), x, 18,
      0x075888ea, 0x38373635, 0x8dd79d10, 0xe7442375, 0xef223167);
    StepIs(State(0xaf506a03, 0xef223167, 0x07de0df2, 0x8d18e0e8), x, 19,
      0x8fc62d72, 0x34333231, 0x5d009150, 0x1505d009, 0x04280170);
  }

  lemma First5(x: seq<word>)
    requires |x| == 16 && FirstWords(x)
    ensures Step(Step(Step(Step(State(0x8d18e0e8, 0x04280170, 0xef223167, 0x07de0df2), x, 20), x, 21), x, 22), x, 23)
         == State(0x78929ee0, 0xad400a91, 0xb18aca50, 0x375c6c2c)
  {
    hide Step;
    StepIs(State(0x8d18e0e8, 0x04280170, 0xef223167, 0x07de0df2), x, 20,
      0xec283175, 0x34333231, 0x83a354eb, 0x746a9d70, 0x78929ee0);
    StepIs(State(0x07de0df2, 0x78929ee0, 0x04280170, 0xef223167), x, 21,
      0x680a1070, 0x34333231, 0xa65f64e6, 0xbec9cd4c, 0x375c6c2c);
    StepIs(State(0xef223167, 0x375c6c2c, 0x78929ee0, 0x04280170), x, 22,
      0x7c9a9ea0, 0x34333231, 0x7891e8b9, 0x7a2e5e24, 0xb18aca50);
    StepIs(State(0x04280170, 0xb18aca50, 0x375c6c2c, 0x78929ee0), x, 23,
      0x37ceea4c, 0x30393837, 0x54041fbb, 0xfbb54041, 0xad400a91);
  }

  lemma First6(x: seq<word>)
    requires |x| == 16 && FirstWords(x)
    ensures Step(Step(Step(Step(State(0x78929ee0, 0xad400a91, 0xb18aca50, 0x375c6c2c), x, 24), x, 25), x, 26), x, 27)
         == State(0xbb45f43f, 0xb70e35a9, 0x98ade6b5, 0xd61f8a0f)
  {
    hide Step;
    StepIs(State(0x78929ee0, 0xad400a91, 0xb18aca50, 0x375c6c2c), x, 24,
      0xa5c28a50, 0x30393837, 0x70702f4d, 0x0e05e9ae, 0xbb45f43f);
    StepIs(State(0x375c6c2c, 0xbb45f43f, 0xad400a91, 0xb18aca50), x, 25,
      0xbd40c091, 0x30393837, 0xe80d6cca, 0x1ad995d0, 0xd61f8a0f);
    StepIs(State(0xb18aca50, 0xd61f8a0f, 0xbb45f43f, 0xad400a91), x, 26,
      0x9605fe2f, 0x36353433, 0x729b0a39, 0xc28e5ca6, 0x98ade6b5);
    StepIs(State(0xad400a91, 0x98ade6b5, 0xd61f8a0f, 0xbb45f43f), x, 27,
      0xdc1fee35, 0x36353433, 0x04ef41e6, 0x1e604ef4, 0xb70e35a9);
  }

  lemma First7(x: seq<word>)
    requires |x| == 16 && FirstWords(x)
    ensures Step(Step(Step(Step(State(0xbb45f43f, 0xb70e35a9, 0x98ade6b5, 0xd61f8a0f), x, 28), x, 29), x, 30), x, 31)
         == State(0xf8bcfbb0, 0x1bf25662, 0x99a0f1b8, 0xd760ed39)
  {
    hide Step;
    StepIs(State(0xbb45f43f, 0xb70e35a9, 0x98ade6b5, 0xd61f8a0f), x, 28,
      0x9eae64b9, 0x36353433, 0x3a0d7630, 0x41aec607, 0xf8bcfbb0);
    StepIs(State(0xd61f8a0f, 0xf8bcfbb0, 0xb70e35a9, 0x98ade6b5), x, 29,
      0xbfaef3b8, 0x32313039, 0xc4ef51f8, 0xdea3f189, 0xd760ed39);
    StepIs(State(0x98ade6b5, 0xd760ed39, 0xf8bcfbb0, 0xb70e35a9), x, 30,
      0xdfb0ef39, 0x32313039, 0x11ff0900, 0xc240047f, 0x99a0f1b8);
    StepIs(State(0xb70e35a9, 0x99a0f1b8, 0xd760ed39, 0xf8bcfbb0), x, 31,
      0x9fe0f5b9, 0x32313039, 0x164aa825, 0x825164aa, 0x1bf25662);
  }

  lemma First8(x: seq<word>)
    requires |x| == 16 && FirstWords(x)
    ensures Step(Step(Step(Step(State(0xf8bcfbb0, 0x1bf25662, 0x99a0f1b8, 0xd760ed39), x, 32), x, 33), x, 34), x, 35)
         == State(0x3dbd76ca, 0xe0162f49, 0xc7ed7c30, 0xfd056171)
  {
    hide Step;
    StepIs(State(0xf8bcfbb0, 0x1bf25662, 0x99a0f1b8, 0xd760ed39), x, 32,
      0x55324ae3, 0x34333231, 0x821cb206, 0x21cb2068, 0x3dbd76ca);
    StepIs(State(0xd760ed39, 0x3dbd76ca, 0x1bf25662, 0x99a0f1b8), x, 33,
      0xbfefd110, 0x36353433, 0x54f7e8fd, 0xbf47eaa7, 0xfd056171);
    StepIs(State(0x99a0f1b8, 0xfd056171, 0x3dbd76ca, 0x1bf25662), x, 34,
      0xdb4a41d9, 0x38373635, 0x1abfcae8, 0xcae81abf, 0xc7ed7c30);
    StepIs(State(0x1bf25662, 0xc7ed7c30, 0xfd056171, 0x3dbd76ca), x, 35,
      0x07556b8b, 0x30393837, 0x51663230, 0x1828b319, 0xe0162f49);
  }

  lemma First9(x: seq<word>)
    requires |x| == 16 && FirstWords(x)
    ensures Step(Step(Step(Step(State(0x3dbd76ca, 0xe0162f49, 0xc7ed7c30, 0xfd056171), x, 36), x, 37), x, 38), x, 39)
         == State(0x3b32c408, 0x1d4d6f72, 0x9ef871ad, 0x7338d8b7)
  {
    hide Step;
    StepIs(State(0x3dbd76ca, 0xe0162f49, 0xc7ed7c30, 0xfd056171), x, 36,
      0xdafe3208, 0x38373635, 0xf5b1c94b, 0x5b1c94bf, 0x3b32c408);
    StepIs(State(0xfd056171, 0x3b32c408, 0xe0162f49, 0xc7ed7c30), x, 37,
      0x1cc99771, 0x30393837, 0x95e700c2, 0x380614af, 0x7338d8b7);
    StepIs(State(0xc7ed7c30, 0x7338d8b7, 0x3b32c408, 0xe0162f49), x, 38,
      0xa81c33f6, 0x32313039, 0x98f62bbf, 0x2bbf98f6, 0x9ef871ad);
    StepIs(State(0xe0162f49, 0x9ef871ad, 0x7338d8b7, 0x3b32c408), x, 39,
      0xd6f26d12, 0x34333231, 0xa9fb8afc, 0x7e54fdc5, 0x1d4d6f72);
  }

  lemma FirstA(x: seq<word>)
    requires |x| == 16 && FirstWords(x)
    ensures Step(Step(Step(Step(State(0x3b32c408, 0x1d4d6f72, 0x9ef871ad, 0x7338d8b7), x, 40), x, 41), x, 42), x, 43)
         == State(0xc661460a, 0x89e3c4d7, 0xd6d5b879, 0xd2bf04c9)
  {
    hide Step;
    StepIs(State(0x3b32c408, 0x1d4d6f72, 0x9ef871ad, 0x7338d8b7), x, 40,
      0xf08dc668, 0x36353433, 0x8a913d69, 0xa913d698, 0xc661460a);
    StepIs(State(0x7338d8b7, 0xc661460a, 0x1d4d6f72, 0x9ef871ad), x, 41,
      0x45d458d5, 0x34333231, 0xd7e18bb7, 0x0c5dbebf, 0xd2bf04c9);
    StepIs(State(0x9ef871ad, 0xd2bf04c9, 0xc661460a, 0x1d4d6f72), x, 42,
      0x09932db1, 0x36353433, 0xb3b00416, 0x0416b3b0, 0xd6d5b879);
    StepIs(State(0x1d4d6f72, 0xd6d5b879, 0xd2bf04c9, 0xc661460a), x, 43,
      0xc20bfaba, 0x38373635, 0x1c18bd66, 0xb30e0c5e, 0x89e3c4d7);
  }

  lemma FirstB(x: seq<word>)
    requires |x| == 16 && FirstWords(x)
    ensures Step(Step(Step(Step(State(0xc661460a, 0x89e3c4d7, 0xd6d5b879, 0xd2bf04c9), x, 44), x, 45), x, 46), x, 47)
         == State(0x697032ec, 0xdb4197da, 0xefc2c171, 0xfa597bfc)
  {
    hide Step;
    StepIs(State(0xc661460a, 0x89e3c4d7, 0xd6d5b879, 0xd2bf04c9), x, 44,
      0x8d897867, 0x30393837, 0x5df8c6e1, 0xdf8c6e15, 0x697032ec);
    StepIs(State(0xd2bf04c9, 0x697032ec, 0x89e3c4d7, 0xd6d5b879), x, 45,
      0x36464e42, 0x32313039, 0x22121d29, 0x90e94910, 0xfa597bfc);
    StepIs(State(0xd6d5b879, 0xfa597bfc, 0x697032ec, 0x89e3c4d7), x, 46,
      0x1aca8dc7, 0x34333231, 0x4575f569, 0xf5694575, 0xefc2c171);
    StepIs(State(0x89e3c4d7, 0xefc2c171, 0xfa597bfc, 0x697032ec), x, 47,
      0x7ceb8861, 0x32313039, 0xfdacd3d6, 0xeb7ed669, 0xdb4197da);
  }

  lemma FirstC(x: seq<word>)
    requires |x| == 16 && FirstWords(x)
    ensures Step(Step(Step(Step(State(0x697032ec, 0xdb4197da, 0xefc2c171, 0xfa597bfc), x, 48), x, 49), x, 50), x, 51)
         == State(0x57b91aca, 0xcaa25b01, 0x21efbd88, 0x210c9ebc)
  {
    hide Step;
    StepIs(State(0x697032ec, 0xdb4197da, 0xefc2c171, 0xfa597bfc), x, 48,
      0x302556aa, 0x34333231, 0xc1f1de0b, 0x7c7782f0, 0x57b91aca);
    StepIs(State(0xfa597bfc, 0x57b91aca, 0xdb4197da, 0xefc2c171), x, 49,
      0x8cfca914, 0x32313039, 0xfcb254e0, 0xc95383f2, 0x210c9ebc);
    StepIs(State(0xefc2c171, 0x210c9ebc, 0x57b91aca, 0xdb4197da), x, 50,
      0x7207e477, 0x30393837, 0x3d9801c6, 0x00e31ecc, 0x21efbd88);
    StepIs(State(0xdb4197da, 0x21efbd88, 0x210c9ebc, 0x57b91aca), x, 51,
      0x88e36301, 0x34333231, 0x94ebcd45, 0xa8b29d79, 0xcaa25b01);
  }

  lemma FirstD(x: seq<word>)
    requires |x| == 16 && FirstWords(x)
    ensures Step(Step(Step(Step(State(0x57b91aca, 0xcaa25b01, 0x21efbd88, 0x210c9ebc), x, 52), x, 53), x, 54), x, 55)
         == State(0x633d3f7c, 0x7713f5df, 0xccaa1524, 0x1a4d3beb)
  {
    hide Step;
    StepIs(State(0x57b91aca, 0xcaa25b01, 0x21efbd88, 0x210c9ebc), x, 52,
      0xff1cc6cb, 0x32313039, 0xee626b91, 0x989ae47b, 0x633d3f7c);
    StepIs(State(0x210c9ebc, 0x633d3f7c, 0xcaa25b01, 0x21efbd88), x, 53,
      0x359f247e, 0x36353433, 0x1bedc3ff, 0xb70ffc6f, 0x1a4d3beb);
    StepIs(State(0x21efbd88, 0x1a4d3beb, 0x633d3f7c, 0xcaa25b01), x, 54,
      0x5c608083, 0x34333231, 0xb27364b9, 0xb25cd939, 0xccaa1524);
    StepIs(State(0xcaa25b01, 0xccaa1524, 0x1a4d3beb, 0x633d3f7c), x, 55,
      0xc6a7ee4c, 0x38373635, 0x4f05dd53, 0xaa69e0bb, 0x7713f5df);
  }

  lemma FirstE(x: seq<word>)
    requires |x| == 16 && FirstWords(x)
    ensures Step(Step(Step(Step(State(0x633d3f7c, 0x7713f5df, 0xccaa1524, 0x1a4d3beb), x, 56), x, 57), x, 58), x, 59)
         == State(0x8448b430, 0x660a801d, 0x7e294727, 0x71c93463)
  {
    hide Step;
    StepIs(State(0x633d3f7c, 0x7713f5df, 0xccaa1524, 0x1a4d3beb), x, 56,
      0x3b19e0fb, 0x36353433, 0x4434d2f9, 0x0d34be51, 0x8448b430);
    StepIs(State(0x1a4d3beb, 0x8448b430, 0x7713f5df, 0xccaa1524), x, 57,
      0xc04e0b24, 0x34333231, 0x0cfb6020, 0xed808033, 0x71c93463);
    StepIs(State(0xccaa1524, 0x71c93463, 0x8448b430, 0x7713f5df), x, 58,
      0x7da58a53, 0x38373635, 0x258818c0, 0x0c6012c4, 0x7e294727);
    StepIs(State(0x7713f5df, 0x7e294727, 0x71c93463, 0x8448b430), x, 59,
      0x0e767b8c, 0x36353433, 0x09c7b73f, 0xe7e138f6, 0x660a801d);
  }

  lemma FirstF(x: seq<word>)
    requires |x| == 16 && FirstWords(x)
    ensures Step(Step(Step(Step(State(0x8448b430, 0x660a801d, 0x7e294727, 0x71c93463), x, 60), x, 61), x, 62), x, 63)
         == State(0x614868eb, 0xb4d33102, 0x5133129b, 0xa09f38a7)
  {
    hide Step;
    StepIs(State(0x8448b430, 0x660a801d, 0x7e294727, 0x71c93463), x, 60,
      0x90178cba, 0x30393837, 0x3becf7a3, 0xfb3de8ce, 0x614868eb);
    StepIs(State(0x71c93463, 0x614868eb, 0x660a801d, 0x7e294727), x, 61,
      0x87d478e6, 0x38373635, 0xef0fd5b3, 0x3f56cfbc, 0xa09f38a7);
    StepIs(State(0x7e294727, 0xa09f38a7, 0x614868eb, 0x660a801d), x, 62,
      0xd8b7170c, 0x32313039, 0xb3e96127, 0xb093d9f4, 0x5133129b);
    StepIs(State(0x660a801d, 0x5133129b, 0xa09f38a7, 0x614868eb), x, 63,
      0x7f28af38, 0x30393837, 0x00f33b1d, 0x63a01e67, 0xb4d33102);
  }

  lemma FirstSteps(x: seq<word>)
    requires |x| == 16 && FirstWords(x)
    ensures Steps(State(0x67452301, 0xefcdab89, 0x98badcfe, 0x10325476), x, 64)
         == State(0x614868eb, 0xb4d33102, 0x5133129b, 0xa09f38a7)
  {
    hide Step, FirstWords;
    var s := State(0x67452301, 0xefcdab89, 0x98badcfe, 0x10325476);
    NoSteps(s, x);
    FourSteps(s, x, 0);
    First0(x);
    FourSteps(s, x, 4);
    First1(x);
    FourSteps(s, x, 8);
    First2(x);
    FourSteps(s, x, 12);
    First3(x);
    FourSteps(s, x, 16);
    First4(x);
    FourSteps(s, x, 20);
    First5(x);
    FourSteps(s, x, 24);
    First6(x);
    FourSteps(s, x, 28);
    First7(x);
    FourSteps(s, x, 32);
    First8(x);
    FourSteps(s, x, 36);
    First9(x);
    FourSteps(s, x, 40);
    FirstA(x);
    FourSteps(s, x, 44);
    FirstB(x);
    FourSteps(s, x, 48);
    FirstC(x);
    FourSteps(s, x, 52);
    FirstD(x);
    FourSteps(s, x, 56);
    FirstE(x);
    FourSteps(s, x, 60);
    FirstF(x);
  }

  lemma Second0(x: seq<word>)
    requires |x| == 16 && SecondWords(x)
    ensures Step(Step(Step(Step(State(0xc88d8bec, 0xa4a0dc8b, 0xe9edef99, 0xb0d18d1d), x, 0), x, 1), x, 2), x, 3)
         == State(0x353af7cf, 0x45e88f2c, 0x63356537, 0x3a4f735a)
  {
    hide Step;
    StepIs(State(0xc88d8bec, 0xa4a0dc8b, 0xe9edef99, 0xb0d18d1d), x, 0,
      0xb0f1cd9d, 0x38373635, 0x89213436, 0x909a1b44, 0x353af7cf);
    StepIs(State(0xb0d18d1d, 0x353af7cf, 0xa4a0dc8b, 0xe9edef99), x, 1,
      0xece5dc9b, 0x32313039, 0xb8b05147, 0x05147b8b, 0x3a4f735a);
    StepIs(State(0xe9edef99, 0x3a4f735a, 0x353af7cf, 0xa4a0dc8b), x, 2,
      0xb4aaffcb, 0x36353433, 0xf8ee9472, 0x28e5f1dd, 0x63356537);
    StepIs(State(0xa4a0dc8b, 0x63356537, 0x3a4f735a, 0x353af7cf), x, 3,
      0x360ff3da, 0x30393837, 0xcca7d78a, 0xe2b329f5, 0x45e88f2c);
  }

  lemma Second1(x: seq<word>)
    requires |x| == 16 && SecondWords(x)
    ensures Step(Step(Step(Step(State(0x353af7cf, 0x45e88f2c, 0x63356537, 0x3a4f735a), x, 4), x, 5), x, 6), x, 7)
         == State(0x3527497e, 0x377c7d0a, 0x948347ae, 0xab92660e)
  {
    hide Step;
    StepIs(State(0x353af7cf, 0x45e88f2c, 0x63356537, 0x3a4f735a), x, 4,
      0x7b277576, 0x00000080, 0xa5de7d74, 0xef3eba52, 0x3527497e);
    StepIs(State(0x3a4f735a, 0x3527497e, 0x45e88f2c, 0x63356537), x, 5,
      0x47302d2d, 0x00000000, 0xc90766b1, 0x766b1c90, 0xab92660e);
    StepIs(State(0x63356537, 0xab92660e, 0x3527497e, 0x45e88f2c), x, 6,
      0x656ac92e, 0x00000000, 0x70d07478, 0xe8f0e1a0, 0x948347ae);
    StepIs(State(0x45e88f2c, 0x948347ae, 0xab92660e, 0x3527497e), x, 7,
      0xa1a64e5e, 0x00000000, 0xe4d5728b, 0xa2f9355c, 0x377c7d0a);
  }

  lemma Second2(x: seq<word>)
    requires |x| == 16 && SecondWords(x)
    ensures Step(Step(Step(Step(State(0x3527497e, 0x377c7d0a, 0x948347ae, 0xab92660e), x, 8), x, 9), x, 10), x, 11)
         == State(0xcc912f27, 0xb9ede40c, 0xae23894d, 0x6945a3d5)
  {
    hide Step;
    StepIs(State(0x3527497e, 0x377c7d0a, 0x948347ae, 0xab92660e), x, 8,
      0x9c82470e, 0x00000000, 0x3b2a2964, 0x9514b21d, 0xcc912f27);
    StepIs(State(0xab92660e, 0xcc912f27, 0x377c7d0a, 0x948347ae), x, 9,
      0x14126d8a, 0x00000000, 0x4ae9cb47, 0x9cb474ae, 0x6945a3d5);
    StepIs(State(0x948347ae, 0x6945a3d5, 0xcc912f27, 0x377c7d0a), x, 10,
      0x5e397f0f, 0x00000000, 0xf2bc226e, 0x44dde578, 0xae23894d);
    StepIs(State(0x377c7d0a, 0xae23894d, 0x6945a3d5, 0xcc912f27), x, 11,
      0x6891a767, 0x00000000, 0x296afc2f, 0x0bca5abf, 0xb9ede40c);
  }

  lemma Second3(x: seq<word>)
    requires |x| == 16 && SecondWords(x)
    ensures Step(Step(Step(Step(State(0xcc912f27, 0xb9ede40c, 0xae23894d, 0x6945a3d5), x, 12), x, 13), x, 14), x, 15)
         == State(0xdb4ff71c, 0x58b12eab, 0x04396a39, 0x9b6b4960)
  {
    hide Step;
    StepIs(State(0xcc912f27, 0xb9ede40c, 0xae23894d, 0x6945a3d5), x, 12,
      0xe82183dd, 0x00000000, 0x2042c426, 0x21621310, 0xdb4ff71c);
    StepIs(State(0x6945a3d5, 0xdb4ff71c, 0xb9ede40c, 0xae23894d), x, 13,
      0xbd6dec4d, 0x00000000, 0x244c01b5, 0xc01b5244, 0x9b6b4960);
    StepIs(State(0xae23894d, 0x9b6b4960, 0xdb4ff71c, 0xb9ede40c), x, 14,
      0xbbcfe50c, 0x00000280, 0x106cb467, 0x68ce20d9, 0x04396a39);
    StepIs(State(0xb9ede40c, 0x04396a39, 0x9b6b4960, 0xdb4ff71c), x, 15,
      0xdb6fdd24, 0x00000000, 0xdf11c951, 0x5477c472, 0x58b12eab);
  }

  lemma Second4(x: seq<word>)
    requires |x| == 16 && SecondWords(x)
    ensures Step(Step(Step(Step(State(0xdb4ff71c, 0x58b12eab, 0x04396a39, 0x9b6b4960), x, 16), x, 17), x, 18), x, 19)
         == State(0x52c00cae, 0x50f8de8c, 0xa476af6f, 0xaad2a216)
  {
    hide Step;
    StepIs(State(0xdb4ff71c, 0x58b12eab, 0x04396a39, 0x9b6b4960), x, 16,
      0x1c312a39, 0x32313039, 0x1fd076f0, 0xfa0ede03, 0x52c00cae);
    StepIs(State(0x9b6b4960, 0x52c00cae, 0x58b12eab, 0x04396a39), x, 17,
      0x58800caa, 0x00000000, 0xb42c094a, 0x58129568, 0xaad2a216);
    StepIs(State(0x04396a39, 0xaad2a216, 0x52c00cae, 0x58b12eab), x, 18,
      0x0ad02206, 0x00000000, 0x3567e690, 0xf9a40d59, 0xa476af6f);
    StepIs(State(0x58b12eab, 0xa476af6f, 0xaad2a216, 0x52c00cae), x, 19,
      0xa852ae3e, 0x38373635, 0x22f1dac8, 0xac822f1d, 0x50f8de8c);
  }

  lemma Second5(x: seq<word>)
    requires |x| == 16 && SecondWords(x)
    ensures Step(Step(Step(Step(State(0x52c00cae, 0x50f8de8c, 0xa476af6f, 0xaad2a216), x, 20), x, 21), x, 22), x, 23)
         == State(0x0d6e6d91, 0x043cb080, 0xd5b7a850, 0x17d64195)
  {
    hide Step;
    StepIs(State(0x52c00cae, 0x50f8de8c, 0xa476af6f, 0xaad2a216), x, 20,
      0x04f48f6d, 0x00000000, 0x2de3ac78, 0xbc758f05, 0x0d6e6d91);
    StepIs(State(0xaad2a216, 0x0d6e6d91, 0x50f8de8c, 0xa476af6f), x, 21,
      0x54ee7d81, 0x00000000, 0x020533ea, 0x0a67d404, 0x17d64195);
    StepIs(State(0xa476af6f, 0x17d64195, 0x0d6e6d91, 0x50f8de8c), x, 22,
      0x1dd66195, 0x00000000, 0x9aeef785, 0xbde166bb, 0xd5b7a850);
    StepIs(State(0x50f8de8c, 0xd5b7a850, 0x17d64195, 0x0d6e6d91), x, 23,
      0x17b62814, 0x00000080, 0x508302e8, 0x2e850830, 0x043cb080);
  }

  lemma Second6(x: seq<word>)
    requires |x| == 16 && SecondWords(x)
    ensures Step(Step(Step(Step(State(0x0d6e6d91, 0x043cb080, 0xd5b7a850, 0x17d64195), x, 24), x, 25), x, 26), x, 27)
         == State(0x74f9377e, 0xcb00b96e, 0xe775c8ca, 0x01f2addd)
  {
    hide Step;
    StepIs(State(0x0d6e6d91, 0x043cb080, 0xd5b7a850, 0x17d64195), x, 24,
      0xc435a8c0, 0x00000000, 0xf385e437, 0x70bc86fe, 0x74f9377e);
    StepIs(State(0x17d64195, 0x74f9377e, 0x043cb080, 0xd5b7a850), x, 25,
      0x54b930d0, 0x00000280, 0x2fc67cbb, 0x8cf9765f, 0x01f2addd);
    StepIs(State(0xd5b7a850, 0x01f2addd, 0x74f9377e, 0x043cb080), x, 26,
      0x70f1a7fe, 0x30393837, 0x6bb7960c, 0xe5831aed, 0xe775c8ca);
    StepIs(State(0x043cb080, 0xe775c8ca, 0x01f2addd, 0x74f9377e), x, 27,
      0x657388cb, 0x00000000, 0xaf0a4e38, 0xe38af0a4, 0xcb00b96e);
  }

  lemma Second7(x: seq<word>)
    requires |x| == 16 && SecondWords(x)
    ensures Step(Step(Step(Step(State(0x74f9377e, 0xcb00b96e, 0xe775c8ca, 0x01f2addd), x, 28), x, 29), x, 30), x, 31)
         == State(0x8761f38e, 0x67092c33, 0x061bc867, 0x7a516116)
  {
    hide Step;
    StepIs(State(0x74f9377e, 0xcb00b96e, 0xe775c8ca, 0x01f2addd), x, 28,
      0xe705e94e, 0x00000000, 0x05e309d1, 0xbc613a20, 0x8761f38e);
    StepIs(State(0x01f2addd, 0x8761f38e, 0xcb00b96e, 0xe775c8ca), x, 29,
      0x8f61f1ae, 0x36353433, 0xc47977b6, 0xf2ef6d88, 0x7a516116);
    StepIs(State(0xe775c8ca, 0x7a516116, 0x8761f38e, 0xcb00b96e), x, 30,
      0x4e616386, 0x00000000, 0x9d462f29, 0x8bca6751, 0x061bc867);
    StepIs(State(0xcb00b96e, 0x061bc867, 0x7a516116, 0x8761f38e), x, 31,
      0x7e11c016, 0x00000000, 0xd63cc60e, 0x60ed63cc, 0x67092c33);
  }

  lemma Second8(x: seq<word>)
    requires |x| == 16 && SecondWords(x)
    ensures Step(Step(Step(Step(State(0x8761f38e, 0x67092c33, 0x061bc867, 0x7a516116), x, 32), x, 33), x, 34), x, 35)
         == State(0x91044d5d, 0x2ee1e3fe, 0xc0175fa8, 0x610954eb)
  {
    hide Step;
    StepIs(State(0x8761f38e, 0x67092c33, 0x061bc867, 0x7a516116), x, 32,
      0x1b438542, 0x00000000, 0xa29fb212, 0x29fb212a, 0x91044d5d);
    StepIs(State(0x7a516116, 0x91044d5d, 0x67092c33, 0x061bc867), x, 33,
      0xf016a909, 0x00000000, 0xf1da00a0, 0xd005078e, 0x610954eb);
    StepIs(State(0x061bc867, 0x610954eb, 0x91044d5d, 0x67092c33), x, 34,
      0x97043585, 0x00000000, 0x0abd5f0e, 0x5f0e0abd, 0xc0175fa8);
    StepIs(State(0x67092c33, 0xc0175fa8, 0x610954eb, 0x91044d5d), x, 35,
      0x301a461e, 0x00000280, 0x9508acdd, 0x6eca8456, 0x2ee1e3fe);
  }

  lemma Second9(x: seq<word>)
    requires |x| == 16 && SecondWords(x)
    ensures Step(Step(Step(Step(State(0x91044d5d, 0x2ee1e3fe, 0xc0175fa8, 0x610954eb), x, 36), x, 37), x, 38), x, 39)
         == State(0xae26ed7d, 0xdbd1bff6, 0xff4a94dc, 0x71d8ecea)
  {
    hide Step;
    StepIs(State(0x91044d5d, 0x2ee1e3fe, 0xc0175fa8, 0x610954eb), x, 36,
      0x8fffe8bd, 0x32313039, 0xf7f45097, 0x7f45097f, 0xae26ed7d);
    StepIs(State(0x610954eb, 0xae26ed7d, 0x2ee1e3fe, 0xc0175fa8), x, 37,
      0x40d0512b, 0x00000080, 0xedb8763f, 0xc3b1ff6d, 0x71d8ecea);
    StepIs(State(0xc0175fa8, 0x71d8ecea, 0xae26ed7d, 0x2ee1e3fe), x, 38,
      0xf11fe269, 0x00000000, 0xa7f28d71, 0x8d71a7f2, 0xff4a94dc);
    StepIs(State(0x2ee1e3fe, 0xff4a94dc, 0x71d8ecea, 0xae26ed7d), x, 39,
      0x20b4954b, 0x00000000, 0x0e5635b9, 0xdc872b1a, 0xdbd1bff6);
  }

  lemma SecondA(x: seq<word>)
    requires |x| == 16 && SecondWords(x)
    ensures Step(Step(Step(Step(State(0xae26ed7d, 0xdbd1bff6, 0xff4a94dc, 0x71d8ecea), x, 40), x, 41), x, 42), x, 43)
         == State(0x9c350028, 0x56b3692f, 0xfacaaf06, 0x97e5da92)
  {
    hide Step;
    StepIs(State(0xae26ed7d, 0xdbd1bff6, 0xff4a94dc, 0x71d8ecea), x, 40,
      0x5543c7c0, 0x00000000, 0x2c063403, 0xc0634032, 0x9c350028);
    StepIs(State(0x71d8ecea, 0x9c350028, 0xdbd1bff6, 0xff4a94dc), x, 41,
      0xb8ae2b02, 0x38373635, 0x4d5f761b, 0xfbb0da6a, 0x97e5da92);
    StepIs(State(0xff4a94dc, 0x97e5da92, 0x9c350028, 0xdbd1bff6), x, 42,
      0xd001654c, 0x30393837, 0xd47462e4, 0x62e4d474, 0xfacaaf06);
    StepIs(State(0xdbd1bff6, 0xfacaaf06, 0x97e5da92, 0x9c350028), x, 43,
      0xf11a75bc, 0x00000000, 0xd17452b7, 0x5be8ba29, 0x56b3692f);
  }

  lemma SecondB(x: seq<word>)
    requires |x| == 16 && SecondWords(x)
    ensures Step(Step(Step(Step(State(0x9c350028, 0x56b3692f, 0xfacaaf06, 0x97e5da92), x, 44), x, 45), x, 46), x, 47)
         == State(0x71123afa, 0x1df7010a, 0xe6a8a386, 0xdc9c8ddb)
  {
    hide Step;
    StepIs(State(0x9c350028, 0x56b3692f, 0xfacaaf06, 0x97e5da92), x, 44,
      0x3b9c1cbb, 0x00000000, 0xb1a5ed1c, 0x1a5ed1cb, 0x71123afa);
    StepIs(State(0x97e5da92, 0x71123afa, 0x56b3692f, 0xfacaaf06), x, 45,
      0xdd6bfcd3, 0x00000000, 0x5c2d714a, 0x6b8a52e1, 0xdc9c8ddb);
    StepIs(State(0xfacaaf06, 0xdc9c8ddb, 0x71123afa, 0x56b3692f), x, 46,
      0xfb3dde0e, 0x00000000, 0x15ab0a0c, 0x0a0c15ab, 0xe6a8a386);
    StepIs(State(0x56b3692f, 0xe6a8a386, 0xdc9c8ddb, 0x71123afa), x, 47,
      0x4b2614a7, 0x36353433, 0x9cbb086e, 0x374e5d84, 0x1df7010a);
  }

  lemma SecondC(x: seq<word>)
    requires |x| == 16 && SecondWords(x)
    ensures Step(Step(Step(Step(State(0x71123afa, 0x1df7010a, 0xe6a8a386, 0xdc9c8ddb), x, 48), x, 49), x, 50), x, 51)
         == State(0xd29007e7, 0xc8797828, 0xd3248109, 0x7241a77e)
  {
    hide Step;
    StepIs(State(0x71123afa, 0x1df7010a, 0xe6a8a386, 0xdc9c8ddb), x, 48,
      0xd95fd0a8, 0x38373635, 0x76d2641b, 0xb49906dd, 0xd29007e7);
    StepIs(State(0xdc9c8ddb, 0xd29007e7, 0x1df7010a, 0xe6a8a386), x, 49,
      0xc6205ef5, 0x00000000, 0xe5e7ec67, 0x9fb19f97, 0x7241a77e);
    StepIs(State(0xe6a8a386, 0x7241a77e, 0xd29007e7, 0x1df7010a), x, 50,
      0x20d9f818, 0x00000280, 0xb316c1c5, 0x60e2d98b, 0xd3248109);
    StepIs(State(0x1df7010a, 0xd3248109, 0x7241a77e, 0xd29007e7), x, 51,
      0x8d2e5e67, 0x00000000, 0xa7b8ffaa, 0xf554f71f, 0xc8797828);
  }

  lemma SecondD(x: seq<word>)
    requires |x| == 16 && SecondWords(x)
    ensures Step(Step(Step(Step(State(0xd29007e7, 0xc8797828, 0xd3248109, 0x7241a77e), x, 52), x, 53), x, 54), x, 55)
         == State(0x7a504abd, 0x9b31b114, 0xa290d6ce, 0x211cc65d)
  {
    hide Step;
    StepIs(State(0xd29007e7, 0xc8797828, 0xd3248109, 0x7241a77e), x, 52,
      0x1edbf9a0, 0x00000000, 0x56c75b4a, 0xb1d6d295, 0x7a504abd);
    StepIs(State(0x7241a77e, 0x7a504abd, 0xc8797828, 0xd3248109), x, 53,
      0xb6a206d7, 0x30393837, 0xe829b31e, 0xa6cc7ba0, 0x211cc65d);
    StepIs(State(0xd3248109, 0x211cc65d, 0x7a504abd, 0xc8797828), x, 54,
      0x4dce8d62, 0x00000000, 0x20e302e8, 0x81741071, 0xa290d6ce);
    StepIs(State(0xc8797828, 0xa290d6ce, 0x211cc65d, 0x7a504abd), x, 55,
      0x86a33193, 0x32313039, 0x06d237c5, 0xf8a0da46, 0x9b31b114);
  }

  lemma SecondE(x: seq<word>)
    requires |x| == 16 && SecondWords(x)
    ensures Step(Step(Step(Step(State(0x7a504abd, 0x9b31b114, 0xa290d6ce, 0x211cc65d), x, 56), x, 57), x, 58), x, 59)
         == State(0x723fd22d, 0x4dc4f33d, 0x3d79cf74, 0xd21d6a3b)
  {
    hide Step;
    StepIs(State(0x7a504abd, 0x9b31b114, 0xa290d6ce, 0x211cc65d), x, 56,
      0x7d636f78, 0x00000000, 0x675c3884, 0xd70e2119, 0x723fd22d);
    StepIs(State(0x211cc65d, 0x723fd22d, 0x9b31b114, 0xa290d6ce), x, 57,
      0xe44e4a29, 0x00000000, 0x0397f766, 0x5fdd980e, 0xd21d6a3b);
    StepIs(State(0xa290d6ce, 0xd21d6a3b, 0x723fd22d, 0x9b31b114), x, 58,
      0x84e0bcd6, 0x00000000, 0xca72d6b8, 0x6b5c6539, 0x3d79cf74);
    StepIs(State(0x9b31b114, 0x3d79cf74, 0xd21d6a3b, 0x723fd22d), x, 59,
      0x6fe485cd, 0x00000000, 0x591e4882, 0x104b23c9, 0x4dc4f33d);
  }

  lemma SecondF(x: seq<word>)
    requires |x| == 16 && SecondWords(x)
    ensures Step(Step(Step(Step(State(0x723fd22d, 0x4dc4f33d, 0x3d79cf74, 0xd21d6a3b), x, 60), x, 61), x, 62), x, 63)
         == State(0xda67616b, 0xb12906a0, 0x44ec5a13, 0xc9e47a04)
  {
    hide Step;
    StepIs(State(0x723fd22d, 0x4dc4f33d, 0x3d79cf74, 0xd21d6a3b), x, 60,
      0x509f3889, 0x00000080, 0xba3289b8, 0x8ca26e2e, 0xda67616b);
    StepIs(State(0xd21d6a3b, 0xda67616b, 0x4dc4f33d, 0x3d79cf74), x, 61,
      0x972382d6, 0x00000000, 0x267bdf46, 0xef7d1899, 0xc9e47a04);
    StepIs(State(0x3d79cf74, 0xc9e47a04, 0xda67616b, 0x4dc4f33d), x, 62,
      0x21981fad, 0x36353433, 0xc01ef60f, 0x7b07e00f, 0x44ec5a13);
    StepIs(State(0x4dc4f33d, 0x44ec5a13, 0xc9e47a04, 0xda67616b), x, 63,
      0xac18a493, 0x00000000, 0xe5646b61, 0x6c3cac8d, 0xb12906a0);
  }

  lemma SecondSteps(x: seq<word>)
    requires |x| == 16 && SecondWords(x)
    ensures Steps(State(0xc88d8bec, 0xa4a0dc8b, 0xe9edef99, 0xb0d18d1d), x, 64)
         == State(0xda67616b, 0xb12906a0, 0x44ec5a13, 0xc9e47a04)
  {
    hide Step, SecondWords;
    var s := State(0xc88d8bec, 0xa4a0dc8b, 0xe9edef99, 0xb0d18d1d);
    NoSteps(s, x);
    FourSteps(s, x, 0);
    Second0(x);
    FourSteps(s, x, 4);
    Second1(x);
    FourSteps(s, x, 8);
    Second2(x);
    FourSteps(s, x, 12);
    Second3(x);
    FourSteps(s, x, 16);
    Second4(x);
    FourSteps(s, x, 20);
    Second5(x);
    FourSteps(s, x, 24);
    Second6(x);
    FourSteps(s, x, 28);
    Second7(x);
    FourSteps(s, x, 32);
    Second8(x);
    FourSteps(s, x, 36);
    Second9(x);
    FourSteps(s, x, 40);
    SecondA(x);
    FourSteps(s, x, 44);
    SecondB(x);
    FourSteps(s, x, 48);
    SecondC(x);
    FourSteps(s, x, 52);
    SecondD(x);
    FourSteps(s, x, 56);
    SecondE(x);
    FourSteps(s, x, 60);
    SecondF(x);
  }
}
