/** An example of appendix A.5 of RFC 1321, the digest of "abc", operation by operation: what the
    definitions of the standard come to in numbers. */
module Md5Example {
  import opened Md5Spec

  const ABC: seq<octet> := [0x61, 0x62, 0x63]

  /** The only block, as words: the message, 0x80, and the length of 24 bits. */
  const WORDS: seq<bv32> := [0x80636261, 0x00000000, 0x00000000, 0x00000000, 0x00000000, 0x00000000, 0x00000000, 0x00000000, 0x00000000, 0x00000000, 0x00000000, 0x00000000, 0x00000000, 0x00000000, 0x00000018, 0x00000000]

  /** One operation, from what its parts come to. */
  lemma Operation(i: nat, p: State, f: bv32, k: nat, w: bv32, s: bv32, t: bv32, sum: bv32, turned: bv32, n: bv32)
    requires k < 16 && Index(i) == k && WORDS[k] == w && Shift(i) == s as int && T(i) == t
    requires 0 < s < 32 && Mixed(i, p.b, p.c, p.d) == f && p.a + f + w + t == sum && (sum << s) | (sum >> (32 - s)) == turned && Plus(p.b, turned) == n
    ensures Turn(i, p.a, p.b, p.c, p.d, WORDS) == n
  {
    TurnBy(i, p.a, p.b, p.c, p.d, WORDS, f, w, s, t, sum);
    RotatedShifts(sum, s, s as int);
    hide Turn, Mixed, Index, Shift, T, Rotated, Plus;
  }

  lemma TurnBy(i: nat, a: bv32, b: bv32, c: bv32, d: bv32, x: seq<bv32>, f: bv32, w: bv32, s: bv32, t: bv32, sum: bv32)
    requires |x| == 16 && Mixed(i, b, c, d) == f && x[Index(i)] == w && Shift(i) == s as int && T(i) == t && a + f + w + t == sum
    ensures Turn(i, a, b, c, d, x) == Plus(b, Rotated(sum, s as int))
  {
    hide Mixed, Index, Shift, T, Rotated, Plus;
  }

  lemma Operations0()
    ensures Turn(0, 0x67452301, 0xefcdab89, 0x98badcfe, 0x10325476, WORDS) == 0xd6d117b4
    ensures Turn(1, 0x10325476, 0xd6d117b4, 0xefcdab89, 0x98badcfe, WORDS) == 0x344a8432
    ensures Turn(2, 0x98badcfe, 0x344a8432, 0xd6d117b4, 0xefcdab89, WORDS) == 0x2f6fbd72
    ensures Turn(3, 0xefcdab89, 0x2f6fbd72, 0x344a8432, 0xd6d117b4, WORDS) == 0x7ad956f2
  {
    hide Turn;
    Operation(0, State(0x67452301, 0xefcdab89, 0x98badcfe, 0x10325476), 0x98badcfe, 0, 0x80636261, 7, 0xd76aa478, 0x57ce06d8, 0xe7036c2b, 0xd6d117b4);
    Operation(1, State(0x10325476, 0xd6d117b4, 0xefcdab89, 0x98badcfe), 0xceebcbca, 1, 0x00000000, 12, 0xe8c7b756, 0xc7e5d796, 0x5d796c7e, 0x344a8432);
    Operation(2, State(0x98badcfe, 0x344a8432, 0xd6d117b4, 0xefcdab89), 0xdfc52fb9, 2, 0x00000000, 17, 0x242070db, 0x9ca07d92, 0xfb253940, 0x2f6fbd72);
    Operation(3, State(0xefcdab89, 0x2f6fbd72, 0x344a8432, 0xd6d117b4), 0xf4da86b6, 3, 0x00000000, 22, 0xc1bdceee, 0xa666012d, 0x4b699980, 0x7ad956f2);
  }

  lemma Operations4()
    ensures Turn(4, 0xd6d117b4, 0x7ad956f2, 0x2f6fbd72, 0x344a8432, WORDS) == 0xc73741ef
    ensures Turn(5, 0x344a8432, 0xc73741ef, 0x7ad956f2, 0x2f6fbd72, WORDS) == 0x8bac3051
    ensures Turn(6, 0x2f6fbd72, 0x8bac3051, 0xc73741ef, 0x7ad956f2, WORDS) == 0x207dc67b
    ensures Turn(7, 0x7ad956f2, 0x207dc67b, 0x8bac3051, 0xc73741ef, WORDS) == 0x928d99f6
  {
    hide Turn;
    Operation(4, State(0xd6d117b4, 0x7ad956f2, 0x2f6fbd72, 0x344a8432), 0x2e4b9472, 4, 0x00000000, 7, 0xf57c0faf, 0xfa98bbd5, 0x4c5deafd, 0xc73741ef);
    Operation(5, State(0x344a8432, 0xc73741ef, 0x7ad956f2, 0x2f6fbd72), 0x6a59fcf2, 5, 0x00000000, 12, 0x4787c62a, 0xe62c474e, 0xc474ee62, 0x8bac3051);
    Operation(6, State(0x2f6fbd72, 0x8bac3051, 0xc73741ef, 0x7ad956f2), 0xf37546e3, 6, 0x00000000, 17, 0xa8304613, 0xcb154a68, 0x94d1962a, 0x207dc67b);
    Operation(7, State(0x7ad956f2, 0x207dc67b, 0x8bac3051, 0xc73741ef), 0xc72e01d5, 7, 0x00000000, 22, 0xfd469501, 0x3f4dedc8, 0x720fd37b, 0x928d99f6);
  }

  lemma Operations8()
    ensures Turn(8, 0xc73741ef, 0x928d99f6, 0x207dc67b, 0x8bac3051, WORDS) == 0x854b3712
    ensures Turn(9, 0x8bac3051, 0x854b3712, 0x928d99f6, 0x207dc67b, WORDS) == 0x74e2f284
    ensures Turn(10, 0x207dc67b, 0x74e2f284, 0x854b3712, 0x928d99f6, WORDS) == 0x3020401c
    ensures Turn(11, 0x928d99f6, 0x3020401c, 0x74e2f284, 0x854b3712, WORDS) == 0x5ed49596
  {
    hide Turn;
    Operation(8, State(0xc73741ef, 0x928d99f6, 0x207dc67b, 0x8bac3051), 0x092da073, 8, 0x00000000, 7, 0x698098d8, 0x39e57b3a, 0xf2bd9d1c, 0x854b3712);
    Operation(9, State(0x8bac3051, 0x854b3712, 0x928d99f6, 0x207dc67b), 0xa03dd17b, 9, 0x00000000, 12, 0x8b44f7af, 0xb72ef97b, 0xef97bb72, 0x74e2f284);
    Operation(10, State(0x207dc67b, 0x74e2f284, 0x854b3712, 0x928d99f6), 0x864f3b72, 10, 0x00000000, 17, 0xffff5bb1, 0xa6cc5d9e, 0xbb3d4d98, 0x3020401c);
    Operation(11, State(0x928d99f6, 0x3020401c, 0x74e2f284, 0x854b3712), 0xb56b7706, 11, 0x00000000, 22, 0x895cd7be, 0xd155e8ba, 0x2eb4557a, 0x5ed49596);
  }

  lemma Operations12()
    ensures Turn(12, 0x854b3712, 0x5ed49596, 0x3020401c, 0x74e2f284, WORDS) == 0xdda9b9a6
    ensures Turn(13, 0x74e2f284, 0xdda9b9a6, 0x5ed49596, 0x3020401c, WORDS) == 0xa1051895
    ensures Turn(14, 0x3020401c, 0xa1051895, 0xdda9b9a6, 0x5ed49596, WORDS) == 0xe396856b
    ensures Turn(15, 0x5ed49596, 0xe396856b, 0xa1051895, 0xdda9b9a6, WORDS) == 0x72aff2e0
  {
    hide Turn;
    Operation(12, State(0x854b3712, 0x5ed49596, 0x3020401c, 0x74e2f284), 0x30226214, 12, 0x00000000, 7, 0x6b901122, 0x20fdaa48, 0x7ed52410, 0xdda9b9a6);
    Operation(13, State(0x74e2f284, 0xdda9b9a6, 0x5ed49596, 0x3020401c), 0x7c80d19e, 13, 0x00000000, 12, 0xfd987193, 0xeefc35b5, 0xc35b5eef, 0xa1051895);
    Operation(14, State(0x3020401c, 0xa1051895, 0xdda9b9a6, 0x5ed49596), 0xdfd19d86, 14, 0x00000018, 17, 0xa679438e, 0xb66b2148, 0x42916cd6, 0xe396856b);
    Operation(15, State(0x5ed49596, 0xe396856b, 0xa1051895, 0xdda9b9a6), 0xbd2d3885, 15, 0x00000000, 22, 0x49b40821, 0x65b5d63c, 0x8f196d75, 0x72aff2e0);
  }

  lemma Operations16()
    ensures Turn(16, 0xdda9b9a6, 0x72aff2e0, 0xe396856b, 0xa1051895, WORDS) == 0x3e9e9126
    ensures Turn(17, 0xa1051895, 0x3e9e9126, 0x72aff2e0, 0xe396856b, WORDS) == 0x4a1d804e
    ensures Turn(18, 0xe396856b, 0x4a1d804e, 0x3e9e9126, 0x72aff2e0, WORDS) == 0xe25e1652
    ensures Turn(19, 0x72aff2e0, 0xe25e1652, 0x4a1d804e, 0x3e9e9126, WORDS) == 0xb5b204e4
  {
    hide Turn;
    Operation(16, State(0xdda9b9a6, 0x72aff2e0, 0xe396856b, 0xa1051895), 0x629795ea, 1, 0x00000000, 5, 0xf61e2562, 0x365f74f2, 0xcbee9e46, 0x3e9e9126);
    Operation(17, State(0xa1051895, 0x3e9e9126, 0x72aff2e0, 0xe396856b), 0x32bff3a2, 6, 0x00000000, 9, 0xc040b340, 0x9405bf77, 0x0b7eef28, 0x4a1d804e);
    Operation(18, State(0xe396856b, 0x4a1d804e, 0x3e9e9126, 0x72aff2e0), 0x4e1d8146, 11, 0x00000000, 14, 0x265e5a51, 0x58126102, 0x98409604, 0xe25e1652);
    Operation(19, State(0x72aff2e0, 0xe25e1652, 0x4a1d804e, 0x3e9e9126), 0x621f104a, 0, 0x80636261, 20, 0xe9b6c7aa, 0x3ee92d35, 0xd353ee92, 0xb5b204e4);
  }

  lemma Operations20()
    ensures Turn(20, 0x3e9e9126, 0xb5b204e4, 0xe25e1652, 0x4a1d804e, WORDS) == 0x59a8ffda
    ensures Turn(21, 0x4a1d804e, 0x59a8ffda, 0xb5b204e4, 0xe25e1652, WORDS) == 0x6d002f1e
    ensures Turn(22, 0xe25e1652, 0x6d002f1e, 0x59a8ffda, 0xb5b204e4, WORDS) == 0xabfc7920
    ensures Turn(23, 0xb5b204e4, 0xabfc7920, 0x6d002f1e, 0x59a8ffda, WORDS) == 0x47092c07
  {
    hide Turn;
    Operation(20, State(0x3e9e9126, 0xb5b204e4, 0xe25e1652, 0x4a1d804e), 0xa0521654, 5, 0x00000000, 5, 0xd62f105d, 0xb51fb7d7, 0xa3f6faf6, 0x59a8ffda);
    Operation(21, State(0x4a1d804e, 0x59a8ffda, 0xb5b204e4, 0xe25e1652), 0x55a816f6, 10, 0x00000000, 9, 0x02441453, 0xa209ab97, 0x13572f44, 0x6d002f1e);
    Operation(22, State(0xe25e1652, 0x6d002f1e, 0x59a8ffda, 0xb5b204e4), 0x6d08ff1e, 15, 0x00000000, 14, 0xd8a1e681, 0x2808fbf1, 0x3efc4a02, 0xabfc7920);
    Operation(23, State(0xb5b204e4, 0xabfc7920, 0x6d002f1e, 0x59a8ffda), 0x2da87904, 4, 0x00000000, 20, 0xe7d3fbc8, 0xcb2e79b0, 0x9b0cb2e7, 0x47092c07);
  }

  lemma Operations24()
    ensures Turn(24, 0x59a8ffda, 0x47092c07, 0xabfc7920, 0x6d002f1e, WORDS) == 0xb7f268cf
    ensures Turn(25, 0x6d002f1e, 0xb7f268cf, 0x47092c07, 0xabfc7920, WORDS) == 0x09388eff
    ensures Turn(26, 0xabfc7920, 0x09388eff, 0xb7f268cf, 0x47092c07, WORDS) == 0xfe1623b1
    ensures Turn(27, 0x47092c07, 0xfe1623b1, 0x09388eff, 0xb7f268cf, WORDS) == 0x786acb8f
  {
    hide Turn;
    Operation(24, State(0x59a8ffda, 0x47092c07, 0xabfc7920, 0x6d002f1e), 0xc7fc7c26, 9, 0x00000000, 5, 0x21e1cde6, 0x438749e6, 0x70e93cc8, 0xb7f268cf);
    Operation(25, State(0x6d002f1e, 0xb7f268cf, 0x47092c07, 0xabfc7920), 0xe7f16c07, 14, 0x00000018, 9, 0xc33707d6, 0x1828a313, 0x51462630, 0x09388eff);
    Operation(26, State(0xabfc7920, 0x09388eff, 0xb7f268cf, 0x47092c07), 0xb1fa4ccf, 3, 0x00000000, 14, 0xf4d50d87, 0x52cbd376, 0xf4dd94b2, 0xfe1623b1);
    Operation(27, State(0x47092c07, 0xfe1623b1, 0x09388eff, 0xb7f268cf), 0xbe1aa6b1, 8, 0x00000000, 20, 0x455a14ed, 0x4a7de7a5, 0x7a54a7de, 0x786acb8f);
  }

  lemma Operations28()
    ensures Turn(28, 0xb7f268cf, 0x786acb8f, 0xfe1623b1, 0x09388eff, WORDS) == 0x790a77fb
    ensures Turn(29, 0x09388eff, 0x790a77fb, 0x786acb8f, 0xfe1623b1, WORDS) == 0x9f47e4f8
    ensures Turn(30, 0xfe1623b1, 0x9f47e4f8, 0x790a77fb, 0x786acb8f, WORDS) == 0xa62884aa
    ensures Turn(31, 0x786acb8f, 0xa62884aa, 0x9f47e4f8, 0x790a77fb, WORDS) == 0x726342d3
  {
    hide Turn;
    Operation(28, State(0xb7f268cf, 0x786acb8f, 0xfe1623b1, 0x09388eff), 0xfe2eab8f, 13, 0x00000000, 5, 0xa9e3e905, 0x6004fd63, 0x009fac6c, 0x790a77fb);
    Operation(29, State(0x09388eff, 0x790a77fb, 0x786acb8f, 0xfe1623b1), 0x786aebbf, 2, 0x00000000, 9, 0xfcefa3f8, 0x7e931eb6, 0x263d6cfd, 0x9f47e4f8);
    Operation(30, State(0xfe1623b1, 0x9f47e4f8, 0x790a77fb, 0x786acb8f), 0x1942f4f8, 7, 0x00000000, 14, 0x676f02d9, 0x7ec81b82, 0x06e09fb2, 0xa62884aa);
    Operation(31, State(0x786acb8f, 0xa62884aa, 0x9f47e4f8, 0x790a77fb), 0xa64d84aa, 12, 0x00000000, 20, 0x8d2a4c8a, 0xabe29cc3, 0xcc3abe29, 0x726342d3);
  }

  lemma Operations32()
    ensures Turn(32, 0x790a77fb, 0x726342d3, 0xa62884aa, 0x9f47e4f8, WORDS) == 0xb3707ebf
    ensures Turn(33, 0x9f47e4f8, 0xb3707ebf, 0x726342d3, 0xa62884aa, WORDS) == 0x60127b2e
    ensures Turn(34, 0xa62884aa, 0x60127b2e, 0xb3707ebf, 0x726342d3, WORDS) == 0x8d212ff5
    ensures Turn(35, 0x726342d3, 0x8d212ff5, 0x60127b2e, 0xb3707ebf, WORDS) == 0x3b0875c7
  {
    hide Turn;
    Operation(32, State(0x790a77fb, 0x726342d3, 0xa62884aa, 0x9f47e4f8), 0x4b0c2281, 5, 0x00000000, 4, 0xfffa3942, 0xc410d3be, 0x410d3bec, 0xb3707ebf);
    Operation(33, State(0x9f47e4f8, 0xb3707ebf, 0x726342d3, 0xa62884aa), 0x673bb8c6, 8, 0x00000000, 11, 0x8771f681, 0x8df5943f, 0xaca1fc6f, 0x60127b2e);
    Operation(34, State(0xa62884aa, 0x60127b2e, 0xb3707ebf, 0x726342d3), 0xa1014742, 11, 0x00000000, 16, 0x6d9d6122, 0xb4c72d0e, 0x2d0eb4c7, 0x8d212ff5);
    Operation(35, State(0x726342d3, 0x8d212ff5, 0x60127b2e, 0xb3707ebf), 0x5e432a64, 14, 0x00000018, 23, 0xfde5380c, 0xce8ba55b, 0xade745d2, 0x3b0875c7);
  }

  lemma Operations36()
    ensures Turn(36, 0xb3707ebf, 0x3b0875c7, 0x8d212ff5, 0x60127b2e, WORDS) == 0x21b117b9
    ensures Turn(37, 0x60127b2e, 0x21b117b9, 0x3b0875c7, 0x8d212ff5, WORDS) == 0x6e7429d5
    ensures Turn(38, 0x8d212ff5, 0x6e7429d5, 0x21b117b9, 0x3b0875c7, WORDS) == 0x3575227e
    ensures Turn(39, 0x3b0875c7, 0x3575227e, 0x6e7429d5, 0x21b117b9, WORDS) == 0x5a2f5ea5
  {
    hide Turn;
    Operation(36, State(0xb3707ebf, 0x3b0875c7, 0x8d212ff5, 0x60127b2e), 0xd63b211c, 1, 0x00000000, 4, 0xa4beea44, 0x2e6a8a1f, 0xe6a8a1f2, 0x21b117b9);
    Operation(37, State(0x60127b2e, 0x21b117b9, 0x3b0875c7, 0x8d212ff5), 0x97984d8b, 4, 0x00000000, 11, 0x4bdecfa9, 0x43899862, 0x4cc3121c, 0x6e7429d5);
    Operation(38, State(0x8d212ff5, 0x6e7429d5, 0x21b117b9, 0x3b0875c7), 0x74cd4bab, 7, 0x00000000, 16, 0xf6bb4b60, 0xf8a9c700, 0xc700f8a9, 0x3575227e);
    Operation(39, State(0x3b0875c7, 0x3575227e, 0x6e7429d5, 0x21b117b9), 0x7ab01c12, 10, 0x00000000, 23, 0xbebfbc70, 0x74784e49, 0x24ba3c27, 0x5a2f5ea5);
  }

  lemma Operations40()
    ensures Turn(40, 0x21b117b9, 0x5a2f5ea5, 0x3575227e, 0x6e7429d5, WORDS) == 0x11de1779
    ensures Turn(41, 0x6e7429d5, 0x11de1779, 0x5a2f5ea5, 0x3575227e, WORDS) == 0xfadcaa38
    ensures Turn(42, 0x3575227e, 0xfadcaa38, 0x11de1779, 0x5a2f5ea5, WORDS) == 0x31c465ca
    ensures Turn(43, 0x5a2f5ea5, 0x31c465ca, 0xfadcaa38, 0x11de1779, WORDS) == 0x4c6124f4
  {
    hide Turn;
    Operation(40, State(0x21b117b9, 0x5a2f5ea5, 0x3575227e, 0x6e7429d5), 0x012e550e, 13, 0x00000000, 4, 0x289b7ec6, 0x4b7aeb8d, 0xb7aeb8d4, 0x11de1779);
    Operation(41, State(0x6e7429d5, 0x11de1779, 0x5a2f5ea5, 0x3575227e), 0x7e846ba2, 0, 0x80636261, 11, 0xeaa127fa, 0x57fd1fd2, 0xe8fe92bf, 0xfadcaa38);
    Operation(42, State(0x3575227e, 0xfadcaa38, 0x11de1779, 0x5a2f5ea5), 0xb12de3e4, 3, 0x00000000, 16, 0xd4ef3085, 0xbb9236e7, 0x36e7bb92, 0x31c465ca);
    Operation(43, State(0x5a2f5ea5, 0x31c465ca, 0xfadcaa38, 0x11de1779), 0xdac6d88b, 6, 0x00000000, 23, 0x04881d05, 0x397e5435, 0x1a9cbf2a, 0x4c6124f4);
  }

  lemma Operations44()
    ensures Turn(44, 0x11de1779, 0x4c6124f4, 0x31c465ca, 0xfadcaa38, WORDS) == 0x7f2e507b
    ensures Turn(45, 0xfadcaa38, 0x7f2e507b, 0x4c6124f4, 0x31c465ca, WORDS) == 0x99d9679d
    ensures Turn(46, 0x31c465ca, 0x99d9679d, 0x7f2e507b, 0x4c6124f4, WORDS) == 0x8fae6399
    ensures Turn(47, 0x4c6124f4, 0x8fae6399, 0x99d9679d, 0x7f2e507b, WORDS) == 0x7beb9700
  {
    hide Turn;
    Operation(44, State(0x11de1779, 0x4c6124f4, 0x31c465ca, 0xfadcaa38), 0x8779eb06, 9, 0x00000000, 4, 0xd9d4d039, 0x732cd2b8, 0x32cd2b87, 0x7f2e507b);
    Operation(45, State(0xfadcaa38, 0x7f2e507b, 0x4c6124f4, 0x31c465ca), 0x028b1145, 12, 0x00000000, 11, 0xe6db99e5, 0xe4435562, 0x1aab1722, 0x99d9679d);
    Operation(46, State(0x31c465ca, 0x99d9679d, 0x7f2e507b, 0x4c6124f4), 0xaa961312, 15, 0x00000000, 16, 0x1fa27cf8, 0xfbfcf5d4, 0xf5d4fbfc, 0x8fae6399);
    Operation(47, State(0x4c6124f4, 0x8fae6399, 0x99d9679d, 0x7f2e507b), 0x6959547f, 2, 0x00000000, 23, 0xc4ac5665, 0x7a66cfd8, 0xec3d3367, 0x7beb9700);
  }

  lemma Operations48()
    ensures Turn(48, 0x7f2e507b, 0x7beb9700, 0x8fae6399, 0x99d9679d, WORDS) == 0x7b201df8
    ensures Turn(49, 0x99d9679d, 0x7b201df8, 0x7beb9700, 0x8fae6399, WORDS) == 0xf4e8e96e
    ensures Turn(50, 0x8fae6399, 0xf4e8e96e, 0x7b201df8, 0x7beb9700, WORDS) == 0xb298cefd
    ensures Turn(51, 0x7beb9700, 0xb298cefd, 0xf4e8e96e, 0x7b201df8, WORDS) == 0x8bf025c4
  {
    hide Turn;
    Operation(48, State(0x7f2e507b, 0x7beb9700, 0x8fae6399, 0x99d9679d), 0xf041fcfb, 0, 0x80636261, 6, 0xf4292244, 0xe3fcd21b, 0xff3486f8, 0x7b201df8);
    Operation(49, State(0x99d9679d, 0x7b201df8, 0x7beb9700, 0x8fae6399), 0x009a0afe, 7, 0x00000000, 10, 0x432aff97, 0xdd9e7232, 0x79c8cb76, 0xf4e8e96e);
    Operation(50, State(0x8fae6399, 0xf4e8e96e, 0x7b201df8, 0x7beb9700), 0x8fdcf407, 14, 0x00000018, 15, 0xab9423a7, 0xcb1f7b5f, 0xbdafe58f, 0xb298cefd);
    Operation(51, State(0x7beb9700, 0xb298cefd, 0xf4e8e96e, 0x7b201df8), 0x42370791, 5, 0x00000000, 21, 0xfc93a039, 0xbab63eca, 0xd95756c7, 0x8bf025c4);
  }

  lemma Operations52()
    ensures Turn(52, 0x7b201df8, 0x8bf025c4, 0xb298cefd, 0xf4e8e96e, WORDS) == 0x06cc5e8a
    ensures Turn(53, 0xf4e8e96e, 0x06cc5e8a, 0x8bf025c4, 0xb298cefd, WORDS) == 0x5b0d97aa
    ensures Turn(54, 0xb298cefd, 0x5b0d97aa, 0x06cc5e8a, 0x8bf025c4, WORDS) == 0x7d632dd0
    ensures Turn(55, 0x8bf025c4, 0x7d632dd0, 0x5b0d97aa, 0x06cc5e8a, WORDS) == 0x3bfa2c27
  {
    hide Turn;
    Operation(52, State(0x7b201df8, 0x8bf025c4, 0xb298cefd, 0xf4e8e96e), 0x396ff928, 12, 0x00000000, 6, 0x655b59c3, 0x19eb70e3, 0x7adc38c6, 0x06cc5e8a);
    Operation(53, State(0xf4e8e96e, 0x06cc5e8a, 0x8bf025c4, 0xb298cefd), 0xc41f5a4e, 3, 0x00000000, 10, 0x8f0ccc92, 0x4815104e, 0x54413920, 0x5b0d97aa);
    Operation(54, State(0xb298cefd, 0x5b0d97aa, 0x06cc5e8a, 0x8bf025c4), 0x79c38131, 10, 0x00000000, 15, 0xffeff47d, 0x2c4c44ab, 0x22559626, 0x7d632dd0);
    Operation(55, State(0x8bf025c4, 0x7d632dd0, 0x5b0d97aa, 0x06cc5e8a), 0xa67e3a5f, 1, 0x00000000, 21, 0x85845dd1, 0xb7f2bdf4, 0xbe96fe57, 0x3bfa2c27);
  }

  lemma Operations56()
    ensures Turn(56, 0x06cc5e8a, 0x3bfa2c27, 0x7d632dd0, 0x5b0d97aa, WORDS) == 0x7f81cc35
    ensures Turn(57, 0x5b0d97aa, 0x7f81cc35, 0x3bfa2c27, 0x7d632dd0, WORDS) == 0x094454ab
    ensures Turn(58, 0x7d632dd0, 0x094454ab, 0x7f81cc35, 0x3bfa2c27, WORDS) == 0x4f9dbe3f
    ensures Turn(59, 0x3bfa2c27, 0x4f9dbe3f, 0x094454ab, 0x7f81cc35, WORDS) == 0x7327d604
  {
    hide Turn;
    Operation(56, State(0x06cc5e8a, 0x3bfa2c27, 0x7d632dd0, 0x5b0d97aa), 0xc29941a7, 8, 0x00000000, 6, 0x6fa87e4f, 0x390e1e80, 0x4387a00e, 0x7f81cc35);
    Operation(57, State(0x5b0d97aa, 0x7f81cc35, 0x3bfa2c27, 0x7d632dd0), 0xc467f218, 15, 0x00000000, 10, 0xfe2ce6e0, 0x1da270a2, 0x89c28876, 0x094454ab);
    Operation(58, State(0x7d632dd0, 0x094454ab, 0x7f81cc35, 0x3bfa2c27), 0xb2c41bce, 6, 0x00000000, 15, 0xa3014314, 0xd3288cb2, 0x46596994, 0x4f9dbe3f);
    Operation(59, State(0x3bfa2c27, 0x4f9dbe3f, 0x094454ab, 0x7f81cc35), 0xc6bbeb54, 13, 0x00000000, 21, 0x4e0811a1, 0x50be291c, 0x238a17c5, 0x7327d604);
  }

  lemma Operations60()
    ensures Turn(60, 0x7f81cc35, 0x7327d604, 0x4f9dbe3f, 0x094454ab, WORDS) == 0x310ade8f
    ensures Turn(61, 0x094454ab, 0x310ade8f, 0x7327d604, 0x4f9dbe3f, WORDS) == 0x624d8cb2
    ensures Turn(62, 0x4f9dbe3f, 0x624d8cb2, 0x310ade8f, 0x7327d604, WORDS) == 0xe484b9d8
    ensures Turn(63, 0x7327d604, 0xe484b9d8, 0x624d8cb2, 0x310ade8f, WORDS) == 0xc08226b3
  {
    hide Turn;
    Operation(60, State(0x7f81cc35, 0x7327d604, 0x4f9dbe3f, 0x094454ab), 0xb822416b, 4, 0x00000000, 6, 0xf7537e82, 0x2ef78c22, 0xbde3088b, 0x310ade8f);
    Operation(61, State(0x094454ab, 0x310ade8f, 0x7327d604, 0x4f9dbe3f), 0xc24d09cb, 11, 0x00000000, 10, 0xbd3af235, 0x88cc50ab, 0x3142ae23, 0x624d8cb2);
    Operation(62, State(0x4f9dbe3f, 0x624d8cb2, 0x310ade8f, 0x7327d604), 0xdfd77374, 2, 0x00000000, 15, 0x2ad7d2bb, 0x5a4d046e, 0x82372d26, 0xe484b9d8);
    Operation(63, State(0x7327d604, 0xe484b9d8, 0x624d8cb2, 0x310ade8f), 0x8cb8354a, 9, 0x00000000, 21, 0xeb86d391, 0xeb66dedf, 0xdbfd6cdb, 0xc08226b3);
  }

  lemma NoOperations()
    ensures Steps(Start(), WORDS, 0) == State(0x67452301, 0xefcdab89, 0x98badcfe, 0x10325476)
  {
  }

  lemma FirstRound()
    ensures Steps(Start(), WORDS, 16) == State(0xdda9b9a6, 0x72aff2e0, 0xe396856b, 0xa1051895)
  {
    hide Steps, Start, Turn;
    NoOperations();
    Operations0();
    FourSteps(Start(), WORDS, 0, State(0x67452301, 0xefcdab89, 0x98badcfe, 0x10325476), 0xd6d117b4, 0x7ad956f2, 0x2f6fbd72, 0x344a8432);
    Operations4();
    FourSteps(Start(), WORDS, 4, State(0xd6d117b4, 0x7ad956f2, 0x2f6fbd72, 0x344a8432), 0xc73741ef, 0x928d99f6, 0x207dc67b, 0x8bac3051);
    Operations8();
    FourSteps(Start(), WORDS, 8, State(0xc73741ef, 0x928d99f6, 0x207dc67b, 0x8bac3051), 0x854b3712, 0x5ed49596, 0x3020401c, 0x74e2f284);
    Operations12();
    FourSteps(Start(), WORDS, 12, State(0x854b3712, 0x5ed49596, 0x3020401c, 0x74e2f284), 0xdda9b9a6, 0x72aff2e0, 0xe396856b, 0xa1051895);
  }

  lemma SecondRound()
    ensures Steps(Start(), WORDS, 32) == State(0x790a77fb, 0x726342d3, 0xa62884aa, 0x9f47e4f8)
  {
    hide Steps, Start, Turn;
    FirstRound();
    Operations16();
    FourSteps(Start(), WORDS, 16, State(0xdda9b9a6, 0x72aff2e0, 0xe396856b, 0xa1051895), 0x3e9e9126, 0xb5b204e4, 0xe25e1652, 0x4a1d804e);
    Operations20();
    FourSteps(Start(), WORDS, 20, State(0x3e9e9126, 0xb5b204e4, 0xe25e1652, 0x4a1d804e), 0x59a8ffda, 0x47092c07, 0xabfc7920, 0x6d002f1e);
    Operations24();
    FourSteps(Start(), WORDS, 24, State(0x59a8ffda, 0x47092c07, 0xabfc7920, 0x6d002f1e), 0xb7f268cf, 0x786acb8f, 0xfe1623b1, 0x09388eff);
    Operations28();
    FourSteps(Start(), WORDS, 28, State(0xb7f268cf, 0x786acb8f, 0xfe1623b1, 0x09388eff), 0x790a77fb, 0x726342d3, 0xa62884aa, 0x9f47e4f8);
  }

  lemma ThirdRound()
    ensures Steps(Start(), WORDS, 48) == State(0x7f2e507b, 0x7beb9700, 0x8fae6399, 0x99d9679d)
  {
    hide Steps, Start, Turn;
    SecondRound();
    Operations32();
    FourSteps(Start(), WORDS, 32, State(0x790a77fb, 0x726342d3, 0xa62884aa, 0x9f47e4f8), 0xb3707ebf, 0x3b0875c7, 0x8d212ff5, 0x60127b2e);
    Operations36();
    FourSteps(Start(), WORDS, 36, State(0xb3707ebf, 0x3b0875c7, 0x8d212ff5, 0x60127b2e), 0x21b117b9, 0x5a2f5ea5, 0x3575227e, 0x6e7429d5);
    Operations40();
    FourSteps(Start(), WORDS, 40, State(0x21b117b9, 0x5a2f5ea5, 0x3575227e, 0x6e7429d5), 0x11de1779, 0x4c6124f4, 0x31c465ca, 0xfadcaa38);
    Operations44();
    FourSteps(Start(), WORDS, 44, State(0x11de1779, 0x4c6124f4, 0x31c465ca, 0xfadcaa38), 0x7f2e507b, 0x7beb9700, 0x8fae6399, 0x99d9679d);
  }

  lemma AllOperations()
    ensures Steps(Start(), WORDS, 64) == State(0x310ade8f, 0xc08226b3, 0xe484b9d8, 0x624d8cb2)
  {
    hide Steps, Start, Turn;
    ThirdRound();
    Operations48();
    FourSteps(Start(), WORDS, 48, State(0x7f2e507b, 0x7beb9700, 0x8fae6399, 0x99d9679d), 0x7b201df8, 0x8bf025c4, 0xb298cefd, 0xf4e8e96e);
    Operations52();
    FourSteps(Start(), WORDS, 52, State(0x7b201df8, 0x8bf025c4, 0xb298cefd, 0xf4e8e96e), 0x06cc5e8a, 0x3bfa2c27, 0x7d632dd0, 0x5b0d97aa);
    Operations56();
    FourSteps(Start(), WORDS, 56, State(0x06cc5e8a, 0x3bfa2c27, 0x7d632dd0, 0x5b0d97aa), 0x7f81cc35, 0x7327d604, 0x4f9dbe3f, 0x094454ab);
    Operations60();
    FourSteps(Start(), WORDS, 60, State(0x7f81cc35, 0x7327d604, 0x4f9dbe3f, 0x094454ab), 0x310ade8f, 0xc08226b3, 0xe484b9d8, 0x624d8cb2);
  }

  lemma PaddedAbc()
    ensures Padded(ABC) == [0x61, 0x62, 0x63, 0x80] + Zeros(52) + [24, 0, 0, 0, 0, 0, 0, 0]
  {
    hide Zeros;
    assert LengthField(3) == [24, 0, 0, 0, 0, 0, 0, 0];
    assert ZeroCount(3) == 52;
    hide LengthField, ZeroCount;
  }

  lemma WordsOfAbc()
    ensures WordsOf([0x61, 0x62, 0x63, 0x80] + Zeros(52) + [24, 0, 0, 0, 0, 0, 0, 0]) == WORDS
  {
    var block := [0x61, 0x62, 0x63, 0x80] + Zeros(52) + [24, 0, 0, 0, 0, 0, 0, 0];
    FirstWord();
    LengthWord();
    ZeroWord();
    hide WordOf;
    forall k: nat | k < 16
      ensures WordsOf(block)[k] == WORDS[k]
    {
    }
  }

  lemma SomeWord(n: nat, x: bv32)
    requires n < 0x1_0000_0000 && x as int == n
    ensures n as bv32 == x
  {
  }

  lemma FirstWord()
    ensures WordOf(0x61, 0x62, 0x63, 0x80) == 0x80636261
  {
    var n, x: bv32 := 0x61 + 0x100 * 0x62 + 0x1_0000 * 0x63 + 0x100_0000 * 0x80, 0x80636261;
    assert x as int == n;
    SomeWord(n, x);
  }

  lemma LengthWord()
    ensures WordOf(24, 0, 0, 0) == 24
  {
  }

  lemma ZeroWord()
    ensures WordOf(0, 0, 0, 0) == 0
  {
  }

  /** The digest that the appendix gives. */
  lemma DigestOfAbc()
    ensures Md5(ABC) == [0x90, 0x01, 0x50, 0x98, 0x3c, 0xd2, 0x4f, 0xb0, 0xd6, 0x96, 0x3f, 0x7d, 0x28, 0xe1, 0x7f, 0x72]
  {
    hide Steps, Start, Padded, WordsOf, Output;
    PaddedAbc();
    var block := [0x61, 0x62, 0x63, 0x80] + Zeros(52) + [24, 0, 0, 0, 0, 0, 0, 0];
    WordsOfAbc();
    AllOperations();
    OneBlock(block);
    FinalWords();
    LastOctets();
  }

  lemma OneBlock(block: seq<octet>)
    requires |block| == 64
    ensures Blocks(Start(), block) == Compress(Start(), block)
  {
    hide Compress, Start;
    assert block[..0] == [] && block[0..] == block;
  }

  lemma FinalWords()
    ensures Sum(Start(), State(0x310ade8f, 0xc08226b3, 0xe484b9d8, 0x624d8cb2)) == State(0x98500190, 0xb04fd23c, 0x7d3f96d6, 0x727fe128)
  {
  }

  lemma LastOctets()
    ensures Output(State(0x98500190, 0xb04fd23c, 0x7d3f96d6, 0x727fe128)) == [0x90, 0x01, 0x50, 0x98, 0x3c, 0xd2, 0x4f, 0xb0, 0xd6, 0x96, 0x3f, 0x7d, 0x28, 0xe1, 0x7f, 0x72]
  {
  }
}
