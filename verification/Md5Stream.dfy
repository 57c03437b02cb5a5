/** md5_process and the streaming interface of lab4/md5.c. */
module Md5Stream {
  import opened Md5Spec

  // ---------------------------------------------------------------- md5_process

  const MASK: bv32 := 0xffffffff

  function RotateLeft(x: bv32, n: bv32): bv32
    requires 0 < n < 32
  {
    (x << n) | (x >> (32 - n))
  }

  lemma RotateLeftRotates(x: bv32, n: bv32)
    requires 0 < n < 32
    ensures RotateLeft(x, n) == Rotated(x, n as int)
  {
    RotatedShifts(x, n, n as int);
    hide Rotated;
  }

  /** The macro SET. */
  function Set(f: bv32, a: bv32, b: bv32, x: bv32, s: bv32, t: bv32): bv32
    requires 0 < s < 32
  {
    Plus(RotateLeft(a + f + x + t, s), b)
  }

  lemma SetIsLine(f: bv32, a: bv32, b: bv32, x: bv32, s: bv32, t: bv32)
    requires 0 < s < 32
    ensures Set(f, a, b, x, s, t) == Line(f, a, b, x, s as int, t)
  {
    hide Rotated, RotateLeft, Plus;
    RotateLeftRotates(a + f + x + t, s);
    PlusCommutes(Rotated(a + f + x + t, s as int), b);
  }

  /** A line of round 1 does what operation i is to do. */
  lemma FTurn(i: nat, a: bv32, b: bv32, c: bv32, d: bv32, x: seq<bv32>, k: nat, s: bv32, t: bv32)
    requires |x| == 16 && 0 <= i < 16 && k == Index(i) && s as int == Shift(i) && t == T(i)
    ensures Set(F(b, c, d), a, b, x[k], s, t) == Turn(i, a, b, c, d, x)
  {
    hide Set, Line, Index, Shift, T, F;
    SetIsLine(F(b, c, d), a, b, x[k], s, t);
  }

  /** A line of round 2 does what operation i is to do. */
  lemma GTurn(i: nat, a: bv32, b: bv32, c: bv32, d: bv32, x: seq<bv32>, k: nat, s: bv32, t: bv32)
    requires |x| == 16 && 16 <= i < 32 && k == Index(i) && s as int == Shift(i) && t == T(i)
    ensures Set(G(b, c, d), a, b, x[k], s, t) == Turn(i, a, b, c, d, x)
  {
    hide Set, Line, Index, Shift, T, G;
    SetIsLine(G(b, c, d), a, b, x[k], s, t);
  }

  /** A line of round 3 does what operation i is to do. */
  lemma HTurn(i: nat, a: bv32, b: bv32, c: bv32, d: bv32, x: seq<bv32>, k: nat, s: bv32, t: bv32)
    requires |x| == 16 && 32 <= i < 48 && k == Index(i) && s as int == Shift(i) && t == T(i)
    ensures Set(H(b, c, d), a, b, x[k], s, t) == Turn(i, a, b, c, d, x)
  {
    hide Set, Line, Index, Shift, T, H;
    SetIsLine(H(b, c, d), a, b, x[k], s, t);
  }

  /** A line of round 4 does what operation i is to do. */
  lemma ITurn(i: nat, a: bv32, b: bv32, c: bv32, d: bv32, x: seq<bv32>, k: nat, s: bv32, t: bv32)
    requires |x| == 16 && 48 <= i < 64 && k == Index(i) && s as int == Shift(i) && t == T(i)
    ensures Set(I(b, c, d), a, b, x[k], s, t) == Turn(i, a, b, c, d, x)
  {
    hide Set, Line, Index, Shift, T, I;
    SetIsLine(I(b, c, d), a, b, x[k], s, t);
  }

  /** Round 1. */
  method Round1(ghost st: State, X: seq<bv32>, a0: bv32, b0: bv32, c0: bv32, d0: bv32) returns (a: bv32, b: bv32, c: bv32, d: bv32)
    requires |X| == 16 && Steps(st, X, 0) == State(a0, b0, c0, d0)
    ensures Steps(st, X, 16) == State(a, b, c, d)
  {
    hide Set, Turn, Steps, F, G, H, I;
    a, b, c, d := a0, b0, c0, d0;
    ghost var p := State(a, b, c, d);
    FTurn(0, a, b, c, d, X, 0, 7, MASK ^ 0x28955b87);
    a := Set(F(b, c, d), a, b, X[0], 7, MASK ^ 0x28955b87);
    FTurn(1, d, a, b, c, X, 1, 12, MASK ^ 0x173848a9);
    d := Set(F(a, b, c), d, a, X[1], 12, MASK ^ 0x173848a9);
    FTurn(2, c, d, a, b, X, 2, 17, 0x242070db);
    c := Set(F(d, a, b), c, d, X[2], 17, 0x242070db);
    FTurn(3, b, c, d, a, X, 3, 22, MASK ^ 0x3e423111);
    b := Set(F(c, d, a), b, c, X[3], 22, MASK ^ 0x3e423111);
    FourSteps(st, X, 0, p, a, b, c, d);
    p := State(a, b, c, d);
    FTurn(4, a, b, c, d, X, 4, 7, MASK ^ 0x0a83f050);
    a := Set(F(b, c, d), a, b, X[4], 7, MASK ^ 0x0a83f050);
    FTurn(5, d, a, b, c, X, 5, 12, 0x4787c62a);
    d := Set(F(a, b, c), d, a, X[5], 12, 0x4787c62a);
    FTurn(6, c, d, a, b, X, 6, 17, MASK ^ 0x57cfb9ec);
    c := Set(F(d, a, b), c, d, X[6], 17, MASK ^ 0x57cfb9ec);
    FTurn(7, b, c, d, a, X, 7, 22, MASK ^ 0x02b96afe);
    b := Set(F(c, d, a), b, c, X[7], 22, MASK ^ 0x02b96afe);
    FourSteps(st, X, 4, p, a, b, c, d);
    p := State(a, b, c, d);
    FTurn(8, a, b, c, d, X, 8, 7, 0x698098d8);
    a := Set(F(b, c, d), a, b, X[8], 7, 0x698098d8);
    FTurn(9, d, a, b, c, X, 9, 12, MASK ^ 0x74bb0850);
    d := Set(F(a, b, c), d, a, X[9], 12, MASK ^ 0x74bb0850);
    FTurn(10, c, d, a, b, X, 10, 17, MASK ^ 0x0000a44e);
    c := Set(F(d, a, b), c, d, X[10], 17, MASK ^ 0x0000a44e);
    FTurn(11, b, c, d, a, X, 11, 22, MASK ^ 0x76a32841);
    b := Set(F(c, d, a), b, c, X[11], 22, MASK ^ 0x76a32841);
    FourSteps(st, X, 8, p, a, b, c, d);
    p := State(a, b, c, d);
    FTurn(12, a, b, c, d, X, 12, 7, 0x6b901122);
    a := Set(F(b, c, d), a, b, X[12], 7, 0x6b901122);
    FTurn(13, d, a, b, c, X, 13, 12, MASK ^ 0x02678e6c);
    d := Set(F(a, b, c), d, a, X[13], 12, MASK ^ 0x02678e6c);
    FTurn(14, c, d, a, b, X, 14, 17, MASK ^ 0x5986bc71);
    c := Set(F(d, a, b), c, d, X[14], 17, MASK ^ 0x5986bc71);
    FTurn(15, b, c, d, a, X, 15, 22, 0x49b40821);
    b := Set(F(c, d, a), b, c, X[15], 22, 0x49b40821);
    FourSteps(st, X, 12, p, a, b, c, d);
  }

  /** Round 2. */
  method Round2(ghost st: State, X: seq<bv32>, a0: bv32, b0: bv32, c0: bv32, d0: bv32) returns (a: bv32, b: bv32, c: bv32, d: bv32)
    requires |X| == 16 && Steps(st, X, 16) == State(a0, b0, c0, d0)
    ensures Steps(st, X, 32) == State(a, b, c, d)
  {
    hide Set, Turn, Steps, F, G, H, I;
    a, b, c, d := a0, b0, c0, d0;
    ghost var p := State(a, b, c, d);
    GTurn(16, a, b, c, d, X, 1, 5, MASK ^ 0x09e1da9d);
    a := Set(G(b, c, d), a, b, X[1], 5, MASK ^ 0x09e1da9d);
    GTurn(17, d, a, b, c, X, 6, 9, MASK ^ 0x3fbf4cbf);
    d := Set(G(a, b, c), d, a, X[6], 9, MASK ^ 0x3fbf4cbf);
    GTurn(18, c, d, a, b, X, 11, 14, 0x265e5a51);
    c := Set(G(d, a, b), c, d, X[11], 14, 0x265e5a51);
    GTurn(19, b, c, d, a, X, 0, 20, MASK ^ 0x16493855);
    b := Set(G(c, d, a), b, c, X[0], 20, MASK ^ 0x16493855);
    FourSteps(st, X, 16, p, a, b, c, d);
    p := State(a, b, c, d);
    GTurn(20, a, b, c, d, X, 5, 5, MASK ^ 0x29d0efa2);
    a := Set(G(b, c, d), a, b, X[5], 5, MASK ^ 0x29d0efa2);
    GTurn(21, d, a, b, c, X, 10, 9, 0x02441453);
    d := Set(G(a, b, c), d, a, X[10], 9, 0x02441453);
    GTurn(22, c, d, a, b, X, 15, 14, MASK ^ 0x275e197e);
    c := Set(G(d, a, b), c, d, X[15], 14, MASK ^ 0x275e197e);
    GTurn(23, b, c, d, a, X, 4, 20, MASK ^ 0x182c0437);
    b := Set(G(c, d, a), b, c, X[4], 20, MASK ^ 0x182c0437);
    FourSteps(st, X, 20, p, a, b, c, d);
    p := State(a, b, c, d);
    GTurn(24, a, b, c, d, X, 9, 5, 0x21e1cde6);
    a := Set(G(b, c, d), a, b, X[9], 5, 0x21e1cde6);
    GTurn(25, d, a, b, c, X, 14, 9, MASK ^ 0x3cc8f829);
    d := Set(G(a, b, c), d, a, X[14], 9, MASK ^ 0x3cc8f829);
    GTurn(26, c, d, a, b, X, 3, 14, MASK ^ 0x0b2af278);
    c := Set(G(d, a, b), c, d, X[3], 14, MASK ^ 0x0b2af278);
    GTurn(27, b, c, d, a, X, 8, 20, 0x455a14ed);
    b := Set(G(c, d, a), b, c, X[8], 20, 0x455a14ed);
    FourSteps(st, X, 24, p, a, b, c, d);
    p := State(a, b, c, d);
    GTurn(28, a, b, c, d, X, 13, 5, MASK ^ 0x561c16fa);
    a := Set(G(b, c, d), a, b, X[13], 5, MASK ^ 0x561c16fa);
    GTurn(29, d, a, b, c, X, 2, 9, MASK ^ 0x03105c07);
    d := Set(G(a, b, c), d, a, X[2], 9, MASK ^ 0x03105c07);
    GTurn(30, c, d, a, b, X, 7, 14, 0x676f02d9);
    c := Set(G(d, a, b), c, d, X[7], 14, 0x676f02d9);
    GTurn(31, b, c, d, a, X, 12, 20, MASK ^ 0x72d5b375);
    b := Set(G(c, d, a), b, c, X[12], 20, MASK ^ 0x72d5b375);
    FourSteps(st, X, 28, p, a, b, c, d);
  }

  /** Round 3. */
  method Round3(ghost st: State, X: seq<bv32>, a0: bv32, b0: bv32, c0: bv32, d0: bv32) returns (a: bv32, b: bv32, c: bv32, d: bv32)
    requires |X| == 16 && Steps(st, X, 32) == State(a0, b0, c0, d0)
    ensures Steps(st, X, 48) == State(a, b, c, d)
  {
    hide Set, Turn, Steps, F, G, H, I;
    a, b, c, d := a0, b0, c0, d0;
    ghost var p := State(a, b, c, d);
    HTurn(32, a, b, c, d, X, 5, 4, MASK ^ 0x0005c6bd);
    a := Set(H(b, c, d), a, b, X[5], 4, MASK ^ 0x0005c6bd);
    HTurn(33, d, a, b, c, X, 8, 11, MASK ^ 0x788e097e);
    d := Set(H(a, b, c), d, a, X[8], 11, MASK ^ 0x788e097e);
    HTurn(34, c, d, a, b, X, 11, 16, 0x6d9d6122);
    c := Set(H(d, a, b), c, d, X[11], 16, 0x6d9d6122);
    HTurn(35, b, c, d, a, X, 14, 23, MASK ^ 0x021ac7f3);
    b := Set(H(c, d, a), b, c, X[14], 23, MASK ^ 0x021ac7f3);
    FourSteps(st, X, 32, p, a, b, c, d);
    p := State(a, b, c, d);
    HTurn(36, a, b, c, d, X, 1, 4, MASK ^ 0x5b4115bb);
    a := Set(H(b, c, d), a, b, X[1], 4, MASK ^ 0x5b4115bb);
    HTurn(37, d, a, b, c, X, 4, 11, 0x4bdecfa9);
    d := Set(H(a, b, c), d, a, X[4], 11, 0x4bdecfa9);
    HTurn(38, c, d, a, b, X, 7, 16, MASK ^ 0x0944b49f);
    c := Set(H(d, a, b), c, d, X[7], 16, MASK ^ 0x0944b49f);
    HTurn(39, b, c, d, a, X, 10, 23, MASK ^ 0x4140438f);
    b := Set(H(c, d, a), b, c, X[10], 23, MASK ^ 0x4140438f);
    FourSteps(st, X, 36, p, a, b, c, d);
    p := State(a, b, c, d);
    HTurn(40, a, b, c, d, X, 13, 4, 0x289b7ec6);
    a := Set(H(b, c, d), a, b, X[13], 4, 0x289b7ec6);
    HTurn(41, d, a, b, c, X, 0, 11, MASK ^ 0x155ed805);
    d := Set(H(a, b, c), d, a, X[0], 11, MASK ^ 0x155ed805);
    HTurn(42, c, d, a, b, X, 3, 16, MASK ^ 0x2b10cf7a);
    c := Set(H(d, a, b), c, d, X[3], 16, MASK ^ 0x2b10cf7a);
    HTurn(43, b, c, d, a, X, 6, 23, 0x04881d05);
    b := Set(H(c, d, a), b, c, X[6], 23, 0x04881d05);
    FourSteps(st, X, 40, p, a, b, c, d);
    p := State(a, b, c, d);
    HTurn(44, a, b, c, d, X, 9, 4, MASK ^ 0x262b2fc6);
    a := Set(H(b, c, d), a, b, X[9], 4, MASK ^ 0x262b2fc6);
    HTurn(45, d, a, b, c, X, 12, 11, MASK ^ 0x1924661a);
    d := Set(H(a, b, c), d, a, X[12], 11, MASK ^ 0x1924661a);
    HTurn(46, c, d, a, b, X, 15, 16, 0x1fa27cf8);
    c := Set(H(d, a, b), c, d, X[15], 16, 0x1fa27cf8);
    HTurn(47, b, c, d, a, X, 2, 23, MASK ^ 0x3b53a99a);
    b := Set(H(c, d, a), b, c, X[2], 23, MASK ^ 0x3b53a99a);
    FourSteps(st, X, 44, p, a, b, c, d);
  }

  /** Round 4. */
  method Round4(ghost st: State, X: seq<bv32>, a0: bv32, b0: bv32, c0: bv32, d0: bv32) returns (a: bv32, b: bv32, c: bv32, d: bv32)
    requires |X| == 16 && Steps(st, X, 48) == State(a0, b0, c0, d0)
    ensures Steps(st, X, 64) == State(a, b, c, d)
  {
    hide Set, Turn, Steps, F, G, H, I;
    a, b, c, d := a0, b0, c0, d0;
    ghost var p := State(a, b, c, d);
    ITurn(48, a, b, c, d, X, 0, 6, MASK ^ 0x0bd6ddbb);
    a := Set(I(b, c, d), a, b, X[0], 6, MASK ^ 0x0bd6ddbb);
    ITurn(49, d, a, b, c, X, 7, 10, 0x432aff97);
    d := Set(I(a, b, c), d, a, X[7], 10, 0x432aff97);
    ITurn(50, c, d, a, b, X, 14, 15, MASK ^ 0x546bdc58);
    c := Set(I(d, a, b), c, d, X[14], 15, MASK ^ 0x546bdc58);
    ITurn(51, b, c, d, a, X, 5, 21, MASK ^ 0x036c5fc6);
    b := Set(I(c, d, a), b, c, X[5], 21, MASK ^ 0x036c5fc6);
    FourSteps(st, X, 48, p, a, b, c, d);
    p := State(a, b, c, d);
    ITurn(52, a, b, c, d, X, 12, 6, 0x655b59c3);
    a := Set(I(b, c, d), a, b, X[12], 6, 0x655b59c3);
    ITurn(53, d, a, b, c, X, 3, 10, MASK ^ 0x70f3336d);
    d := Set(I(a, b, c), d, a, X[3], 10, MASK ^ 0x70f3336d);
    ITurn(54, c, d, a, b, X, 10, 15, MASK ^ 0x00100b82);
    c := Set(I(d, a, b), c, d, X[10], 15, MASK ^ 0x00100b82);
    ITurn(55, b, c, d, a, X, 1, 21, MASK ^ 0x7a7ba22e);
    b := Set(I(c, d, a), b, c, X[1], 21, MASK ^ 0x7a7ba22e);
    FourSteps(st, X, 52, p, a, b, c, d);
    p := State(a, b, c, d);
    ITurn(56, a, b, c, d, X, 8, 6, 0x6fa87e4f);
    a := Set(I(b, c, d), a, b, X[8], 6, 0x6fa87e4f);
    ITurn(57, d, a, b, c, X, 15, 10, MASK ^ 0x01d3191f);
    d := Set(I(a, b, c), d, a, X[15], 10, MASK ^ 0x01d3191f);
    ITurn(58, c, d, a, b, X, 6, 15, MASK ^ 0x5cfebceb);
    c := Set(I(d, a, b), c, d, X[6], 15, MASK ^ 0x5cfebceb);
    ITurn(59, b, c, d, a, X, 13, 21, 0x4e0811a1);
    b := Set(I(c, d, a), b, c, X[13], 21, 0x4e0811a1);
    FourSteps(st, X, 56, p, a, b, c, d);
    p := State(a, b, c, d);
    ITurn(60, a, b, c, d, X, 4, 6, MASK ^ 0x08ac817d);
    a := Set(I(b, c, d), a, b, X[4], 6, MASK ^ 0x08ac817d);
    ITurn(61, d, a, b, c, X, 11, 10, MASK ^ 0x42c50dca);
    d := Set(I(a, b, c), d, a, X[11], 10, MASK ^ 0x42c50dca);
    ITurn(62, c, d, a, b, X, 2, 15, 0x2ad7d2bb);
    c := Set(I(d, a, b), c, d, X[2], 15, 0x2ad7d2bb);
    ITurn(63, b, c, d, a, X, 9, 21, MASK ^ 0x14792c6e);
    b := Set(I(c, d, a), b, c, X[9], 21, MASK ^ 0x14792c6e);
    FourSteps(st, X, 60, p, a, b, c, d);
  }

  /** md5_process: one block of 64 octets goes into the registers. */
  method Process(st: State, data: seq<octet>) returns (r: State)
    requires |data| == 64
    ensures r == Compress(st, data)
  {
    hide Steps, WordsOf, Turn, Sum;
    var X := WordsOf(data);
    NoSteps(st, X);
    var a, b, c, d := Round1(st, X, st.a, st.b, st.c, st.d);
    a, b, c, d := Round2(st, X, a, b, c, d);
    a, b, c, d := Round3(st, X, a, b, c, d);
    a, b, c, d := Round4(st, X, a, b, c, d);
    r := Sum(st, State(a, b, c, d));
  }

  lemma NoSteps(st: State, x: seq<bv32>)
    requires |x| == 16
    ensures Steps(st, x, 0) == State(st.a, st.b, st.c, st.d)
  {
  }

  // ---------------------------------------------------------------- the bit count

  const MOD32 := 0x1_0000_0000
  const MOD64 := 0x1_0000_0000_0000_0000

  /** The two words of the count after nbytes more octets, with the carry by comparison. */
  function Counted(count0: nat, count1: nat, nbytes: nat): (nat, nat) {
    var nbits := 8 * nbytes % MOD32;
    var c0 := (count0 + nbits) % MOD32;
    var c1 := (count1 + nbytes / 0x2000_0000) % MOD32;
    (c0, if c0 < nbits then (c1 + 1) % MOD32 else c1)
  }

  ghost predicate CountIs(count0: nat, count1: nat, n: nat) {
    count0 < MOD32 && count1 < MOD32 && count1 * MOD32 + count0 == 8 * n % MOD64
  }

  /** The count is that of all octets, at every length. */
  lemma CountedExact(count0: nat, count1: nat, n: nat, nbytes: nat)
    requires CountIs(count0, count1, n) && nbytes < 0x8000_0000
    ensures CountIs(Counted(count0, count1, nbytes).0, Counted(count0, count1, nbytes).1, n + nbytes)
  {
    hide CountIs, Counted;
    assert count0 < MOD32 && count1 * MOD32 + count0 == 8 * n % MOD64 by { CountParts(count0, count1, n); }
    var nbits := 8 * nbytes % MOD32;
    var carry := if count0 + nbits >= MOD32 then 1 else 0;
    var high := count1 + nbytes / 0x2000_0000 + carry;
    Eightfold(nbytes);
    var c := Counted(count0, count1, nbytes);
    CountedParts(count0, count1, nbytes, carry);
    WrapAround(high, c.0, 8 * n % MOD64 + 8 * nbytes);
    SumWraps(8 * n, 8 * nbytes);
    CountFrom(c.0, c.1, n + nbytes);
  }

  lemma CountParts(count0: nat, count1: nat, n: nat)
    requires CountIs(count0, count1, n)
    ensures count0 < MOD32 && count1 * MOD32 + count0 == 8 * n % MOD64
  {
  }

  lemma CountFrom(count0: nat, count1: nat, n: nat)
    requires count0 < MOD32 && count1 < MOD32 && count1 * MOD32 + count0 == 8 * n % MOD64
    ensures CountIs(count0, count1, n)
  {
  }

  lemma Eightfold(nbytes: nat)
    ensures 8 * nbytes == nbytes / 0x2000_0000 * MOD32 + 8 * nbytes % MOD32
  {
    assert 8 * nbytes / MOD32 == nbytes / 0x2000_0000;
  }

  lemma CountedParts(count0: nat, count1: nat, nbytes: nat, carry: nat)
    requires count0 < MOD32 && carry == if count0 + 8 * nbytes % MOD32 >= MOD32 then 1 else 0
    ensures Counted(count0, count1, nbytes).0 == count0 + 8 * nbytes % MOD32 - carry * MOD32 < MOD32
    ensures Counted(count0, count1, nbytes).1 == (count1 + nbytes / 0x2000_0000 + carry) % MOD32
  {
    HighWord(count1 + nbytes / 0x2000_0000, carry);
  }

  lemma HighWord(x: nat, carry: nat)
    requires carry <= 1
    ensures (x % MOD32 + carry) % MOD32 == (x + carry) % MOD32
  {
  }

  lemma WrapAround(high: nat, low: nat, total: nat)
    requires low < MOD32 && high * MOD32 + low == total
    ensures high % MOD32 * MOD32 + low == total % MOD64
  {
    var q := high / MOD32;
    assert total == q * MOD64 + (high % MOD32 * MOD32 + low);
  }

  lemma SumWraps(x: nat, y: nat)
    ensures (x % MOD64 + y) % MOD64 == (x + y) % MOD64
  {
  }

  lemma Eighths(n: nat, q: nat, c1: nat, c0: nat)
    requires 8 * n == q * MOD64 + c1 * MOD32 + c0
    ensures n == 64 * (q * (MOD64 / 512) + c1 * (MOD32 / 512)) + c0 / 8
  {
    var k := n - q * (MOD64 / 8) - c1 * (MOD32 / 8);
    assert c0 == 8 * k;
  }

  lemma Sixtyfourths(k: nat, r: nat)
    ensures (64 * k + r) % 64 == r % 64
  {
  }

  /** The octet within the block at which the message goes on. */
  lemma OffsetExact(count0: nat, count1: nat, n: nat)
    requires CountIs(count0, count1, n)
    ensures count0 / 8 % 64 == n % 64
  {
    var q := 8 * n / MOD64;
    assert 8 * n == q * MOD64 + count1 * MOD32 + count0;
    hide CountIs;
    Eighths(n, q, count1, count0);
    Sixtyfourths(q * (MOD64 / 512) + count1 * (MOD32 / 512), count0 / 8);
  }

  /** The octets of the count, as md5_finish saves them. */
  function CountOctets(count0: nat, count1: nat): (s: seq<octet>)
    ensures |s| == 8
  {
    [Octet(count0), Octet(count0 / 0x100), Octet(count0 / 0x1_0000), Octet(count0 / 0x100_0000),
     Octet(count1), Octet(count1 / 0x100), Octet(count1 / 0x1_0000), Octet(count1 / 0x100_0000)]
  }

  lemma CountOctetsExact(count0: nat, count1: nat, n: nat)
    requires CountIs(count0, count1, n)
    ensures CountOctets(count0, count1) == LengthField(n)
  {
    var bits := 8 * n % MOD64;
    assert bits == count1 * MOD32 + count0;
    assert bits / 0x100 == 256 * (count1 * 0x1_0000) + count0 / 0x100;
    assert bits / 0x1_0000 == 256 * (count1 * 0x100) + count0 / 0x1_0000;
    assert bits / 0x100_0000 == 256 * count1 + count0 / 0x100_0000;
    SameOctet(count1 * 0x100_0000, count0);
    SameOctet(count1 * 0x1_0000, count0 / 0x100);
    SameOctet(count1 * 0x100, count0 / 0x1_0000);
    SameOctet(count1, count0 / 0x100_0000);
    HighOctets(count1, count0);
    hide Octet;
  }

  lemma SameOctet(k: nat, n: nat)
    ensures Octet(256 * k + n) == Octet(n)
  {
  }

  lemma HighOctets(msb: nat, lsb: nat)
    requires lsb < MOD32
    ensures (msb * MOD32 + lsb) / 0x1_0000_0000 == msb && (msb * MOD32 + lsb) / 0x100_0000_0000 == msb / 0x100
    ensures (msb * MOD32 + lsb) / 0x1_0000_0000_0000 == msb / 0x1_0000 && (msb * MOD32 + lsb) / 0x100_0000_0000_0000 == msb / 0x100_0000
  {
  }

  // ---------------------------------------------------------------- md5_append, md5_finish

  class Stream {
    var count0: nat
    var count1: nat
    var abcd: State
    var buf: array<octet>
    ghost var msg: seq<octet>

    ghost predicate Valid()
      reads this, buf
    {
      buf.Length == 64 && CountIs(count0, count1, |msg|) && Absorbed(abcd, buf[..|msg| % 64], msg)
    }

    /** md5_init, with two of the constants written by their complements. */
    constructor ()
      ensures Valid() && msg == [] && fresh(buf)
    {
      hide Absorbed, Start;
      count0, count1, msg := 0, 0, [];
      abcd := State(0x67452301, MASK ^ 0x10325476, MASK ^ 0x67452301, 0x10325476);
      buf := new octet[64];
      new;
      SameStart();
      AbsorbedNothing();
      assert buf[..0] == [];
    }

    /** memcpy into the buffer. */
    method CopyIn(at: nat, bytes: seq<octet>)
      requires buf.Length == 64 && at + |bytes| <= 64
      modifies buf
      ensures buf[..at + |bytes|] == old(buf[..at]) + bytes
    {
      var i := 0;
      while i < |bytes|
        invariant i <= |bytes| && buf[..at + i] == old(buf[..at]) + bytes[..i]
      {
        buf[at + i] := bytes[i];
        i := i + 1;
        assert bytes[..i] == bytes[..i - 1] + [bytes[i - 1]];
      }
      assert bytes[..i] == bytes;
    }

    /** The loop of md5_append over whole blocks. */
    method AppendBlocks(data: seq<octet>, from: nat, ghost start: seq<octet>) returns (p: nat)
      requires from <= |data| && Absorbed(abcd, [], start + data[..from])
      modifies this`abcd
      ensures p <= |data| < p + 64 && Absorbed(abcd, [], start + data[..p])
    {
      hide Compress, Absorbed;
      p := from;
      while |data| - p >= 64
        invariant p <= |data| && Absorbed(abcd, [], start + data[..p])
      {
        AbsorbedBlock(abcd, start + data[..p], data[p..p + 64]);
        NextBlock(start, data, p);
        abcd := Process(abcd, data[p..p + 64]);
        p := p + 64;
      }
    }

    /** The copy of what is left after that. */
    method AppendRest(data: seq<octet>, p: nat, ghost start: seq<octet>)
      requires buf.Length == 64 && p <= |data| < p + 64 && Absorbed(abcd, [], start + data[..p])
      modifies buf
      ensures Absorbed(abcd, buf[..|start + data| % 64], start + data)
    {
      hide Absorbed;
      assert buf[..0] == [];
      CopyIn(0, data[p..]);
      WholeBlocks(abcd, start + data[..p]);
      AbsorbedMore(abcd, [], start + data[..p], data[p..]);
      Rejoined(start, data, p);
      SmallRest(|start + data[..p]|, |data[p..]|);
    }

    /** md5_append: the octets are appended to the message, at any total length. */
    method Append(data: seq<octet>)
      requires Valid() && |data| < 0x8000_0000
      modifies this, buf
      ensures Valid() && buf == old(buf) && msg == old(msg) + data
    {
      hide Compress, Absorbed, CountIs, Counted;
      if data == [] {
        assert msg + data == msg;
        return;
      }
      OffsetExact(count0, count1, |msg|);
      CountedExact(count0, count1, |msg|, |data|);
      var offset := count0 / 8 % 64;
      var c := Counted(count0, count1, |data|);
      count0, count1 := c.0, c.1;
      ghost var start := msg;
      msg := msg + data;
      var copy := 0;
      if offset != 0 {
        copy := if offset + |data| > 64 then 64 - offset else |data|;
        ghost var rest := buf[..offset];
        CopyIn(offset, data[..copy]);
        AbsorbedMore(abcd, rest, start, data[..copy]);
        if offset + copy < 64 {
          assert data[..copy] == data;
          SmallRest2(|start|, offset, |data|);
          return;
        }
        assert buf[..64] == buf[..];
        AbsorbedFlush(abcd, buf[..], start + data[..copy]);
        abcd := Process(abcd, buf[..]);
      } else {
        assert buf[..0] == [] && start + data[..0] == start;
      }
      var p := AppendBlocks(data, copy, start);
      AppendRest(data, p, start);
    }

    /** md5_finish: the digest of the whole message, at every length. */
    method Finish() returns (digest: seq<octet>)
      requires Valid()
      modifies this, buf
      ensures digest == Md5(old(msg))
    {
      hide Compress, Absorbed, CountIs, Counted, CountOctets, Octet, Output, Blocks, Start, LengthField;
      ghost var m := msg;
      var data := CountOctets(count0, count1);
      CountOctetsExact(count0, count1, |m|);
      OffsetExact(count0, count1, |m|);
      var padding := (55 - count0 / 8 % 64) % 64 + 1;
      Append([0x80] + Zeros(padding - 1));
      Append(data);
      FinishPads(m, padding, data);
      AllAbsorbed(abcd, buf[..|msg| % 64], msg);
      digest := Output(abcd);
    }
  }

  lemma SameStart()
    ensures State(0x67452301, MASK ^ 0x10325476, MASK ^ 0x67452301, 0x10325476) == Start()
  {
  }

  lemma NextBlock(start: seq<octet>, data: seq<octet>, p: nat)
    requires p + 64 <= |data|
    ensures start + data[..p] + data[p..p + 64] == start + data[..p + 64]
  {
  }

  lemma Rejoined(start: seq<octet>, data: seq<octet>, p: nat)
    requires p <= |data|
    ensures start + data[..p] + data[p..] == start + data && [] + data[p..] == data[p..]
    ensures |start + data| == |start + data[..p]| + |data[p..]|
  {
  }

  lemma WholeBlocks(st: State, msg: seq<octet>)
    requires Absorbed(st, [], msg)
    ensures |msg| % 64 == 0
  {
    hide Blocks, Start;
  }

  lemma SmallRest(n: nat, k: nat)
    requires n % 64 == 0 && k < 64
    ensures (n + k) % 64 == k
  {
  }

  lemma SmallRest2(n: nat, offset: nat, k: nat)
    requires n % 64 == offset && offset + k < 64
    ensures (n + k) % 64 == offset + k
  {
  }

  lemma AllAbsorbed(st: State, rest: seq<octet>, msg: seq<octet>)
    requires Absorbed(st, rest, msg) && rest == []
    ensures |msg| % 64 == 0 && st == Blocks(Start(), msg)
  {
    hide Blocks, Start;
    assert msg[..|msg|] == msg;
  }

  lemma FinishPads(m: seq<octet>, padding: nat, data: seq<octet>)
    requires padding == (55 - |m| % 64) % 64 + 1 && data == LengthField(|m|)
    ensures m + ([0x80] + Zeros(padding - 1)) + data == Padded(m) && |Padded(m)| % 64 == 0
  {
    hide LengthField;
    assert padding - 1 == ZeroCount(|m|);
  }

  /** The digest of a message that comes in pieces. */
  method DigestOf(chunks: seq<seq<octet>>) returns (digest: seq<octet>)
    requires forall k :: 0 <= k < |chunks| ==> |chunks[k]| < 0x8000_0000
    ensures digest == Md5(Concat(chunks))
  {
    hide Md5, Absorbed, CountIs;
    var s := new Stream();
    var i := 0;
    assert chunks[..0] == [];
    while i < |chunks|
      invariant i <= |chunks| && s.Valid() && fresh(s) && fresh(s.buf) && s.msg == Concat(chunks[..i])
    {
      assert chunks[..i + 1][..i] == chunks[..i];
      s.Append(chunks[i]);
      i := i + 1;
    }
    assert chunks[..i] == chunks;
    digest := s.Finish();
  }
}
