/** transform and the streaming interface of lab3/md5.c. */
module Md5Context {
  import opened Md5Spec

  // ---------------------------------------------------------------- transform

  function FF(b: bv32, c: bv32, d: bv32): bv32 {
    d ^ (b & (c ^ d))
  }

  function FG(b: bv32, c: bv32, d: bv32): bv32 {
    FF(d, b, c)
  }

  function FH(b: bv32, c: bv32, d: bv32): bv32 {
    b ^ c ^ d
  }

  function FI(b: bv32, c: bv32, d: bv32): bv32 {
    c ^ (b | !d)
  }

  /** The optimised forms of the first two functions compute the same as those of the standard. */
  lemma SameF(b: bv32, c: bv32, d: bv32)
    ensures FF(b, c, d) == F(b, c, d)
  {
    SwapF(b, c, d);
  }

  lemma SwapF(b: bv32, c: bv32, d: bv32)
    ensures d ^ (b & (c ^ d)) == (b & c) | (!b & d)
  {
  }

  lemma SameG(b: bv32, c: bv32, d: bv32)
    ensures FG(b, c, d) == G(b, c, d)
  {
    SwapG(b, c, d);
  }

  lemma SwapG(b: bv32, c: bv32, d: bv32)
    ensures c ^ (d & (b ^ c)) == (b & d) | (c & !d)
  {
  }

  /** The macro rol. */
  function Rol(x: bv32, n: bv32): bv32
    requires 0 < n < 32
  {
    (x << n) | (x >> (32 - n))
  }

  lemma RolRotates(x: bv32, n: bv32)
    requires 0 < n < 32
    ensures Rol(x, n) == Rotated(x, n as int)
  {
    RotatedShifts(x, n, n as int);
    hide Rotated;
  }

  /** The macro OP, whose first statement adds to a. */
  function Op(f: bv32, a: bv32, b: bv32, x: bv32, s: bv32, t: bv32): bv32
    requires 0 < s < 32
  {
    Plus(Rol(a + (f + x + t), s), b)
  }

  lemma SameLine(f: bv32, a: bv32, b: bv32, x: bv32, s: bv32, t: bv32)
    requires 0 < s < 32
    ensures Op(f, a, b, x, s, t) == Line(f, a, b, x, s as int, t)
  {
    hide Rotated, Rol, Plus;
    SameSum(a, f, x, t);
    RolRotates(a + f + x + t, s);
    PlusCommutes(Rotated(a + f + x + t, s as int), b);
  }

  lemma SameSum(a: bv32, f: bv32, x: bv32, t: bv32)
    ensures a + (f + x + t) == a + f + x + t
  {
  }

  /** A line of round 1 does what operation i is to do. */
  lemma FFTurn(i: nat, a: bv32, b: bv32, c: bv32, d: bv32, x: seq<bv32>, k: nat, s: bv32, t: bv32)
    requires |x| == 16 && 0 <= i < 16 && k == Index(i) && s as int == Shift(i) && t == T(i)
    ensures Op(FF(b, c, d), a, b, x[k], s, t) == Turn(i, a, b, c, d, x)
  {
    hide Op, Line, Index, Shift, T;
    SameF(b, c, d);
    SameLine(F(b, c, d), a, b, x[k], s, t);
  }

  /** A line of round 2 does what operation i is to do. */
  lemma FGTurn(i: nat, a: bv32, b: bv32, c: bv32, d: bv32, x: seq<bv32>, k: nat, s: bv32, t: bv32)
    requires |x| == 16 && 16 <= i < 32 && k == Index(i) && s as int == Shift(i) && t == T(i)
    ensures Op(FG(b, c, d), a, b, x[k], s, t) == Turn(i, a, b, c, d, x)
  {
    hide Op, Line, Index, Shift, T;
    SameG(b, c, d);
    SameLine(G(b, c, d), a, b, x[k], s, t);
  }

  /** A line of round 3 does what operation i is to do. */
  lemma FHTurn(i: nat, a: bv32, b: bv32, c: bv32, d: bv32, x: seq<bv32>, k: nat, s: bv32, t: bv32)
    requires |x| == 16 && 32 <= i < 48 && k == Index(i) && s as int == Shift(i) && t == T(i)
    ensures Op(FH(b, c, d), a, b, x[k], s, t) == Turn(i, a, b, c, d, x)
  {
    hide Op, Line, Index, Shift, T;
    SameLine(H(b, c, d), a, b, x[k], s, t);
  }

  /** A line of round 4 does what operation i is to do. */
  lemma FITurn(i: nat, a: bv32, b: bv32, c: bv32, d: bv32, x: seq<bv32>, k: nat, s: bv32, t: bv32)
    requires |x| == 16 && 48 <= i < 64 && k == Index(i) && s as int == Shift(i) && t == T(i)
    ensures Op(FI(b, c, d), a, b, x[k], s, t) == Turn(i, a, b, c, d, x)
  {
    hide Op, Line, Index, Shift, T;
    SameLine(I(b, c, d), a, b, x[k], s, t);
  }

  /** Round 1. */
  method Round1(ghost st: State, w: seq<bv32>, a: bv32, b: bv32, c: bv32, d: bv32) returns (A: bv32, B: bv32, C: bv32, D: bv32)
    requires |w| == 16 && Steps(st, w, 0) == State(a, b, c, d)
    ensures Steps(st, w, 16) == State(A, B, C, D)
  {
    hide Op, Turn, Steps, FF, FG, FH, FI;
    A, B, C, D := a, b, c, d;
    ghost var p := State(A, B, C, D);
    FFTurn(0, A, B, C, D, w, 0, 7, 0xd76aa478);
    A := Op(FF(B, C, D), A, B, w[0], 7, 0xd76aa478);
    FFTurn(1, D, A, B, C, w, 1, 12, 0xe8c7b756);
    D := Op(FF(A, B, C), D, A, w[1], 12, 0xe8c7b756);
    FFTurn(2, C, D, A, B, w, 2, 17, 0x242070db);
    C := Op(FF(D, A, B), C, D, w[2], 17, 0x242070db);
    FFTurn(3, B, C, D, A, w, 3, 22, 0xc1bdceee);
    B := Op(FF(C, D, A), B, C, w[3], 22, 0xc1bdceee);
    FourSteps(st, w, 0, p, A, B, C, D);
    p := State(A, B, C, D);
    FFTurn(4, A, B, C, D, w, 4, 7, 0xf57c0faf);
    A := Op(FF(B, C, D), A, B, w[4], 7, 0xf57c0faf);
    FFTurn(5, D, A, B, C, w, 5, 12, 0x4787c62a);
    D := Op(FF(A, B, C), D, A, w[5], 12, 0x4787c62a);
    FFTurn(6, C, D, A, B, w, 6, 17, 0xa8304613);
    C := Op(FF(D, A, B), C, D, w[6], 17, 0xa8304613);
    FFTurn(7, B, C, D, A, w, 7, 22, 0xfd469501);
    B := Op(FF(C, D, A), B, C, w[7], 22, 0xfd469501);
    FourSteps(st, w, 4, p, A, B, C, D);
    p := State(A, B, C, D);
    FFTurn(8, A, B, C, D, w, 8, 7, 0x698098d8);
    A := Op(FF(B, C, D), A, B, w[8], 7, 0x698098d8);
    FFTurn(9, D, A, B, C, w, 9, 12, 0x8b44f7af);
    D := Op(FF(A, B, C), D, A, w[9], 12, 0x8b44f7af);
    FFTurn(10, C, D, A, B, w, 10, 17, 0xffff5bb1);
    C := Op(FF(D, A, B), C, D, w[10], 17, 0xffff5bb1);
    FFTurn(11, B, C, D, A, w, 11, 22, 0x895cd7be);
    B := Op(FF(C, D, A), B, C, w[11], 22, 0x895cd7be);
    FourSteps(st, w, 8, p, A, B, C, D);
    p := State(A, B, C, D);
    FFTurn(12, A, B, C, D, w, 12, 7, 0x6b901122);
    A := Op(FF(B, C, D), A, B, w[12], 7, 0x6b901122);
    FFTurn(13, D, A, B, C, w, 13, 12, 0xfd987193);
    D := Op(FF(A, B, C), D, A, w[13], 12, 0xfd987193);
    FFTurn(14, C, D, A, B, w, 14, 17, 0xa679438e);
    C := Op(FF(D, A, B), C, D, w[14], 17, 0xa679438e);
    FFTurn(15, B, C, D, A, w, 15, 22, 0x49b40821);
    B := Op(FF(C, D, A), B, C, w[15], 22, 0x49b40821);
    FourSteps(st, w, 12, p, A, B, C, D);
  }

  /** Round 2. */
  method Round2(ghost st: State, w: seq<bv32>, a: bv32, b: bv32, c: bv32, d: bv32) returns (A: bv32, B: bv32, C: bv32, D: bv32)
    requires |w| == 16 && Steps(st, w, 16) == State(a, b, c, d)
    ensures Steps(st, w, 32) == State(A, B, C, D)
  {
    hide Op, Turn, Steps, FF, FG, FH, FI;
    A, B, C, D := a, b, c, d;
    ghost var p := State(A, B, C, D);
    FGTurn(16, A, B, C, D, w, 1, 5, 0xf61e2562);
    A := Op(FG(B, C, D), A, B, w[1], 5, 0xf61e2562);
    FGTurn(17, D, A, B, C, w, 6, 9, 0xc040b340);
    D := Op(FG(A, B, C), D, A, w[6], 9, 0xc040b340);
    FGTurn(18, C, D, A, B, w, 11, 14, 0x265e5a51);
    C := Op(FG(D, A, B), C, D, w[11], 14, 0x265e5a51);
    FGTurn(19, B, C, D, A, w, 0, 20, 0xe9b6c7aa);
    B := Op(FG(C, D, A), B, C, w[0], 20, 0xe9b6c7aa);
    FourSteps(st, w, 16, p, A, B, C, D);
    p := State(A, B, C, D);
    FGTurn(20, A, B, C, D, w, 5, 5, 0xd62f105d);
    A := Op(FG(B, C, D), A, B, w[5], 5, 0xd62f105d);
    FGTurn(21, D, A, B, C, w, 10, 9, 0x02441453);
    D := Op(FG(A, B, C), D, A, w[10], 9, 0x02441453);
    FGTurn(22, C, D, A, B, w, 15, 14, 0xd8a1e681);
    C := Op(FG(D, A, B), C, D, w[15], 14, 0xd8a1e681);
    FGTurn(23, B, C, D, A, w, 4, 20, 0xe7d3fbc8);
    B := Op(FG(C, D, A), B, C, w[4], 20, 0xe7d3fbc8);
    FourSteps(st, w, 20, p, A, B, C, D);
    p := State(A, B, C, D);
    FGTurn(24, A, B, C, D, w, 9, 5, 0x21e1cde6);
    A := Op(FG(B, C, D), A, B, w[9], 5, 0x21e1cde6);
    FGTurn(25, D, A, B, C, w, 14, 9, 0xc33707d6);
    D := Op(FG(A, B, C), D, A, w[14], 9, 0xc33707d6);
    FGTurn(26, C, D, A, B, w, 3, 14, 0xf4d50d87);
    C := Op(FG(D, A, B), C, D, w[3], 14, 0xf4d50d87);
    FGTurn(27, B, C, D, A, w, 8, 20, 0x455a14ed);
    B := Op(FG(C, D, A), B, C, w[8], 20, 0x455a14ed);
    FourSteps(st, w, 24, p, A, B, C, D);
    p := State(A, B, C, D);
    FGTurn(28, A, B, C, D, w, 13, 5, 0xa9e3e905);
    A := Op(FG(B, C, D), A, B, w[13], 5, 0xa9e3e905);
    FGTurn(29, D, A, B, C, w, 2, 9, 0xfcefa3f8);
    D := Op(FG(A, B, C), D, A, w[2], 9, 0xfcefa3f8);
    FGTurn(30, C, D, A, B, w, 7, 14, 0x676f02d9);
    C := Op(FG(D, A, B), C, D, w[7], 14, 0x676f02d9);
    FGTurn(31, B, C, D, A, w, 12, 20, 0x8d2a4c8a);
    B := Op(FG(C, D, A), B, C, w[12], 20, 0x8d2a4c8a);
    FourSteps(st, w, 28, p, A, B, C, D);
  }

  /** Round 3. */
  method Round3(ghost st: State, w: seq<bv32>, a: bv32, b: bv32, c: bv32, d: bv32) returns (A: bv32, B: bv32, C: bv32, D: bv32)
    requires |w| == 16 && Steps(st, w, 32) == State(a, b, c, d)
    ensures Steps(st, w, 48) == State(A, B, C, D)
  {
    hide Op, Turn, Steps, FF, FG, FH, FI;
    A, B, C, D := a, b, c, d;
    ghost var p := State(A, B, C, D);
    FHTurn(32, A, B, C, D, w, 5, 4, 0xfffa3942);
    A := Op(FH(B, C, D), A, B, w[5], 4, 0xfffa3942);
    FHTurn(33, D, A, B, C, w, 8, 11, 0x8771f681);
    D := Op(FH(A, B, C), D, A, w[8], 11, 0x8771f681);
    FHTurn(34, C, D, A, B, w, 11, 16, 0x6d9d6122);
    C := Op(FH(D, A, B), C, D, w[11], 16, 0x6d9d6122);
    FHTurn(35, B, C, D, A, w, 14, 23, 0xfde5380c);
    B := Op(FH(C, D, A), B, C, w[14], 23, 0xfde5380c);
    FourSteps(st, w, 32, p, A, B, C, D);
    p := State(A, B, C, D);
    FHTurn(36, A, B, C, D, w, 1, 4, 0xa4beea44);
    A := Op(FH(B, C, D), A, B, w[1], 4, 0xa4beea44);
    FHTurn(37, D, A, B, C, w, 4, 11, 0x4bdecfa9);
    D := Op(FH(A, B, C), D, A, w[4], 11, 0x4bdecfa9);
    FHTurn(38, C, D, A, B, w, 7, 16, 0xf6bb4b60);
    C := Op(FH(D, A, B), C, D, w[7], 16, 0xf6bb4b60);
    FHTurn(39, B, C, D, A, w, 10, 23, 0xbebfbc70);
    B := Op(FH(C, D, A), B, C, w[10], 23, 0xbebfbc70);
    FourSteps(st, w, 36, p, A, B, C, D);
    p := State(A, B, C, D);
    FHTurn(40, A, B, C, D, w, 13, 4, 0x289b7ec6);
    A := Op(FH(B, C, D), A, B, w[13], 4, 0x289b7ec6);
    FHTurn(41, D, A, B, C, w, 0, 11, 0xeaa127fa);
    D := Op(FH(A, B, C), D, A, w[0], 11, 0xeaa127fa);
    FHTurn(42, C, D, A, B, w, 3, 16, 0xd4ef3085);
    C := Op(FH(D, A, B), C, D, w[3], 16, 0xd4ef3085);
    FHTurn(43, B, C, D, A, w, 6, 23, 0x04881d05);
    B := Op(FH(C, D, A), B, C, w[6], 23, 0x04881d05);
    FourSteps(st, w, 40, p, A, B, C, D);
    p := State(A, B, C, D);
    FHTurn(44, A, B, C, D, w, 9, 4, 0xd9d4d039);
    A := Op(FH(B, C, D), A, B, w[9], 4, 0xd9d4d039);
    FHTurn(45, D, A, B, C, w, 12, 11, 0xe6db99e5);
    D := Op(FH(A, B, C), D, A, w[12], 11, 0xe6db99e5);
    FHTurn(46, C, D, A, B, w, 15, 16, 0x1fa27cf8);
    C := Op(FH(D, A, B), C, D, w[15], 16, 0x1fa27cf8);
    FHTurn(47, B, C, D, A, w, 2, 23, 0xc4ac5665);
    B := Op(FH(C, D, A), B, C, w[2], 23, 0xc4ac5665);
    FourSteps(st, w, 44, p, A, B, C, D);
  }

  /** Round 4. */
  method Round4(ghost st: State, w: seq<bv32>, a: bv32, b: bv32, c: bv32, d: bv32) returns (A: bv32, B: bv32, C: bv32, D: bv32)
    requires |w| == 16 && Steps(st, w, 48) == State(a, b, c, d)
    ensures Steps(st, w, 64) == State(A, B, C, D)
  {
    hide Op, Turn, Steps, FF, FG, FH, FI;
    A, B, C, D := a, b, c, d;
    ghost var p := State(A, B, C, D);
    FITurn(48, A, B, C, D, w, 0, 6, 0xf4292244);
    A := Op(FI(B, C, D), A, B, w[0], 6, 0xf4292244);
    FITurn(49, D, A, B, C, w, 7, 10, 0x432aff97);
    D := Op(FI(A, B, C), D, A, w[7], 10, 0x432aff97);
    FITurn(50, C, D, A, B, w, 14, 15, 0xab9423a7);
    C := Op(FI(D, A, B), C, D, w[14], 15, 0xab9423a7);
    FITurn(51, B, C, D, A, w, 5, 21, 0xfc93a039);
    B := Op(FI(C, D, A), B, C, w[5], 21, 0xfc93a039);
    FourSteps(st, w, 48, p, A, B, C, D);
    p := State(A, B, C, D);
    FITurn(52, A, B, C, D, w, 12, 6, 0x655b59c3);
    A := Op(FI(B, C, D), A, B, w[12], 6, 0x655b59c3);
    FITurn(53, D, A, B, C, w, 3, 10, 0x8f0ccc92);
    D := Op(FI(A, B, C), D, A, w[3], 10, 0x8f0ccc92);
    FITurn(54, C, D, A, B, w, 10, 15, 0xffeff47d);
    C := Op(FI(D, A, B), C, D, w[10], 15, 0xffeff47d);
    FITurn(55, B, C, D, A, w, 1, 21, 0x85845dd1);
    B := Op(FI(C, D, A), B, C, w[1], 21, 0x85845dd1);
    FourSteps(st, w, 52, p, A, B, C, D);
    p := State(A, B, C, D);
    FITurn(56, A, B, C, D, w, 8, 6, 0x6fa87e4f);
    A := Op(FI(B, C, D), A, B, w[8], 6, 0x6fa87e4f);
    FITurn(57, D, A, B, C, w, 15, 10, 0xfe2ce6e0);
    D := Op(FI(A, B, C), D, A, w[15], 10, 0xfe2ce6e0);
    FITurn(58, C, D, A, B, w, 6, 15, 0xa3014314);
    C := Op(FI(D, A, B), C, D, w[6], 15, 0xa3014314);
    FITurn(59, B, C, D, A, w, 13, 21, 0x4e0811a1);
    B := Op(FI(C, D, A), B, C, w[13], 21, 0x4e0811a1);
    FourSteps(st, w, 56, p, A, B, C, D);
    p := State(A, B, C, D);
    FITurn(60, A, B, C, D, w, 4, 6, 0xf7537e82);
    A := Op(FI(B, C, D), A, B, w[4], 6, 0xf7537e82);
    FITurn(61, D, A, B, C, w, 11, 10, 0xbd3af235);
    D := Op(FI(A, B, C), D, A, w[11], 10, 0xbd3af235);
    FITurn(62, C, D, A, B, w, 2, 15, 0x2ad7d2bb);
    C := Op(FI(D, A, B), C, D, w[2], 15, 0x2ad7d2bb);
    FITurn(63, B, C, D, A, w, 9, 21, 0xeb86d391);
    B := Op(FI(C, D, A), B, C, w[9], 21, 0xeb86d391);
    FourSteps(st, w, 60, p, A, B, C, D);
  }

  /** transform: one block of 64 octets goes into the registers. */
  method Transform(st: State, data: seq<octet>) returns (r: State)
    requires |data| == 64
    ensures r == Compress(st, data)
  {
    hide Steps, WordsOf, Turn, Sum;
    var w := WordsOf(data);
    NoSteps(st, w);
    var A, B, C, D := Round1(st, w, st.a, st.b, st.c, st.d);
    A, B, C, D := Round2(st, w, A, B, C, D);
    A, B, C, D := Round3(st, w, A, B, C, D);
    A, B, C, D := Round4(st, w, A, B, C, D);
    r := Sum(st, State(A, B, C, D));
  }

  lemma NoSteps(st: State, x: seq<bv32>)
    requires |x| == 16
    ensures Steps(st, x, 0) == State(st.a, st.b, st.c, st.d)
  {
  }

  // ---------------------------------------------------------------- the length of the message

  const MOD32 := 0x1_0000_0000

  /** The two words of the bit count that do_final computes, with its tests for overflow. */
  function CountWords(nblocks: nat, count: nat): (nat, nat) {
    var lsb1 := nblocks * 64 % MOD32;
    var msb1 := (if lsb1 < nblocks then 1 else 0) + nblocks / 0x400_0000;
    var lsb2 := (lsb1 + count) % MOD32;
    var msb2 := if lsb2 < lsb1 then msb1 + 1 else msb1;
    var lsb3 := lsb2 * 8 % MOD32;
    var msb3 := if lsb3 < lsb2 then msb2 + 1 else msb2;
    (msb3 + lsb2 / 0x2000_0000, lsb3)
  }

  /** The lengths for which the tests do not count an overflow twice. */
  predicate CountFits(n: nat) {
    n < 0x2000_0000 || (n < MOD32 && 8 * n % MOD32 >= n)
  }

  /** The bit count is right exactly for these lengths; they include all below 2^29 octets. */
  lemma CountExact(nblocks: nat, count: nat)
    requires nblocks < MOD32 && count < 64
    ensures CountWords(nblocks, count).0 * MOD32 + CountWords(nblocks, count).1 == 8 * (64 * nblocks + count) <==> CountFits(64 * nblocks + count)
  {
    if nblocks < 0x400_0000 {
      CountExactShort(nblocks, count);
    } else {
      CountExactLong(nblocks, count);
    }
  }

  /** For 2^29 octets they say 2 * 2^32 bits instead of 2^32. */
  lemma CountWrong()
    ensures CountWords(0x80_0000, 0) == (2, 0) && 8 * (64 * 0x80_0000) == 1 * MOD32 && !CountFits(64 * 0x80_0000)
  {
  }

  lemma ShortWords(nblocks: nat, count: nat)
    requires nblocks < 0x400_0000 && count < 64
    ensures CountWords(nblocks, count) == ((64 * nblocks + count) / 0x2000_0000 + (if 8 * (64 * nblocks + count) % MOD32 < 64 * nblocks + count then 1 else 0),
                                           8 * (64 * nblocks + count) % MOD32)
  {
    assert nblocks * 64 % MOD32 == nblocks * 64;
    assert (nblocks * 64 + count) % MOD32 == nblocks * 64 + count;
  }

  lemma CountExactShort(nblocks: nat, count: nat)
    requires nblocks < 0x400_0000 && count < 64
    ensures CountWords(nblocks, count).0 * MOD32 + CountWords(nblocks, count).1 == 8 * (64 * nblocks + count) <==> CountFits(64 * nblocks + count)
  {
    hide CountWords;
    ShortWords(nblocks, count);
    Octuple(64 * nblocks + count);
  }

  lemma Octuple(n: nat)
    ensures 8 * n == n / 0x2000_0000 * MOD32 + 8 * n % MOD32
    ensures n < 0x2000_0000 ==> 8 * n % MOD32 == 8 * n
  {
    assert 8 * n / MOD32 == n / 0x2000_0000;
  }

  lemma LongWords(nblocks: nat, count: nat, h: nat, low: nat)
    requires 0x400_0000 <= nblocks < MOD32 && count < 64 && h == nblocks / 0x400_0000 && low == nblocks % 0x400_0000 * 64 + count
    ensures h + low / 0x2000_0000 <= CountWords(nblocks, count).0 <= h + low / 0x2000_0000 + 3 && CountWords(nblocks, count).1 == 8 * low % MOD32
    ensures 64 * nblocks + count == h * MOD32 + low && low < MOD32 && h >= 1
  {
    var x := nblocks % 0x400_0000;
    assert nblocks == h * 0x400_0000 + x && x < 0x400_0000;
    Wrapped(h, x * 64);
    Wrapped(0, low);
    CountWordsFrom(nblocks, count, x * 64, low);
  }

  lemma Wrapped(h: nat, x: nat)
    requires x < MOD32
    ensures (h * MOD32 + x) % MOD32 == x
  {
  }

  /** The words of the count, once it is known what the first two steps leave. */
  lemma CountWordsFrom(nblocks: nat, count: nat, lsb1: nat, lsb2: nat)
    requires lsb1 == nblocks * 64 % MOD32 && lsb2 == (lsb1 + count) % MOD32
    ensures nblocks / 0x400_0000 + lsb2 / 0x2000_0000 <= CountWords(nblocks, count).0 <= nblocks / 0x400_0000 + lsb2 / 0x2000_0000 + 3
    ensures CountWords(nblocks, count).1 == lsb2 * 8 % MOD32
  {
  }

  lemma CountExactLong(nblocks: nat, count: nat)
    requires 0x400_0000 <= nblocks < MOD32 && count < 64
    ensures CountWords(nblocks, count).0 * MOD32 + CountWords(nblocks, count).1 != 8 * (64 * nblocks + count)
    ensures !CountFits(64 * nblocks + count)
  {
    hide CountWords;
    var h, low := nblocks / 0x400_0000, nblocks % 0x400_0000 * 64 + count;
    LongWords(nblocks, count, h, low);
    Octuple(low);
  }

  lemma CountOctets(msb: nat, lsb: nat, n: nat)
    requires msb < MOD32 && lsb < MOD32 && msb * MOD32 + lsb == 8 * n
    ensures LengthField(n) == [Octet(lsb), Octet(lsb / 0x100), Octet(lsb / 0x1_0000), Octet(lsb / 0x100_0000),
                               Octet(msb), Octet(msb / 0x100), Octet(msb / 0x1_0000), Octet(msb / 0x100_0000)]
  {
    var bits := 8 * n;
    assert bits % 0x1_0000_0000_0000_0000 == bits;
    LowOctets(msb, lsb);
    HighOctets(msb, lsb);
    hide Octet;
  }

  lemma LowOctets(msb: nat, lsb: nat)
    requires lsb < MOD32
    ensures Octet(msb * MOD32 + lsb) == Octet(lsb)
    ensures Octet((msb * MOD32 + lsb) / 0x100) == Octet(lsb / 0x100)
    ensures Octet((msb * MOD32 + lsb) / 0x1_0000) == Octet(lsb / 0x1_0000)
    ensures Octet((msb * MOD32 + lsb) / 0x100_0000) == Octet(lsb / 0x100_0000)
  {
    var n := msb * MOD32 + lsb;
    assert n / 0x100 == 256 * (msb * 0x1_0000) + lsb / 0x100;
    assert n / 0x1_0000 == 256 * (msb * 0x100) + lsb / 0x1_0000;
    assert n / 0x100_0000 == 256 * msb + lsb / 0x100_0000;
    SameOctet(msb * 0x100_0000, lsb);
    SameOctet(msb * 0x1_0000, lsb / 0x100);
    SameOctet(msb * 0x100, lsb / 0x1_0000);
    SameOctet(msb, lsb / 0x100_0000);
    hide Octet;
  }

  lemma SameOctet(k: nat, n: nat)
    ensures Octet(256 * k + n) == Octet(n)
  {
  }

  lemma HighOctets(msb: nat, lsb: nat)
    requires lsb < MOD32
    ensures (msb * MOD32 + lsb) / 0x1_0000_0000 == msb && (msb * MOD32 + lsb) / 0x100_0000_0000 == msb / 0x100
    ensures (msb * MOD32 + lsb) / 0x1_0000_0000_0000 == msb / 0x1_0000 && (msb * MOD32 + lsb) / 0x100_0000_0000_0000 == msb / 0x100_0000
  {
  }

  // ---------------------------------------------------------------- the context

  /** nblocks counts the blocks that have gone into the registers, modulo 2^32. */
  ghost predicate Holds(st: State, nblocks: nat, rest: seq<octet>, msg: seq<octet>) {
    Absorbed(st, rest, msg) && nblocks == (|msg| - |rest|) / 64 % MOD32
  }

  lemma HoldsNothing()
    ensures Holds(Start(), 0, [], [])
  {
    hide Start, Absorbed;
    AbsorbedNothing();
  }

  lemma HoldsBlock(st: State, nblocks: nat, msg: seq<octet>, block: seq<octet>)
    requires Holds(st, nblocks, [], msg) && |block| == 64
    ensures Holds(Compress(st, block), (nblocks + 1) % MOD32, [], msg + block)
  {
    hide Compress, Absorbed;
    AbsorbedBlock(st, msg, block);
    assert (|msg| + 64) / 64 == |msg| / 64 + 1;
  }

  lemma HoldsFlush(st: State, nblocks: nat, rest: seq<octet>, msg: seq<octet>)
    requires Holds(st, nblocks, rest, msg) && |rest| == 64
    ensures Holds(Compress(st, rest), (nblocks + 1) % MOD32, [], msg)
  {
    hide Compress, Blocks, Start;
    AbsorbedFlush(st, rest, msg);
    hide Absorbed;
    assert |msg| / 64 == (|msg| - 64) / 64 + 1;
  }

  lemma HoldsMore(st: State, nblocks: nat, rest: seq<octet>, msg: seq<octet>, more: seq<octet>)
    requires Holds(st, nblocks, rest, msg) && |rest| + |more| <= 64
    ensures Holds(st, nblocks, rest + more, msg + more)
  {
    hide Absorbed;
    AbsorbedMore(st, rest, msg, more);
  }

  lemma HoldsRest(st: State, nblocks: nat, rest: seq<octet>, msg: seq<octet>)
    requires Holds(st, nblocks, rest, msg) && |rest| < 64
    ensures |rest| <= |msg| && (|msg| - |rest|) % 64 == 0
    ensures rest == msg[|msg| - |rest|..] && st == Blocks(Start(), msg[..|msg| - |rest|])
  {
    hide Blocks, Start;
  }

  class Context {
    var st: State
    var nblocks: nat
    var buf: array<octet>
    var count: nat
    var finalized: bool
    ghost var msg: seq<octet>

    /** Before do_final. */
    ghost predicate Streaming()
      reads this, buf
    {
      !finalized && buf.Length == 64 && count <= 64 && Holds(st, nblocks, buf[..count], msg)
    }

    /** md5_init. */
    constructor ()
      ensures Streaming() && msg == [] && fresh(buf)
    {
      hide Holds, Start;
      st := Start();
      nblocks, count, finalized, msg := 0, 0, false, [];
      buf := new octet[64];
      new;
      HoldsNothing();
      assert buf[..0] == [];
    }

    /** md5_update without input. */
    method Flush()
      requires Streaming()
      modifies this
      ensures Streaming() && msg == old(msg) && buf == old(buf) && count == old(count) % 64
    {
      hide Compress, Holds;
      if count == 64 {
        assert buf[..64] == buf[..];
        HoldsFlush(st, nblocks, buf[..], msg);
        st := Transform(st, buf[..]);
        count := 0;
        nblocks := (nblocks + 1) % MOD32;
        assert buf[..0] == [];
      }
    }

    /** The loops of md5_update that fill the buffer. */
    method Fill(inbuf: seq<octet>) returns (taken: nat)
      requires Streaming()
      modifies this, buf
      ensures taken <= |inbuf| && (taken == |inbuf| || count == 64)
      ensures Streaming() && buf == old(buf) && msg == old(msg) + inbuf[..taken] && count == old(count) + taken
    {
      hide Holds;
      taken := 0;
      ghost var start := buf[..count];
      assert start + inbuf[..0] == start && msg + inbuf[..0] == msg;
      while taken < |inbuf| && count < 64
        invariant taken <= |inbuf| && buf == old(buf) && count == old(count) + taken <= 64 && !finalized
        invariant buf[..count] == start + inbuf[..taken] && st == old(st) && nblocks == old(nblocks) && msg == old(msg)
      {
        buf[count] := inbuf[taken];
        count := count + 1;
        taken := taken + 1;
        assert inbuf[..taken] == inbuf[..taken - 1] + [inbuf[taken - 1]];
      }
      HoldsMore(st, nblocks, start, msg, inbuf[..taken]);
      msg := msg + inbuf[..taken];
    }

    /** md5_update: the octets are appended to the message, however they are cut into calls. */
    method Update(inbuf: seq<octet>)
      requires Streaming()
      modifies this, buf
      ensures Streaming() && buf == old(buf) && msg == old(msg) + inbuf && count < 64
    {
      hide Compress, Holds;
      Flush();
      var i := 0;
      if count != 0 {
        i := Fill(inbuf);
        Flush();
        if i == |inbuf| {
          assert inbuf[..i] == inbuf;
          return;
        }
      }
      i := UpdateBlocks(inbuf, i, old(msg));
      ghost var was := msg;
      var taken := Fill(inbuf[i..]);
      assert inbuf[i..][..taken] == inbuf[i..];
      Rejoined(old(msg), inbuf, i);
    }

    /** The loop of md5_update over whole blocks. */
    method UpdateBlocks(inbuf: seq<octet>, from: nat, ghost start: seq<octet>) returns (i: nat)
      requires Streaming() && count == 0 && from <= |inbuf| && msg == start + inbuf[..from]
      modifies this
      ensures Streaming() && count == 0 && buf == old(buf) && i <= |inbuf| < i + 64 && msg == start + inbuf[..i]
    {
      hide Compress, Holds;
      i := from;
      assert buf[..0] == [];
      while |inbuf| - i >= 64
        invariant i <= |inbuf| && Streaming() && buf == old(buf) && count == 0 && msg == start + inbuf[..i]
      {
        assert buf[..0] == [];
        HoldsBlock(st, nblocks, msg, inbuf[i..i + 64]);
        NextBlock(start, inbuf, i);
        st := Transform(st, inbuf[i..i + 64]);
        msg := start + inbuf[..i + 64];
        nblocks := (nblocks + 1) % MOD32;
        i := i + 64;
      }
    }

    /** do_final pads the rest of the message: 0x80 and zeros up to the given octet. */
    method Pad(upTo: nat)
      requires buf.Length == 64 && count < upTo <= 64
      modifies buf, this`count
      ensures count == upTo && buf[..upTo] == old(buf[..count]) + [0x80] + Zeros(upTo - old(count) - 1)
    {
      buf[count] := 0x80;
      count := count + 1;
      while count < upTo
        invariant old(count) < count <= upTo
        invariant forall k: nat :: k < count ==> buf[k] == if k < old(count) then old(buf[k]) else if k == old(count) then 0x80 else 0
      {
        buf[count] := 0;
        count := count + 1;
      }
    }

    /** The eight octets of the bit count. */
    method PutCount(msb: nat, lsb: nat)
      requires buf.Length == 64
      modifies buf
      ensures buf[..56] == old(buf[..56])
      ensures buf[56..] == [Octet(lsb), Octet(lsb / 0x100), Octet(lsb / 0x1_0000), Octet(lsb / 0x100_0000),
                            Octet(msb), Octet(msb / 0x100), Octet(msb / 0x1_0000), Octet(msb / 0x100_0000)]
    {
      hide Octet;
      buf[56], buf[57], buf[58], buf[59] := Octet(lsb), Octet(lsb / 0x100), Octet(lsb / 0x1_0000), Octet(lsb / 0x100_0000);
      buf[60], buf[61], buf[62], buf[63] := Octet(msb), Octet(msb / 0x100), Octet(msb / 0x1_0000), Octet(msb / 0x100_0000);
    }

    /** The registers go to the beginning of the buffer. */
    method PutDigest()
      requires buf.Length == 64
      modifies buf
      ensures buf[..16] == Output(st)
    {
      hide Output;
      var out := Output(st);
      var i := 0;
      while i < 16
        invariant i <= 16 && |out| == 16 && buf[..i] == out[..i]
      {
        buf[i] := out[i];
        i := i + 1;
      }
    }

    /** After do_final the buffer begins with the digest. */
    ghost predicate Done()
      reads this, buf
    {
      finalized && buf.Length == 64 && (CountFits(|msg|) ==> buf[..16] == Md5(msg))
    }

    method DoFinal()
      requires Streaming()
      modifies this, buf
      ensures Done() && msg == old(msg) && buf == old(buf)
    {
      hide Compress, Blocks, CountWords, CountFits, LengthField, Octet, Output, Zeros, Padded, Start, Holds;
      Flush();
      ghost var n, last := |msg|, count;
      var (msb, lsb) := CountWords(nblocks, count);
      CountIsRight(st, nblocks, buf[..count], msg);
      ghost var first := PadRest();
      PutCount(msb, lsb);
      ghost var block := buf[..];
      SplitBlock(block);
      OneMoreBlock(Start(), first, block);
      st := Transform(st, buf[..]);
      if CountFits(n) {
        PaddedBlocks(msg, last, msg[..n - last], first, block, LengthField(n));
      }
      PutDigest();
      finalized := true;
    }

    /** Pads the message up to the place of the bit count, which takes one or two blocks. */
    method PadRest() returns (ghost first: seq<octet>)
      requires Streaming() && count < 64
      modifies this, buf
      ensures |first| % 64 == 0 && st == Blocks(Start(), first) && buf == old(buf) && buf.Length == 64 && msg == old(msg) && !finalized
      ensures old(count) <= |msg| && (|msg| - old(count)) % 64 == 0
      ensures old(count) < 56 ==> first == msg[..|msg| - old(count)] && buf[..56] == msg[|msg| - old(count)..] + [0x80] + Zeros(55 - old(count))
      ensures old(count) >= 56 ==> first == msg[..|msg| - old(count)] + (msg[|msg| - old(count)..] + [0x80] + Zeros(63 - old(count)))
      ensures old(count) >= 56 ==> buf[..56] == Zeros(56)
    {
      hide Compress, Blocks, Start, Holds, Zeros;
      HoldsRest(st, nblocks, buf[..count], msg);
      first := msg[..|msg| - count];
      if count < 56 {
        Pad(56);
      } else {
        Pad(64);
        assert buf[..64] == buf[..];
        OneMoreBlock(Start(), first, buf[..]);
        first := first + buf[..];
        FullBlock();
      }
    }

    /** The full buffer is hashed, and the next one begins with zeros. */
    method FullBlock()
      requires buf.Length == 64
      modifies this`st, this`count, this`nblocks, buf
      ensures st == Compress(old(st), old(buf[..])) && buf[..56] == Zeros(56)
    {
      hide Compress, Zeros;
      st := Transform(st, buf[..]);
      count, nblocks := 0, (nblocks + 1) % MOD32;
      ClearStart();
    }

    /** memset(hd->buf, 0, 56) */
    method ClearStart()
      requires buf.Length == 64
      modifies buf
      ensures buf[..56] == Zeros(56)
    {
      var i := 0;
      while i < 56
        invariant i <= 56 && forall k: nat :: k < i ==> buf[k] == 0
      {
        buf[i] := 0;
        i := i + 1;
      }
    }

    /** md5_final: the digest of the message, as often as it is asked for. */
    method Final() returns (digest: seq<octet>)
      requires Streaming() || Done()
      modifies this, buf
      ensures Done() && msg == old(msg) && |digest| == 16
      ensures CountFits(|msg|) ==> digest == Md5(msg)
    {
      hide Md5, Holds, CountFits;
      if !finalized {
        DoFinal();
      }
      digest := buf[..16];
    }
  }

  lemma Rejoined(start: seq<octet>, inbuf: seq<octet>, i: nat)
    requires i <= |inbuf|
    ensures start + inbuf[..i] + inbuf[i..] == start + inbuf
  {
  }

  lemma NextBlock(start: seq<octet>, inbuf: seq<octet>, i: nat)
    requires i + 64 <= |inbuf|
    ensures start + inbuf[..i] + inbuf[i..i + 64] == start + inbuf[..i + 64]
  {
  }

  lemma CountSmall(nblocks: nat, count: nat)
    requires nblocks < MOD32 && count < 64
    ensures CountWords(nblocks, count).0 < MOD32 && CountWords(nblocks, count).1 < MOD32
  {
  }

  lemma FitsIsExact(n: nat, count: nat, nblocks: nat)
    requires CountFits(n) && count < 64 && count <= n && (n - count) % 64 == 0 && nblocks == (n - count) / 64 % MOD32
    ensures nblocks < MOD32 && 64 * nblocks + count == n
  {
    assert (n - count) / 64 < MOD32;
  }

  lemma SplitBlock(block: seq<octet>)
    requires |block| == 64
    ensures block == block[..56] + block[56..]
  {
  }

  /** The bit count that do_final computes is that of the message. */
  lemma CountIsRight(st: State, nblocks: nat, rest: seq<octet>, msg: seq<octet>)
    requires Holds(st, nblocks, rest, msg) && |rest| < 64
    ensures var (msb, lsb) := CountWords(nblocks, |rest|);
            CountFits(|msg|) ==>
              LengthField(|msg|) == [Octet(lsb), Octet(lsb / 0x100), Octet(lsb / 0x1_0000), Octet(lsb / 0x100_0000),
                                     Octet(msb), Octet(msb / 0x100), Octet(msb / 0x1_0000), Octet(msb / 0x100_0000)]
  {
    hide CountWords, LengthField, Octet, Blocks, Start;
    if CountFits(|msg|) {
      FitsIsExact(|msg|, |rest|, nblocks);
      hide CountFits;
      CountSmall(nblocks, |rest|);
      CountExact(nblocks, |rest|);
      CountOctets(CountWords(nblocks, |rest|).0, CountWords(nblocks, |rest|).1, |msg|);
    }
  }

  /** The blocks that do_final makes are those of the padded message. */
  lemma PaddedBlocks(msg: seq<octet>, count: nat, before: seq<octet>, first: seq<octet>, block: seq<octet>, field: seq<octet>)
    requires count < 64 && count <= |msg| && (|msg| - count) % 64 == 0 && before == msg[..|msg| - count] && field == LengthField(|msg|)
    requires |block| == 64 && block[56..] == field
    requires count < 56 ==> first == before && block[..56] == msg[|msg| - count..] + [0x80] + Zeros(55 - count)
    requires count >= 56 ==> first == before + (msg[|msg| - count..] + [0x80] + Zeros(63 - count)) && block[..56] == Zeros(56)
    ensures Padded(msg) == first + block
  {
    hide LengthField, Octet;
    assert |msg| % 64 == count;
    assert block == block[..56] + block[56..];
    assert msg == before + msg[|msg| - count..];
    var z := ZeroCount(|msg|);
    assert Padded(msg) == msg + [0x80] + Zeros(z) + field;
    if count < 56 {
      assert z == 55 - count;
    } else {
      assert z == 63 - count + 56;
      assert Zeros(z) == Zeros(63 - count) + Zeros(56);
    }
  }

  /** The digest of a message that comes in pieces depends on the pieces put together only. */
  method DigestOf(chunks: seq<seq<octet>>) returns (digest: seq<octet>)
    requires CountFits(|Concat(chunks)|)
    ensures digest == Md5(Concat(chunks))
  {
    hide Md5, Holds, Start, CountFits;
    var ctx := new Context();
    var i := 0;
    assert chunks[..0] == [];
    while i < |chunks|
      invariant i <= |chunks| && ctx.Streaming() && fresh(ctx) && fresh(ctx.buf) && ctx.msg == Concat(chunks[..i])
    {
      assert chunks[..i + 1][..i] == chunks[..i];
      ctx.Update(chunks[i]);
      i := i + 1;
    }
    assert chunks[..i] == chunks;
    digest := ctx.Final();
  }
}
