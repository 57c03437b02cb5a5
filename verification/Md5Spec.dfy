/** The MD5 message digest as sections 3.1 to 3.5 of RFC 1321 define it, in one piece. */
module Md5Spec {

  type octet = x: int | 0 <= x < 256
  datatype State = State(a: bv32, b: bv32, c: bv32, d: bv32)

  // ---------------------------------------------------------------- section 3.4: the functions and the table

  function F(x: bv32, y: bv32, z: bv32): bv32 {
    (x & y) | (!x & z)
  }

  function G(x: bv32, y: bv32, z: bv32): bv32 {
    (x & z) | (y & !z)
  }

  function H(x: bv32, y: bv32, z: bv32): bv32 {
    x ^ y ^ z
  }

  function I(x: bv32, y: bv32, z: bv32): bv32 {
    y ^ (x | !z)
  }

  /** X <<< s: a rotation by s bits to the left, one after the other. */
  function Rotated(x: bv32, s: nat): bv32
    decreases s
  {
    if s == 0 then x else Rotated((x << 1) | (x >> 31), s - 1)
  }

  function Shifts(x: bv32, s: bv32): bv32
    requires 0 < s < 32
  {
    (x << s) | (x >> (32 - s))
  }

  /** Two shifts do the same. */
  lemma {:induction false} RotatedShifts(x: bv32, s: bv32, n: nat)
    requires 0 < s < 32 && n == s as int
    ensures Rotated(x, n) == Shifts(x, s)
    decreases n
  {
    if s > 1 {
      OneLess(s);
      RotatedShifts((x << 1) | (x >> 31), s - 1, n - 1);
      ShiftsJoin(x, s);
      RotatedStep(x, n);
      hide Rotated, Shifts;
    } else {
      RotatedOnce(x);
    }
  }

  lemma RotatedOnce(x: bv32)
    ensures Rotated(x, 1) == (x << 1) | (x >> 31)
  {
    assert Rotated((x << 1) | (x >> 31), 0) == (x << 1) | (x >> 31);
  }

  lemma RotatedStep(x: bv32, n: nat)
    requires n > 0
    ensures Rotated(x, n) == Rotated((x << 1) | (x >> 31), n - 1)
  {
  }

  lemma OneLess(s: bv32)
    requires 0 < s < 32
    ensures (s - 1) as int == (s as int) - 1
  {
  }

  lemma ShiftsJoin(x: bv32, s: bv32)
    requires 1 < s < 32
    ensures Shifts((x << 1) | (x >> 31), s - 1) == Shifts(x, s)
  {
  }

  /** Bit i of a word comes to place i + s, and those that leave on the left come in on the right. */
  lemma RotatedExact(x: bv32, s: bv32, i: bv32)
    requires 0 < s < 32 && i < 32
    ensures (Rotated(x, s as int) >> ((i + s) & 31)) & 1 == (x >> i) & 1
  {
    RotatedShifts(x, s, s as int);
    hide Rotated;
    BitMoves(x, s, i);
  }

  lemma BitMoves(x: bv32, s: bv32, i: bv32)
    requires 0 < s < 32 && i < 32
    ensures (((x << s) | (x >> (32 - s))) >> ((i + s) & 31)) & 1 == (x >> i) & 1
  {
  }

  function T1(i: nat): bv32 {
    match i
    case 0 => 0xd76aa478
    case 1 => 0xe8c7b756
    case 2 => 0x242070db
    case 3 => 0xc1bdceee
    case 4 => 0xf57c0faf
    case 5 => 0x4787c62a
    case 6 => 0xa8304613
    case 7 => 0xfd469501
    case 8 => 0x698098d8
    case 9 => 0x8b44f7af
    case 10 => 0xffff5bb1
    case 11 => 0x895cd7be
    case 12 => 0x6b901122
    case 13 => 0xfd987193
    case 14 => 0xa679438e
    case _ => 0x49b40821
  }

  function T2(i: nat): bv32 {
    match i
    case 0 => 0xf61e2562
    case 1 => 0xc040b340
    case 2 => 0x265e5a51
    case 3 => 0xe9b6c7aa
    case 4 => 0xd62f105d
    case 5 => 0x02441453
    case 6 => 0xd8a1e681
    case 7 => 0xe7d3fbc8
    case 8 => 0x21e1cde6
    case 9 => 0xc33707d6
    case 10 => 0xf4d50d87
    case 11 => 0x455a14ed
    case 12 => 0xa9e3e905
    case 13 => 0xfcefa3f8
    case 14 => 0x676f02d9
    case _ => 0x8d2a4c8a
  }

  function T3(i: nat): bv32 {
    match i
    case 0 => 0xfffa3942
    case 1 => 0x8771f681
    case 2 => 0x6d9d6122
    case 3 => 0xfde5380c
    case 4 => 0xa4beea44
    case 5 => 0x4bdecfa9
    case 6 => 0xf6bb4b60
    case 7 => 0xbebfbc70
    case 8 => 0x289b7ec6
    case 9 => 0xeaa127fa
    case 10 => 0xd4ef3085
    case 11 => 0x04881d05
    case 12 => 0xd9d4d039
    case 13 => 0xe6db99e5
    case 14 => 0x1fa27cf8
    case _ => 0xc4ac5665
  }

  function T4(i: nat): bv32 {
    match i
    case 0 => 0xf4292244
    case 1 => 0x432aff97
    case 2 => 0xab9423a7
    case 3 => 0xfc93a039
    case 4 => 0x655b59c3
    case 5 => 0x8f0ccc92
    case 6 => 0xffeff47d
    case 7 => 0x85845dd1
    case 8 => 0x6fa87e4f
    case 9 => 0xfe2ce6e0
    case 10 => 0xa3014314
    case 11 => 0x4e0811a1
    case 12 => 0xf7537e82
    case 13 => 0xbd3af235
    case 14 => 0x2ad7d2bb
    case _ => 0xeb86d391
  }

  /** The table: entry i is the integer part of 4294967296 times abs(sin(i + 1)). */
  function T(i: nat): bv32 {
    if i < 16 then T1(i) else if i < 32 then T2(i - 16) else if i < 48 then T3(i - 32) else T4(i - 48)
  }

  /** The word of the block that step i uses. */
  function Index(i: nat): (k: nat)
    ensures k < 16
  {
    if i < 16 then i % 16 else if i < 32 then (5 * i + 1) % 16 else if i < 48 then (3 * i + 5) % 16 else 7 * i % 16
  }

  /** The number of bits by which step i rotates. */
  function Shift(i: nat): (s: nat)
    ensures 0 < s < 32
  {
    if i < 16 then (if i % 4 == 0 then 7 else if i % 4 == 1 then 12 else if i % 4 == 2 then 17 else 22)
    else if i < 32 then (if i % 4 == 0 then 5 else if i % 4 == 1 then 9 else if i % 4 == 2 then 14 else 20)
    else if i < 48 then (if i % 4 == 0 then 4 else if i % 4 == 1 then 11 else if i % 4 == 2 then 16 else 23)
    else if i % 4 == 0 then 6 else if i % 4 == 1 then 10 else if i % 4 == 2 then 15 else 21
  }

  function Mixed(i: nat, x: bv32, y: bv32, z: bv32): bv32 {
    if i < 16 then F(x, y, z) else if i < 32 then G(x, y, z) else if i < 48 then H(x, y, z) else I(x, y, z)
  }

  // ---------------------------------------------------------------- section 3.4: the steps

  /** Addition of words modulo 2^32. */
  function Plus(x: bv32, y: bv32): bv32 {
    x + y
  }

  lemma PlusCommutes(x: bv32, y: bv32)
    ensures Plus(x, y) == Plus(y, x)
  {
  }

  /** a = b + ((a + f + x + t) <<< s) */
  function Line(f: bv32, a: bv32, b: bv32, x: bv32, s: nat, t: bv32): bv32
    requires 0 < s < 32
  {
    Plus(b, Rotated(a + f + x + t, s))
  }

  /** Operation i of the 64, with the registers named as in its own line. */
  function Turn(i: nat, a: bv32, b: bv32, c: bv32, d: bv32, x: seq<bv32>): bv32
    requires |x| == 16
  {
    Line(Mixed(i, b, c, d), a, b, x[Index(i)], Shift(i), T(i))
  }

  /** The registers after n operations. The register just computed plays the part of b in the
      next operation, b that of c, c that of d and d that of a. */
  function Steps(st: State, x: seq<bv32>, n: nat): State
    requires |x| == 16
  {
    if n == 0 then st
    else
      var p := Steps(st, x, n - 1);
      State(p.d, Turn(n - 1, p.a, p.b, p.c, p.d, x), p.b, p.c)
  }

  lemma {:induction false} FourSteps(st: State, x: seq<bv32>, i: nat, p: State, a: bv32, b: bv32, c: bv32, d: bv32)
    requires |x| == 16 && Steps(st, x, i) == p
    requires a == Turn(i, p.a, p.b, p.c, p.d, x) && d == Turn(i + 1, p.d, a, p.b, p.c, x)
    requires c == Turn(i + 2, p.c, d, a, p.b, x) && b == Turn(i + 3, p.b, c, d, a, x)
    ensures Steps(st, x, i + 4) == State(a, b, c, d)
  {
    hide Turn;
    assert Steps(st, x, i + 1) == State(p.d, a, p.b, p.c);
    assert Steps(st, x, i + 2) == State(p.c, d, a, p.b);
    assert Steps(st, x, i + 3) == State(p.b, c, d, a);
  }

  /** Four octets as a word, the low-order octet first (section 2). */
  function WordOf(p: octet, q: octet, r: octet, s: octet): bv32 {
    (p + 0x100 * q + 0x1_0000 * r + 0x100_0000 * s) as bv32
  }

  function WordsOf(block: seq<octet>): (x: seq<bv32>)
    requires |block| == 64
    ensures |x| == 16
  {
    seq(16, k requires 0 <= k < 16 => WordOf(block[4 * k], block[4 * k + 1], block[4 * k + 2], block[4 * k + 3]))
  }

  function Sum(p: State, q: State): State {
    State(p.a + q.a, p.b + q.b, p.c + q.c, p.d + q.d)
  }

  /** One block of 16 words. */
  function Compress(st: State, block: seq<octet>): State
    requires |block| == 64
  {
    Sum(st, Steps(st, WordsOf(block), 64))
  }

  // ---------------------------------------------------------------- sections 3.1 to 3.3: padding and start

  /** The initial values of the registers. */
  function Start(): State {
    State(0x67452301, 0xefcdab89, 0x98badcfe, 0x10325476)
  }

  function Octet(n: nat): octet {
    n % 256
  }

  /** The number of bits of a message of n octets, modulo 2^64, the low-order octet first. */
  function LengthField(n: nat): (s: seq<octet>)
    ensures |s| == 8
  {
    var bits := 8 * n % 0x1_0000_0000_0000_0000;
    [Octet(bits), Octet(bits / 0x100), Octet(bits / 0x1_0000), Octet(bits / 0x100_0000),
     Octet(bits / 0x1_0000_0000), Octet(bits / 0x100_0000_0000), Octet(bits / 0x1_0000_0000_0000), Octet(bits / 0x100_0000_0000_0000)]
  }

  function Zeros(n: nat): (z: seq<octet>)
    ensures |z| == n && forall k :: 0 <= k < n ==> z[k] == 0
  {
    seq(n, _ => 0)
  }

  /** How many zeros bring the length to 56 modulo 64 after the first bit of padding. */
  function ZeroCount(n: nat): (z: nat)
    ensures (n + 1 + z) % 64 == 56 && z < 64
  {
    if n % 64 < 56 then 55 - n % 64 else 119 - n % 64
  }

  lemma PaddedLength(n: nat)
    ensures (n + 9 + ZeroCount(n)) % 64 == 0
  {
    assert n + 9 + ZeroCount(n) == n / 64 * 64 + (if n % 64 < 56 then 64 else 128);
  }

  function Padded(msg: seq<octet>): (p: seq<octet>)
    ensures |p| == |msg| + 9 + ZeroCount(|msg|) && |p| % 64 == 0
  {
    hide LengthField, Zeros, ZeroCount;
    PaddedLength(|msg|);
    msg + [0x80] + Zeros(ZeroCount(|msg|)) + LengthField(|msg|)
  }

  /** The value of octets, the low-order octet first. */
  function ValueOf(s: seq<octet>): nat {
    if s == [] then 0 else s[0] + 256 * ValueOf(s[1..])
  }

  lemma Halves(bits: nat)
    ensures bits / 0x1_0000 == bits / 0x100 / 0x100 && bits / 0x100_0000 == bits / 0x1_0000 / 0x100
    ensures bits / 0x1_0000_0000 == bits / 0x100_0000 / 0x100 && bits / 0x100_0000_0000 == bits / 0x1_0000_0000 / 0x100
    ensures bits / 0x1_0000_0000_0000 == bits / 0x100_0000_0000 / 0x100
    ensures bits / 0x100_0000_0000_0000 == bits / 0x1_0000_0000_0000 / 0x100
    ensures bits < 18446744073709551616 ==> bits / 0x100_0000_0000_0000 < 0x100
  {
  }

  /** One octet more on the left. */
  lemma ValueStep(s: seq<octet>, k: nat, value: nat)
    requires k < |s| && s[k] == Octet(value) && ValueOf(s[k + 1..]) == value / 256
    ensures ValueOf(s[k..]) == value
  {
    assert s[k..][1..] == s[k + 1..];
  }

  lemma LengthValue(n: nat)
    ensures ValueOf(LengthField(n)) == 8 * n % 18446744073709551616
  {
    FieldValue(LengthField(n), 8 * n % 18446744073709551616);
  }

  lemma FieldValue(s: seq<octet>, bits: nat)
    requires bits < 18446744073709551616 && |s| == 8 && s[0] == Octet(bits) && s[1] == Octet(bits / 0x100)
    requires s[2] == Octet(bits / 0x1_0000) && s[3] == Octet(bits / 0x100_0000) && s[4] == Octet(bits / 0x1_0000_0000)
    requires s[5] == Octet(bits / 0x100_0000_0000) && s[6] == Octet(bits / 0x1_0000_0000_0000)
    requires s[7] == Octet(bits / 0x100_0000_0000_0000)
    ensures ValueOf(s) == bits
  {
    Halves(bits);
    assert s[8..] == [] && s[0..] == s;
    ValueStep(s, 7, bits / 0x100_0000_0000_0000);
    hide ValueOf, Octet;
    ValueStep(s, 6, bits / 0x1_0000_0000_0000);
    ValueStep(s, 5, bits / 0x100_0000_0000);
    ValueStep(s, 4, bits / 0x1_0000_0000);
    ValueStep(s, 3, bits / 0x100_0000);
    ValueStep(s, 2, bits / 0x1_0000);
    ValueStep(s, 1, bits / 0x100);
    ValueStep(s, 0, bits);
  }

  /** The padding: a bit, zeros up to the next length that is 56 modulo 64, and the number of bits. */
  lemma PaddedExact(msg: seq<octet>)
    ensures |Padded(msg)| % 64 == 0 && |msg| + 9 <= |Padded(msg)| <= |msg| + 72
    ensures Padded(msg)[..|msg|] == msg && Padded(msg)[|msg|] == 128
    ensures forall k :: |msg| < k < |Padded(msg)| - 8 ==> Padded(msg)[k] == 0
    ensures ValueOf(Padded(msg)[|Padded(msg)| - 8..]) == 8 * |msg| % 18446744073709551616
  {
    LengthValue(|msg|);
    hide LengthField, ValueOf;
    var p := Padded(msg);
    assert p[|p| - 8..] == LengthField(|msg|);
  }

  function Blocks(st: State, bytes: seq<octet>): State
    requires |bytes| % 64 == 0
  {
    if bytes == [] then st
    else Compress(Blocks(st, bytes[..|bytes| - 64]), bytes[|bytes| - 64..])
  }

  // ---------------------------------------------------------------- section 3.5: output

  function WordOctets(w: bv32): seq<octet> {
    [w as int % 256, w as int / 0x100 % 256, w as int / 0x1_0000 % 256, w as int / 0x100_0000 % 256]
  }

  function Output(st: State): (s: seq<octet>)
    ensures |s| == 16
  {
    WordOctets(st.a) + WordOctets(st.b) + WordOctets(st.c) + WordOctets(st.d)
  }

  /** The digest of a message. */
  function Md5(msg: seq<octet>): (digest: seq<octet>)
    ensures |digest| == 16
  {
    Output(Blocks(Start(), Padded(msg)))
  }

  lemma OneMoreBlock(st: State, bytes: seq<octet>, block: seq<octet>)
    requires |bytes| % 64 == 0 && |block| == 64
    ensures Blocks(st, bytes + block) == Compress(Blocks(st, bytes), block)
  {
    hide Compress, Start;
    assert (bytes + block)[..|bytes|] == bytes && (bytes + block)[|bytes|..] == block;
  }

  // ---------------------------------------------------------------- messages that come in pieces

  /** The whole blocks of the message so far have gone into the registers; the rest has not. */
  ghost predicate Absorbed(st: State, rest: seq<octet>, msg: seq<octet>) {
    && |rest| <= 64 && |rest| <= |msg| && (|msg| - |rest|) % 64 == 0
    && st == Blocks(Start(), msg[..|msg| - |rest|]) && rest == msg[|msg| - |rest|..]
  }

  lemma AbsorbedNothing()
    ensures Absorbed(Start(), [], [])
  {
    hide Start;
  }

  lemma AbsorbedBlock(st: State, msg: seq<octet>, block: seq<octet>)
    requires Absorbed(st, [], msg) && |block| == 64
    ensures Absorbed(Compress(st, block), [], msg + block)
  {
    hide Compress, Blocks, Start;
    OneMoreBlock(Start(), msg, block);
    assert msg[..|msg|] == msg && (msg + block)[..|msg + block|] == msg + block;
  }

  lemma AbsorbedFlush(st: State, rest: seq<octet>, msg: seq<octet>)
    requires Absorbed(st, rest, msg) && |rest| == 64
    ensures Absorbed(Compress(st, rest), [], msg)
  {
    hide Compress, Blocks, Start;
    var n := |msg| - 64;
    OneMoreBlock(Start(), msg[..n], rest);
    assert msg[..n] + rest == msg && msg[..|msg|] == msg;
  }

  lemma AbsorbedMore(st: State, rest: seq<octet>, msg: seq<octet>, more: seq<octet>)
    requires Absorbed(st, rest, msg) && |rest| + |more| <= 64
    ensures Absorbed(st, rest + more, msg + more)
  {
    hide Blocks, Start;
    var n := |msg| - |rest|;
    assert (msg + more)[..n] == msg[..n] && (msg + more)[n..] == rest + more;
  }

  function Concat(chunks: seq<seq<octet>>): seq<octet> {
    if chunks == [] then [] else Concat(chunks[..|chunks| - 1]) + chunks[|chunks| - 1]
  }
}
