/** The messages between OSP2P peers (lab4/writescan.c): what osp2p_writef prints for a format
    and what osp2p_vsnscanf reads back with the same format. */
module MessageFormat {

  type byte = x: int | 0 <= x < 256

  const INT_MAX := 2147483647
  const PERCENT: byte := 37
  const DOT: byte := 46
  const MINUS: byte := 45

  datatype Arg = Str(bytes: seq<byte>) | Num(value: int) | Addr(a: byte, b: byte, c: byte, d: byte)

  /** The parts of a format: %s, %d, %I, %n, %% and single characters. */
  datatype Part = PStr | PNum | PAddr | PCount | PPercent | PChar(c: byte)

  function Parts(f: seq<byte>): seq<Part> {
    if f == [] then []
    else if |f| > 1 && f[0] == PERCENT && Letter(f[1]) != PChar(f[1]) then [Letter(f[1])] + Parts(f[2..])
    else [PChar(f[0])] + Parts(f[1..])
  }

  /** What a character means after a percent sign. */
  function Letter(c: byte): Part {
    if c == 115 then PStr else if c == 100 then PNum else if c == 73 then PAddr
    else if c == 110 then PCount else if c == PERCENT then PPercent else PChar(c)
  }

  // ---------------------------------------------------------------- characters

  predicate Digit(c: byte) {
    48 <= c <= 57
  }

  predicate Space(c: byte) {
    c == 32 || 9 <= c <= 13
  }

  predicate HexDigit(c: byte) {
    Digit(c) || 65 <= c <= 70 || 97 <= c <= 102
  }

  /** xvalue: the value of a hexadecimal digit. */
  function HexValue(c: byte): (v: byte)
    requires HexDigit(c)
    ensures v < 16
  {
    if c <= 57 then c - 48 else if c <= 70 then c - 55 else c - 87
  }

  function HexOf(v: byte): byte
    requires v < 16
  {
    if v < 10 then 48 + v else 55 + v
  }

  lemma HexRoundTrip(v: byte)
    requires v < 16
    ensures HexDigit(HexOf(v)) && HexValue(HexOf(v)) == v
  {
  }

  /** The characters that http_quote leaves alone: letters, digits and $-_.+!*'(), */
  predicate Plain(c: byte) {
    Digit(c) || 65 <= c <= 90 || 97 <= c <= 122 || c in {36, 45, 95, 46, 43, 33, 42, 39, 40, 41, 44}
  }

  // ---------------------------------------------------------------- what is printed

  function QuotedByte(c: byte): seq<byte> {
    if Plain(c) then [c] else [PERCENT, HexOf(c / 16), HexOf(c % 16)]
  }

  function Quoted(s: seq<byte>): seq<byte> {
    if s == [] then [] else QuotedByte(s[0]) + Quoted(s[1..])
  }

  function Decimal(n: nat): (s: seq<byte>)
    ensures s != [] && Digit(s[0])
  {
    if n < 10 then [48 + n] else Decimal(n / 10) + [48 + n % 10]
  }

  function PrintedNum(n: int): seq<byte> {
    if n < 0 then [MINUS] + Decimal(-n) else Decimal(n)
  }

  function PrintedAddr(a: byte, b: byte, c: byte, d: byte): seq<byte> {
    Decimal(a) + ([DOT] + (Decimal(b) + ([DOT] + (Decimal(c) + ([DOT] + Decimal(d))))))
  }

  predicate TakesArg(p: Part) {
    p.PStr? || p.PNum? || p.PAddr?
  }

  predicate Fits(p: Part, a: Arg) {
    (p.PStr? && a.Str?) || (p.PNum? && a.Num?) || (p.PAddr? && a.Addr?)
  }

  /** The arguments are those that the format asks for. */
  predicate Matches(ps: seq<Part>, args: seq<Arg>) {
    if ps == [] then args == []
    else if TakesArg(ps[0]) then args != [] && Fits(ps[0], args[0]) && Matches(ps[1..], args[1..])
    else Matches(ps[1..], args)
  }

  function PrintedArg(a: Arg): seq<byte> {
    match a
    case Str(bytes) => Quoted(bytes)
    case Num(value) => PrintedNum(value)
    case Addr(a, b, c, d) => PrintedAddr(a, b, c, d)
  }

  /** The characters of a part that takes no argument; %n means nothing when printing. */
  function PrintedPart(p: Part): seq<byte>
    requires !TakesArg(p)
  {
    match p
    case PCount => [PERCENT, 110]
    case PPercent => [PERCENT]
    case PChar(c) => [c]
  }

  function Printed(ps: seq<Part>, args: seq<Arg>): seq<byte>
    requires Matches(ps, args)
  {
    if ps == [] then []
    else if TakesArg(ps[0]) then PrintedArg(args[0]) + Printed(ps[1..], args[1..])
    else PrintedPart(ps[0]) + Printed(ps[1..], args)
  }

  // ---------------------------------------------------------------- what is read

  datatype Option<T> = None | Some(value: T)

  /** %s: everything up to the next blank, with the quotes undone. */
  function TakeStr(s: seq<byte>): (r: (seq<byte>, seq<byte>))
    ensures |r.1| <= |s|
  {
    if s == [] || Space(s[0]) then ([], s)
    else if s[0] == PERCENT && |s| > 2 && HexDigit(s[1]) && HexDigit(s[2]) then
      var (v, rest) := TakeStr(s[3..]);
      ([16 * HexValue(s[1]) + HexValue(s[2])] + v, rest)
    else
      var (v, rest) := TakeStr(s[1..]);
      ([s[0]] + v, rest)
  }

  /** The loop of %d with its guard against overflow. */
  function NumLoop(value: nat, s: seq<byte>): (r: (nat, seq<byte>))
    ensures |r.1| <= |s|
    decreases |s|
  {
    if s != [] && Digit(s[0]) && value < (INT_MAX - (s[0] - 48)) / 10 then NumLoop(10 * value + (s[0] - 48), s[1..])
    else (value, s)
  }

  function TakeNum(s: seq<byte>): Option<(nat, seq<byte>)> {
    if s == [] || !Digit(s[0]) then None
    else
      var (v, rest) := NumLoop(0, s);
      if rest != [] && Digit(rest[0]) then None else Some((v, rest))
  }

  /** The loop of %I over one of the four numbers. */
  function ByteLoop(x: int, s: seq<byte>): (r: (int, seq<byte>))
    ensures |r.1| <= |s|
    decreases |s|
  {
    if s != [] && Digit(s[0]) && x <= 255 then ByteLoop((if x < 0 then 0 else 10 * x) + (s[0] - 48), s[1..])
    else (x, s)
  }

  /** One of the four numbers of %I; a dot has to follow unless it is the last. */
  function TakeByte(s: seq<byte>, last: bool): Option<(byte, seq<byte>)> {
    var (x, rest) := ByteLoop(-1, s);
    if x < 0 || x > 255 || (!last && (rest == [] || rest[0] != DOT)) then None
    else Some((x, if last then rest else rest[1..]))
  }

  function TakeAddr(s: seq<byte>): Option<(Arg, seq<byte>)> {
    var a := TakeByte(s, false);
    if a.None? then None
    else
      var b := TakeByte(a.value.1, false);
      if b.None? then None
      else
        var c := TakeByte(b.value.1, false);
        if c.None? then None
        else
          var d := TakeByte(c.value.1, true);
          if d.None? then None else Some((Addr(a.value.0, b.value.0, c.value.0, d.value.0), d.value.1))
  }

  function SkipSpaces(s: seq<byte>): (r: seq<byte>)
    ensures |r| <= |s|
  {
    if s != [] && Space(s[0]) then SkipSpaces(s[1..]) else s
  }

  function SkipBlankParts(ps: seq<Part>): (r: seq<Part>)
    ensures |r| <= |ps|
  {
    if ps != [] && ps[0].PChar? && Space(ps[0].c) then SkipBlankParts(ps[1..]) else ps
  }

  /** What the scan of s by a format yields: whether it gets through the whole format, and the
      values it stores. at is the number of characters before s. */
  function Scanned(ps: seq<Part>, s: seq<byte>, at: nat): (bool, seq<Arg>)
    decreases |ps|
  {
    if ps == [] then (true, [])
    else
      match ps[0]
      case PStr =>
        var (v, rest) := TakeStr(s);
        Stored(Str(v), Scanned(ps[1..], rest, at + |s| - |rest|))
      case PNum =>
        var r := TakeNum(s);
        if r.None? then (false, []) else Stored(Num(r.value.0), Scanned(ps[1..], r.value.1, Advance(at, s, r.value.1)))
      case PAddr =>
        var r := TakeAddr(s);
        if r.None? then (false, []) else Stored(r.value.0, Scanned(ps[1..], r.value.1, Advance(at, s, r.value.1)))
      case PCount => Stored(Num(at), Scanned(ps[1..], s, at))
      case PPercent => if s == [] || s[0] != PERCENT then (false, []) else Scanned(ps[1..], s[1..], at + 1)
      case PChar(c) =>
        if Space(c) then
          if s == [] || !Space(s[0]) then (false, [])
          else Scanned(SkipBlankParts(ps[1..]), SkipSpaces(s), at + |s| - |SkipSpaces(s)|)
        else if s == [] || s[0] != c then (false, []) else Scanned(ps[1..], s[1..], at + 1)
  }

  function Advance(at: nat, s: seq<byte>, rest: seq<byte>): nat {
    if |rest| <= |s| then at + |s| - |rest| else at
  }

  function Stored(a: Arg, r: (bool, seq<Arg>)): (bool, seq<Arg>) {
    (r.0, [a] + r.1)
  }

  // ---------------------------------------------------------------- each conversion undoes its printing

  predicate NoDigitNext(rest: seq<byte>) {
    rest == [] || !Digit(rest[0])
  }

  lemma QuotedByteIsNoSpace(c: byte)
    ensures QuotedByte(c) != [] && !Space(QuotedByte(c)[0])
  {
  }

  lemma HexPair(c: byte)
    ensures HexDigit(HexOf(c / 16)) && HexDigit(HexOf(c % 16)) && 16 * HexValue(HexOf(c / 16)) + HexValue(HexOf(c % 16)) == c
  {
    HexRoundTrip(c / 16);
    HexRoundTrip(c % 16);
    hide HexDigit, HexValue, HexOf;
  }

  lemma EscapeTaken(x: byte, y: byte, tail: seq<byte>)
    requires HexDigit(x) && HexDigit(y)
    ensures TakeStr([PERCENT, x, y] + tail) == ([16 * HexValue(x) + HexValue(y)] + TakeStr(tail).0, TakeStr(tail).1)
  {
    hide HexDigit, HexValue;
    var s := [PERCENT, x, y] + tail;
    assert s[0] == PERCENT && s[1] == x && s[2] == y && s[3..] == tail;
  }

  lemma QuotedByteTaken(c: byte, tail: seq<byte>)
    ensures TakeStr(QuotedByte(c) + tail) == ([c] + TakeStr(tail).0, TakeStr(tail).1)
  {
    if Plain(c) {
      var s := QuotedByte(c) + tail;
      assert s[0] == c && s[1..] == tail;
    } else {
      hide TakeStr, HexOf, HexValue, HexDigit;
      HexPair(c);
      EscapeTaken(HexOf(c / 16), HexOf(c % 16), tail);
    }
  }

  /** Quoting and reading a string, byte by byte. */
  lemma {:induction false} StrRoundTrip(v: seq<byte>, rest: seq<byte>)
    requires rest == [] || Space(rest[0])
    ensures TakeStr(Quoted(v) + rest) == (v, rest)
  {
    hide QuotedByte;
    if v == [] {
      assert Quoted(v) + rest == rest;
    } else {
      StrRoundTrip(v[1..], rest);
      var tail := Quoted(v[1..]) + rest;
      assert Quoted(v) + rest == QuotedByte(v[0]) + tail;
      hide TakeStr;
      QuotedByteTaken(v[0], tail);
      assert [v[0]] + v[1..] == v;
    }
  }

  // ---------------------------------------------------------------- what the characters are

  predicate HexFor(c: byte, v: nat) {
    v < 16 && (c == "0123456789abcdef"[v] as int || c == "0123456789ABCDEF"[v] as int)
  }

  predicate White(c: byte) {
    c in {' ' as int, '\t' as int, '\n' as int, 11, 12, '\r' as int}
  }

  /** A hexadecimal digit is one of twenty-two characters; a letter may be of either case. */
  lemma HexValueExact(c: byte, v: nat)
    ensures HexFor(c, v) <==> HexDigit(c) && HexValue(c) == v
  {
    if HexDigit(c) {
      assert v == HexValue(c) ==> HexFor(c, v);
    }
  }

  lemma WhiteExact(c: byte)
    ensures White(c) <==> Space(c)
  {
  }

  /** A string written out: every byte as it is, unless it is a percent sign or white space, or as an
      escape with digits of either case. */
  predicate Spells(s: seq<byte>, v: seq<byte>)
    decreases v
  {
    if v == [] then s == []
    else
      || (s != [] && s[0] == v[0] && !White(s[0]) && s[0] != '%' as int && Spells(s[1..], v[1..]))
      || (|s| > 2 && s[0] == '%' as int && HexFor(s[1], v[0] / 16) && HexFor(s[2], v[0] % 16) && Spells(s[3..], v[1..]))
  }

  /** %s reads whatever is written so, up to the next white space. */
  lemma {:induction false} SpelledIsTaken(s: seq<byte>, v: seq<byte>, rest: seq<byte>)
    requires Spells(s, v) && (rest == [] || White(rest[0]))
    ensures TakeStr(s + rest) == (v, rest)
    decreases v
  {
    hide HexFor, HexDigit, HexValue;
    if v == [] {
      if rest != [] {
        WhiteExact(rest[0]);
      }
      assert s + rest == rest;
    } else {
      assert [v[0]] + v[1..] == v;
      WhiteExact(s[0]);
      if s[0] == '%' as int {
        var tail := s[3..] + rest;
        SpelledIsTaken(s[3..], v[1..], rest);
        HexValueExact(s[1], v[0] / 16);
        HexValueExact(s[2], v[0] % 16);
        assert s + rest == [PERCENT, s[1], s[2]] + tail;
        hide TakeStr;
        EscapeTaken(s[1], s[2], tail);
      } else {
        var tail := s[1..] + rest;
        SpelledIsTaken(s[1..], v[1..], rest);
        assert s + rest == [s[0]] + tail && (s + rest)[1..] == tail;
      }
    }
  }

  /** What http_quote writes for a byte. */
  lemma QuotedExact(c: byte)
    ensures ('A' as int <= c <= 'Z' as int || 'a' as int <= c <= 'z' as int || '0' as int <= c <= '9' as int ||
             exists k :: 0 <= k < 11 && "$-_.+!*'(),"[k] as int == c) ==> QuotedByte(c) == [c]
    ensures !('A' as int <= c <= 'Z' as int || 'a' as int <= c <= 'z' as int || '0' as int <= c <= '9' as int ||
              exists k :: 0 <= k < 11 && "$-_.+!*'(),"[k] as int == c) ==>
              QuotedByte(c) == ['%' as int, "0123456789ABCDEF"[c / 16] as int, "0123456789ABCDEF"[c % 16] as int]
  {
    var signs := "$-_.+!*'(),";
    assert signs[0] == '$' && signs[1] == '-' && signs[2] == '_' && signs[3] == '.' && signs[4] == '+' && signs[5] == '!';
    assert signs[6] == '*' && signs[7] == '\'' && signs[8] == '(' && signs[9] == ')' && signs[10] == ',';
  }

  /** The parts of a format are what follows a percent sign, and single characters. */
  lemma PartsExact(f: seq<byte>, c: byte)
    ensures Parts(['%' as int, 's' as int] + f) == [PStr] + Parts(f)
    ensures Parts(['%' as int, 'd' as int] + f) == [PNum] + Parts(f)
    ensures Parts(['%' as int, 'I' as int] + f) == [PAddr] + Parts(f)
    ensures Parts(['%' as int, 'n' as int] + f) == [PCount] + Parts(f)
    ensures Parts(['%' as int, '%' as int] + f) == [PPercent] + Parts(f)
    ensures c != '%' as int ==> Parts([c] + f) == [PChar(c)] + Parts(f)
  {
    PartsSingle(c, f);
    hide Parts;
    PartsPair('s' as int, f);
    PartsPair('d' as int, f);
    PartsPair('I' as int, f);
    PartsPair('n' as int, f);
    PartsPair('%' as int, f);
  }

  lemma PartsSingle(c: byte, f: seq<byte>)
    ensures c != PERCENT ==> Parts([c] + f) == [PChar(c)] + Parts(f)
  {
    assert ([c] + f)[1..] == f;
  }

  lemma PartsPair(c: byte, f: seq<byte>)
    requires Letter(c) != PChar(c)
    ensures Parts([PERCENT, c] + f) == [Letter(c)] + Parts(f)
  {
    assert ([PERCENT, c] + f)[2..] == f;
  }

  /** What %d and %I print. */
  lemma PrintedExact(n: nat, d: nat, m: int, b1: byte, b2: byte, b3: byte, b4: byte)
    requires d < 10 && m < 0
    ensures Decimal(d) == ["0123456789"[d] as int]
    ensures n > 0 ==> Decimal(10 * n + d) == Decimal(n) + ["0123456789"[d] as int]
    ensures PrintedArg(Num(n)) == Decimal(n)
    ensures PrintedArg(Num(m)) == ['-' as int] + Decimal(-m)
    ensures PrintedArg(Addr(b1, b2, b3, b4)) ==
            Decimal(b1) + ['.' as int] + Decimal(b2) + ['.' as int] + Decimal(b3) + ['.' as int] + Decimal(b4)
  {
    hide Decimal;
    assert (10 * n + d) / 10 == n && (10 * n + d) % 10 == d;
    DecimalStep(10 * n + d);
    DecimalStep(d);
    assert Decimal(b1) + ['.' as int] + Decimal(b2) + ['.' as int] + Decimal(b3) + ['.' as int] + Decimal(b4) == PrintedAddr(b1, b2, b3, b4);
  }

  lemma DecimalStep(n: nat)
    ensures Decimal(n) == if n < 10 then [48 + n] else Decimal(n / 10) + [48 + n % 10]
  {
  }

  // ---------------------------------------------------------------- numbers

  predicate AllDigits(s: seq<byte>) {
    forall k :: 0 <= k < |s| ==> '0' as int <= s[k] <= '9' as int
  }

  /** The number that digits stand for, leading zeros or not. */
  function ValueOf(s: seq<byte>): nat
    requires AllDigits(s)
  {
    if s == [] then 0 else 10 * ValueOf(s[..|s| - 1]) + (s[|s| - 1] - '0' as int)
  }

  /** %d prints digits that stand for the number. */
  lemma {:induction false} DecimalValue(n: nat)
    ensures AllDigits(Decimal(n)) && ValueOf(Decimal(n)) == n
  {
    if n < 10 {
      assert Decimal(n)[..0] == [];
    } else {
      DecimalValue(n / 10);
      assert Decimal(n)[..|Decimal(n)| - 1] == Decimal(n / 10);
    }
  }

  /** %d reads any digits, unless they stand for more than 2147483637. */
  lemma DigitsExact(s: seq<byte>, rest: seq<byte>)
    requires s != [] && AllDigits(s) && NoDigitNext(rest)
    ensures TakeNum(s + rest) == if ValueOf(s) <= 2147483637 then Some((ValueOf(s), rest)) else None
  {
    NumLoopExact(s, rest);
    assert (s + rest)[0] == s[0];
  }

  /** %I reads any digits as one of its numbers, unless they stand for more than 255. */
  lemma ByteExact(s: seq<byte>, rest: seq<byte>, last: bool)
    requires s != [] && AllDigits(s) && NoDigitNext(rest)
    ensures TakeByte(s + rest, true) == if ValueOf(s) <= 255 then Some((ValueOf(s), rest)) else None
    ensures TakeByte(s + rest, false) ==
            if ValueOf(s) <= 255 && rest != [] && rest[0] == '.' as int then Some((ValueOf(s), rest[1..])) else None
  {
    ByteLoopExact(s, rest);
  }

  /** The guard of %d takes the digits of a number exactly if it is at most INT_MAX - 10. */
  lemma {:induction false} NumLoopExact(s: seq<byte>, rest: seq<byte>)
    requires AllDigits(s)
    ensures ValueOf(s) <= INT_MAX - 10 ==> NumLoop(0, s + rest) == NumLoop(ValueOf(s), rest)
    ensures ValueOf(s) > INT_MAX - 10 ==> NumLoop(0, s + rest).1 != [] && Digit(NumLoop(0, s + rest).1[0])
    decreases |s|
  {
    if s == [] {
      assert s + rest == rest;
    } else {
      var first, d := s[..|s| - 1], s[|s| - 1];
      var next := [d] + rest;
      assert s + rest == first + next;
      NumLoopExact(first, next);
      assert next[0] == d && next[1..] == rest;
      assert ValueOf(first) < (INT_MAX - (d - 48)) / 10 <==> ValueOf(s) <= INT_MAX - 10;
    }
  }

  /** Of the numbers that %d prints, exactly those from 0 to 2147483637 are read back. */
  lemma NumExact(n: int, rest: seq<byte>)
    requires NoDigitNext(rest)
    ensures 0 <= n <= 2147483637 ==> TakeNum(PrintedNum(n) + rest) == Some((n, rest))
    ensures n < 0 || n > 2147483637 ==> TakeNum(PrintedNum(n) + rest) == None
  {
    if n >= 0 {
      DecimalValue(n);
      DigitsExact(Decimal(n), rest);
    } else {
      assert (PrintedNum(n) + rest)[0] == MINUS;
    }
  }

  lemma {:induction false} ByteLoopExact(s: seq<byte>, rest: seq<byte>)
    requires s != [] && AllDigits(s)
    ensures ValueOf(s) <= 255 ==> ByteLoop(-1, s + rest) == ByteLoop(ValueOf(s), rest)
    ensures ValueOf(s) > 255 ==> ByteLoop(-1, s + rest).0 > 255
    decreases |s|
  {
    var first, d := s[..|s| - 1], s[|s| - 1];
    var next := [d] + rest;
    assert s + rest == first + next && next[0] == d && next[1..] == rest;
    if first == [] {
      assert s + rest == next && ValueOf(first) == 0;
    } else {
      ByteLoopExact(first, next);
    }
  }

  lemma ByteRoundTrip(n: byte, rest: seq<byte>, last: bool)
    requires if last then NoDigitNext(rest) else true
    ensures TakeByte(Decimal(n) + (if last then rest else [DOT] + rest), last) == Some((n, rest))
  {
    DecimalValue(n);
    ByteExact(Decimal(n), if last then rest else [DOT] + rest, last);
    assert ([DOT] + rest)[1..] == rest;
  }

  lemma AddrRoundTrip(a: byte, b: byte, c: byte, d: byte, rest: seq<byte>)
    requires NoDigitNext(rest)
    ensures TakeAddr(PrintedAddr(a, b, c, d) + rest) == Some((Addr(a, b, c, d), rest))
  {
    hide TakeByte, Decimal;
    var s3 := Decimal(d) + rest;
    var s2 := Decimal(c) + ([DOT] + s3);
    var s1 := Decimal(b) + ([DOT] + s2);
    ByteRoundTrip(d, rest, true);
    ByteRoundTrip(c, s3, false);
    ByteRoundTrip(b, s2, false);
    ByteRoundTrip(a, s1, false);
    assert PrintedAddr(a, b, c, d) + rest == Decimal(a) + ([DOT] + s1);
  }

  // ---------------------------------------------------------------- whole messages

  /** The format lets the end of each converted value be found: %s is followed by a blank or the
      end, %d and %I by a character that is no digit, by %% or by the end; and there is no %n. */
  predicate Separated(ps: seq<Part>) {
    ps == [] || (
      Separated(ps[1..]) && !ps[0].PCount? &&
      (ps[0].PStr? ==> |ps| == 1 || (ps[1].PChar? && Space(ps[1].c))) &&
      (ps[0].PNum? || ps[0].PAddr? ==> |ps| == 1 || ps[1].PPercent? || (ps[1].PChar? && !Digit(ps[1].c))))
  }

  /** Strings are not empty and have no NUL in them, numbers are in the range of the guard. */
  predicate GoodArg(a: Arg) {
    match a
    case Str(bytes) => bytes != [] && 0 !in bytes
    case Num(value) => 0 <= value <= 2147483637
    case Addr(_, _, _, _) => true
  }

  lemma FirstIsNoSpace(a: Arg)
    requires GoodArg(a)
    ensures PrintedArg(a) != [] && !Space(PrintedArg(a)[0])
  {
    match a
    case Str(bytes) => QuotedByteIsNoSpace(bytes[0]);
    case Num(value) =>
    case Addr(x, _, _, _) => assert PrintedAddr(x, a.b, a.c, a.d)[0] == Decimal(x)[0];
  }

  /** The blanks of the format and the blanks that it printed are skipped together. */
  lemma {:induction false} BlanksTogether(ps: seq<Part>, args: seq<Arg>)
    requires Matches(ps, args) && forall k :: 0 <= k < |args| ==> GoodArg(args[k])
    ensures Matches(SkipBlankParts(ps), args)
    ensures SkipSpaces(Printed(ps, args)) == Printed(SkipBlankParts(ps), args)
  {
    if ps != [] {
      if ps[0].PChar? && Space(ps[0].c) {
        BlanksTogether(ps[1..], args);
        assert Printed(ps, args)[0] == ps[0].c && Printed(ps, args)[1..] == Printed(ps[1..], args);
      } else if TakesArg(ps[0]) {
        FirstIsNoSpace(args[0]);
        assert Printed(ps, args)[0] == PrintedArg(args[0])[0];
      } else {
        assert Printed(ps, args)[0] == PrintedPart(ps[0])[0];
      }
    }
  }

  lemma {:induction false} SeparatedTail(ps: seq<Part>)
    requires Separated(ps)
    ensures Separated(SkipBlankParts(ps))
  {
    if ps != [] && ps[0].PChar? && Space(ps[0].c) {
      SeparatedTail(ps[1..]);
    }
  }

  lemma NextCharacter(ps: seq<Part>, args: seq<Arg>)
    requires Separated(ps) && ps != [] && Matches(ps, args) && TakesArg(ps[0])
    ensures ps[0].PStr? ==> Printed(ps[1..], args[1..]) == [] || Space(Printed(ps[1..], args[1..])[0])
    ensures !ps[0].PStr? ==> NoDigitNext(Printed(ps[1..], args[1..]))
  {
    if |ps| > 1 {
      assert ps[1..][0] == ps[1];
    }
  }

  /** A value is read back and the scan goes on behind it. */
  lemma ArgCase(ps: seq<Part>, tail: seq<Part>, args: seq<Arg>, at: nat)
    requires Separated(ps) && ps != [] && Matches(ps, args) && TakesArg(ps[0]) && GoodArg(args[0])
    ensures Scanned(ps + tail, Printed(ps, args), at) ==
            Stored(args[0], Scanned(ps[1..] + tail, Printed(ps[1..], args[1..]), at + |PrintedArg(args[0])|))
  {
    hide TakeStr, TakeNum, TakeAddr, Quoted, PrintedNum, PrintedAddr, SkipSpaces, Stored;
    var s, rest := Printed(ps, args), Printed(ps[1..], args[1..]);
    NextCharacter(ps, args);
    assert s == PrintedArg(args[0]) + rest && (ps + tail)[0] == ps[0] && (ps + tail)[1..] == ps[1..] + tail;
    if ps[0].PStr? {
      StrRoundTrip(args[0].bytes, rest);
    } else if ps[0].PNum? {
      NumExact(args[0].value, rest);
    } else {
      AddrRoundTrip(args[0].a, args[0].b, args[0].c, args[0].d, rest);
    }
  }

  /** A sign is matched. */
  lemma SignCase(ps: seq<Part>, tail: seq<Part>, args: seq<Arg>, at: nat)
    requires Separated(ps) && ps != [] && Matches(ps, args) && !TakesArg(ps[0]) && (ps[0].PChar? ==> !Space(ps[0].c))
    ensures Scanned(ps + tail, Printed(ps, args), at) == Scanned(ps[1..] + tail, Printed(ps[1..], args), at + 1)
    ensures |Printed(ps, args)| == 1 + |Printed(ps[1..], args)|
  {
    hide PrintedArg, Scanned;
    SignScanned(ps[0], ps[1..] + tail, Printed(ps[1..], args), at);
    assert [ps[0]] + (ps[1..] + tail) == ps + tail;
  }

  lemma SignScanned(p: Part, ps: seq<Part>, s: seq<byte>, at: nat)
    requires p == PPercent || (p.PChar? && !Space(p.c))
    ensures Scanned([p] + ps, PrintedPart(p) + s, at) == Scanned(ps, s, at + 1)
  {
    hide Space;
    assert ([p] + ps)[1..] == ps && (PrintedPart(p) + s)[1..] == s;
  }

  /** White space of the format stands for any white space in the text. */
  lemma BlankCase(ps: seq<Part>, s: seq<byte>, at: nat)
    requires ps != [] && ps[0].PChar? && White(ps[0].c)
    ensures Scanned(ps, s, at) ==
            if s == [] || !White(s[0]) then (false, []) else Scanned(SkipBlankParts(ps), SkipSpaces(s), at + |s| - |SkipSpaces(s)|)
  {
    WhiteExact(ps[0].c);
    if s != [] {
      WhiteExact(s[0]);
    }
  }

  lemma {:induction false} BlanksBefore(ps: seq<Part>, tail: seq<Part>)
    requires tail == [] || !tail[0].PChar?
    ensures SkipBlankParts(ps + tail) == SkipBlankParts(ps) + tail
  {
    if ps == [] {
      assert ps + tail == tail && SkipBlankParts(ps) + tail == tail;
    } else {
      BlanksBefore(ps[1..], tail);
      assert (ps + tail)[0] == ps[0] && (ps + tail)[1..] == ps[1..] + tail;
    }
  }

  function Prefixed(args: seq<Arg>, r: (bool, seq<Arg>)): (bool, seq<Arg>) {
    (r.0, args + r.1)
  }

  /** Scanning what was printed with the same format gives the arguments back, and goes on at its end. */
  lemma {:induction false} MessageRead(ps: seq<Part>, tail: seq<Part>, args: seq<Arg>, at: nat)
    requires Separated(ps) && Matches(ps, args) && forall k :: 0 <= k < |args| ==> GoodArg(args[k])
    requires tail == [] || !tail[0].PChar?
    ensures Scanned(ps + tail, Printed(ps, args), at) == Prefixed(args, Scanned(tail, [], at + |Printed(ps, args)|))
    decreases |ps|
  {
    hide Scanned, PrintedArg, SkipSpaces, GoodArg;
    var s := Printed(ps, args);
    if ps == [] {
      assert ps + tail == tail && args == [] && args + Scanned(tail, [], at).1 == Scanned(tail, [], at).1;
    } else if TakesArg(ps[0]) {
      ArgCase(ps, tail, args, at);
      MessageRead(ps[1..], tail, args[1..], at + |PrintedArg(args[0])|);
      var r := Scanned(tail, [], at + |s|);
      assert [args[0]] + (args[1..] + r.1) == args + r.1;
    } else if ps[0].PChar? && Space(ps[0].c) {
      BlanksTogether(ps, args);
      SeparatedTail(ps);
      WhiteExact(ps[0].c);
      PrintedBlank(ps, args);
      BlankCase(ps + tail, s, at);
      BlanksBefore(ps, tail);
      MessageRead(SkipBlankParts(ps), tail, args, at + |s| - |SkipSpaces(s)|);
    } else {
      SignCase(ps, tail, args, at);
      MessageRead(ps[1..], tail, args, at + 1);
    }
  }

  lemma PrintedBlank(ps: seq<Part>, args: seq<Arg>)
    requires ps != [] && ps[0].PChar? && Space(ps[0].c) && Matches(ps, args)
    ensures Printed(ps, args) != [] && White(Printed(ps, args)[0]) && |SkipBlankParts(ps)| < |ps|
  {
    WhiteExact(ps[0].c);
  }

  /** Scanning what was printed with the same format gives the arguments back; a %n at the end gives the
      number of characters. */
  lemma MessageRoundTrip(ps: seq<Part>, args: seq<Arg>, at: nat)
    requires Separated(ps) && Matches(ps, args) && forall k :: 0 <= k < |args| ==> GoodArg(args[k])
    ensures Scanned(ps, Printed(ps, args), at) == (true, args)
    ensures Scanned(ps + [PCount], Printed(ps, args), at) == (true, args + [Num(at + |Printed(ps, args)|)])
  {
    MessageRead(ps, [], args, at);
    MessageRead(ps, [PCount], args, at);
    assert ps + [] == ps && args + [] == args && [PCount][1..] == [];
    assert [Num(at + |Printed(ps, args)|)] + [] == [Num(at + |Printed(ps, args)|)];
  }

  /** Any white space is skipped for any white space of the format. */
  lemma {:induction false} AnyWhite(ws: seq<byte>, rest: seq<byte>)
    requires (forall k :: 0 <= k < |ws| ==> White(ws[k])) && (rest == [] || !White(rest[0]))
    ensures SkipSpaces(ws + rest) == rest
  {
    if ws == [] {
      assert ws + rest == rest;
      if rest != [] {
        WhiteExact(rest[0]);
      }
    } else {
      WhiteExact(ws[0]);
      AnyWhite(ws[1..], rest);
      assert (ws + rest)[1..] == ws[1..] + rest;
    }
  }

  /** The scan stops with a failure where the text is not what the format asks for. */
  lemma MismatchFails(p: Part, ps: seq<Part>, s: seq<byte>, at: nat)
    requires p.PChar? && p.c != '%' as int && !White(p.c) ==> s == [] || s[0] != p.c
    requires p == PPercent ==> s == [] || s[0] != '%' as int
    requires p == PNum || p == PAddr ==> s == [] || !('0' as int <= s[0] <= '9' as int)
    requires p.PChar? && White(p.c) ==> s == [] || !White(s[0])
    requires p != PStr && p != PCount && p != PChar('%' as int)
    ensures Scanned([p] + ps, s, at) == (false, [])
  {
    if p.PChar? {
      WhiteExact(p.c);
    }
    if s != [] {
      WhiteExact(s[0]);
    }
  }
}
