/** http_quote, osp2p_writef and osp2p_vsnscanf (lab4/writescan.c) as they walk over strings. */
module MessageScan {
  import opened MessageFormat

  /** The part of a string from an index on. */
  lemma Tail(s: seq<byte>, i: nat)
    requires i < |s|
    ensures s[i..] != [] && s[i..][0] == s[i] && s[i..][1..] == s[i + 1..]
    ensures i + 1 < |s| ==> |s[i..]| > 1 && s[i..][1] == s[i + 1] && s[i..][2..] == s[i + 2..]
    ensures i + 2 < |s| ==> |s[i..]| > 2 && s[i..][2] == s[i + 2] && s[i..][3..] == s[i + 3..]
    ensures |s[i..]| == |s| - i
  {
  }

  // ---------------------------------------------------------------- writing

  lemma QuotedStep(s: seq<byte>, i: nat)
    requires i < |s|
    ensures Quoted(s[i..]) == QuotedByte(s[i]) + Quoted(s[i + 1..])
  {
    Tail(s, i);
    hide QuotedByte;
  }

  method HttpQuote(s: seq<byte>) returns (os: seq<byte>)
    ensures os == Quoted(s)
  {
    hide Quoted, HexOf, Plain;
    os := [];
    var i := 0;
    assert s[0..] == s;
    while i < |s|
      invariant i <= |s| && os + Quoted(s[i..]) == Quoted(s)
    {
      QuotedStep(s, i);
      if Plain(s[i]) {
        os := os + [s[i]];
      } else {
        os := os + [PERCENT, HexOf(s[i] / 16), HexOf(s[i] % 16)];
      }
      i := i + 1;
    }
    NothingQuoted(s[i..]);
  }

  lemma NothingQuoted(s: seq<byte>)
    requires s == []
    ensures Quoted(s) == []
  {
  }

  /** The character behind the one at i, or NUL at the end of the string. */
  function Next(f: seq<byte>, i: nat): byte
    requires i < |f|
  {
    if i + 1 < |f| then f[i + 1] else 0
  }

  lemma PrintedStep(f: seq<byte>, i: nat, args: seq<Arg>)
    requires i < |f| && Matches(Parts(f[i..]), args)
    ensures f[i] == PERCENT && Next(f, i) in {115, 100, 73} ==>
              i + 2 <= |f| && args != [] && Fits(Letter(Next(f, i)), args[0]) && Matches(Parts(f[i + 2..]), args[1..]) &&
              Printed(Parts(f[i..]), args) == PrintedArg(args[0]) + Printed(Parts(f[i + 2..]), args[1..])
    ensures f[i] == PERCENT && Next(f, i) == PERCENT ==>
              i + 2 <= |f| && Matches(Parts(f[i + 2..]), args) && Printed(Parts(f[i..]), args) == [PERCENT] + Printed(Parts(f[i + 2..]), args)
    ensures !(f[i] == PERCENT && Next(f, i) in {115, 100, 73, PERCENT}) ==>
              Matches(Parts(f[i + 1..]), args) && Printed(Parts(f[i..]), args) == [f[i]] + Printed(Parts(f[i + 1..]), args)
  {
    hide PrintedArg;
    Tail(f, i);
    if f[i] == PERCENT && Next(f, i) == 110 {
      Tail(f, i + 1);
      assert Parts(f[i + 1..]) == [PChar(110)] + Parts(f[i + 2..]);
      assert Printed(Parts(f[i + 1..]), args) == [110] + Printed(Parts(f[i + 2..]), args);
    }
  }

  /** The command string that osp2p_writef develops. */
  method Writef(format: seq<byte>, args: seq<Arg>) returns (buf: seq<byte>)
    requires Matches(Parts(format), args)
    ensures buf == Printed(Parts(format), args)
  {
    hide Parts, Printed, Matches, PrintedNum, PrintedAddr, Quoted;
    buf := [];
    var i, k := 0, 0;
    assert format[0..] == format && args[0..] == args;
    while i < |format|
      invariant i <= |format| && k <= |args| && Matches(Parts(format[i..]), args[k..])
      invariant buf + Printed(Parts(format[i..]), args[k..]) == Printed(Parts(format), args)
    {
      PrintedStep(format, i, args[k..]);
      assert k < |args| ==> args[k..][0] == args[k] && args[k..][1..] == args[k + 1..];
      if format[i] == PERCENT && Next(format, i) == 115 {
        var quoted := HttpQuote(args[k].bytes);
        buf := buf + quoted;
        i, k := i + 2, k + 1;
      } else if format[i] == PERCENT && Next(format, i) == 100 {
        buf := buf + PrintedNum(args[k].value);
        i, k := i + 2, k + 1;
      } else if format[i] == PERCENT && Next(format, i) == 73 {
        buf := buf + PrintedAddr(args[k].a, args[k].b, args[k].c, args[k].d);
        i, k := i + 2, k + 1;
      } else if format[i] == PERCENT && Next(format, i) == PERCENT {
        buf := buf + [PERCENT];
        i := i + 2;
      } else {
        buf := buf + [format[i]];
        i := i + 1;
      }
    }
    NothingToPrint(format[i..], args[k..]);
  }

  lemma NothingToPrint(f: seq<byte>, args: seq<Arg>)
    requires f == [] && Matches(Parts(f), args)
    ensures Printed(Parts(f), args) == []
  {
  }

  // ---------------------------------------------------------------- reading

  lemma TakeStrStep(s: seq<byte>, i: nat)
    requires i < |s|
    ensures Space(s[i]) ==> TakeStr(s[i..]) == ([], s[i..])
    ensures !Space(s[i]) && s[i] == PERCENT && i + 2 < |s| && HexDigit(s[i + 1]) && HexDigit(s[i + 2]) ==>
              TakeStr(s[i..]) == ([16 * HexValue(s[i + 1]) + HexValue(s[i + 2])] + TakeStr(s[i + 3..]).0, TakeStr(s[i + 3..]).1)
    ensures !Space(s[i]) && !(s[i] == PERCENT && i + 2 < |s| && HexDigit(s[i + 1]) && HexDigit(s[i + 2])) ==>
              TakeStr(s[i..]) == ([s[i]] + TakeStr(s[i + 1..]).0, TakeStr(s[i + 1..]).1)
  {
    hide HexDigit, HexValue, Space;
    Tail(s, i);
  }

  lemma TakeNothing(s: seq<byte>)
    requires s == []
    ensures TakeStr(s) == ([], s)
  {
  }

  /** The loop of %s. */
  method ReadStr(s: seq<byte>, from: nat) returns (str: seq<byte>, i: nat)
    requires from <= |s|
    ensures from <= i <= |s| && TakeStr(s[from..]).0 == str && TakeStr(s[from..]).1 == s[i..]
  {
    hide TakeStr, HexDigit, HexValue, Space;
    str, i := [], from;
    while i < |s| && !Space(s[i])
      invariant from <= i <= |s|
      invariant TakeStr(s[from..]).0 == str + TakeStr(s[i..]).0 && TakeStr(s[from..]).1 == TakeStr(s[i..]).1
    {
      TakeStrStep(s, i);
      if s[i] == PERCENT && i + 2 < |s| && HexDigit(s[i + 1]) && HexDigit(s[i + 2]) {
        str := str + [16 * HexValue(s[i + 1]) + HexValue(s[i + 2])];
        i := i + 3;
      } else {
        str := str + [s[i]];
        i := i + 1;
      }
    }
    if i < |s| {
      TakeStrStep(s, i);
    } else {
      TakeNothing(s[i..]);
    }
  }

  /** %d. */
  method ReadNum(s: seq<byte>, from: nat) returns (ok: bool, value: nat, i: nat)
    requires from <= |s|
    ensures from <= i <= |s|
    ensures TakeNum(s[from..]) == if ok then Some((value, s[i..])) else None
  {
    value, i := 0, from;
    if from < |s| {
      Tail(s, from);
    }
    if i == |s| || !Digit(s[i]) {
      return false, 0, i;
    }
    while i < |s| && Digit(s[i]) && value < (INT_MAX - (s[i] - 48)) / 10
      invariant from <= i <= |s| && NumLoop(0, s[from..]) == NumLoop(value, s[i..])
    {
      Tail(s, i);
      value := 10 * value + (s[i] - 48);
      i := i + 1;
    }
    if i < |s| {
      Tail(s, i);
    }
    ok := !(i < |s| && Digit(s[i]));
  }

  /** One of the four numbers of %I, and the dot behind it. */
  method ReadByte(s: seq<byte>, from: nat, last: bool) returns (ok: bool, v: byte, i: nat)
    requires from <= |s|
    ensures from <= i <= |s|
    ensures TakeByte(s[from..], last) == if ok then Some((v, s[i..])) else None
  {
    var x: int := -1;
    i := from;
    while i < |s| && Digit(s[i]) && x <= 255
      invariant from <= i <= |s| && x >= -1 && ByteLoop(-1, s[from..]) == ByteLoop(x, s[i..])
    {
      Tail(s, i);
      x := (if x < 0 then 0 else 10 * x) + (s[i] - 48);
      i := i + 1;
    }
    if i < |s| {
      Tail(s, i);
    }
    if x < 0 || x > 255 || (!last && (i == |s| || s[i] != DOT)) {
      return false, 0, i;
    }
    return true, x, if last then i else i + 1;
  }

  /** %I. */
  method ReadAddr(s: seq<byte>, from: nat) returns (ok: bool, addr: Arg, i: nat)
    requires from <= |s|
    ensures from <= i <= |s|
    ensures TakeAddr(s[from..]) == if ok then Some((addr, s[i..])) else None
  {
    hide TakeByte;
    addr := Num(0);
    var a, b, c, d;
    ok, a, i := ReadByte(s, from, false);
    if !ok {
      return;
    }
    ok, b, i := ReadByte(s, i, false);
    if !ok {
      return;
    }
    ok, c, i := ReadByte(s, i, false);
    if !ok {
      return;
    }
    ok, d, i := ReadByte(s, i, true);
    addr := Addr(a, b, c, d);
  }

  method ReadSpaces(s: seq<byte>, from: nat) returns (i: nat)
    requires from <= |s|
    ensures from <= i <= |s| && SkipSpaces(s[from..]) == s[i..]
  {
    i := from;
    while i < |s| && Space(s[i])
      invariant from <= i <= |s| && SkipSpaces(s[from..]) == SkipSpaces(s[i..])
    {
      Tail(s, i);
      i := i + 1;
    }
    if i < |s| {
      Tail(s, i);
    }
  }

  /** The blanks of a format. */
  method SkipFormat(f: seq<byte>, from: nat) returns (i: nat)
    requires from <= |f|
    ensures from <= i <= |f| && SkipBlankParts(Parts(f[from..])) == Parts(f[i..])
  {
    hide Letter;
    i := from;
    while i < |f| && Space(f[i])
      invariant from <= i <= |f| && SkipBlankParts(Parts(f[from..])) == SkipBlankParts(Parts(f[i..]))
    {
      Tail(f, i);
      i := i + 1;
    }
    if i < |f| {
      Tail(f, i);
      NotBlank(f[i..]);
    }
  }

  lemma NotBlank(f: seq<byte>)
    requires f != [] && !Space(f[0])
    ensures SkipBlankParts(Parts(f)) == Parts(f)
  {
  }

  lemma FirstPart(f: seq<byte>, i: nat)
    requires i < |f|
    ensures Parts(f[i..]) != []
    ensures f[i] == PERCENT && Next(f, i) in {115, 100, 73, 110, PERCENT} ==>
              i + 2 <= |f| && Parts(f[i..])[0] == Letter(Next(f, i)) && Parts(f[i..])[1..] == Parts(f[i + 2..])
    ensures !(f[i] == PERCENT && Next(f, i) in {115, 100, 73, 110, PERCENT}) ==>
              Parts(f[i..])[0] == PChar(f[i]) && Parts(f[i..])[1..] == Parts(f[i + 1..])
  {
    Tail(f, i);
  }

  /** osp2p_vsnscanf: the values that it stores, and 0 if it gets through the whole format. */
  method Vsnscanf(s: seq<byte>, format: seq<byte>) returns (ret: int, vals: seq<Arg>)
    ensures ret == if Scanned(Parts(format), s, 0).0 then 0 else -1
    ensures vals == Scanned(Parts(format), s, 0).1
  {
    hide Parts, TakeStr, TakeNum, TakeAddr, SkipSpaces, SkipBlankParts;
    vals := [];
    var i, j := 0, 0;
    assert s[0..] == s && format[0..] == format;
    while i < |format|
      invariant i <= |format| && j <= |s|
      invariant Scanned(Parts(format), s, 0).0 == Scanned(Parts(format[i..]), s[j..], j).0
      invariant Scanned(Parts(format), s, 0).1 == vals + Scanned(Parts(format[i..]), s[j..], j).1
    {
      ghost var was := vals;
      var ok;
      ok, vals, i, j := ScanPart(s, j, format, i, vals);
      if !ok {
        return -1, vals;
      }
    }
    NoParts(format[i..]);
    ret := 0;
  }

  lemma NoParts(f: seq<byte>)
    requires f == []
    ensures Parts(f) == []
  {
  }

  lemma ScannedFirst(ps: seq<Part>, s: seq<byte>, at: nat)
    requires ps != []
    ensures ps[0].PStr? ==> Scanned(ps, s, at) == Stored(Str(TakeStr(s).0), Scanned(ps[1..], TakeStr(s).1, at + |s| - |TakeStr(s).1|))
    ensures ps[0].PNum? ==> Scanned(ps, s, at) == var r := TakeNum(s);
              if r.None? then (false, []) else Stored(Num(r.value.0), Scanned(ps[1..], r.value.1, Advance(at, s, r.value.1)))
    ensures ps[0].PAddr? ==> Scanned(ps, s, at) == var r := TakeAddr(s);
              if r.None? then (false, []) else Stored(r.value.0, Scanned(ps[1..], r.value.1, Advance(at, s, r.value.1)))
    ensures ps[0].PCount? ==> Scanned(ps, s, at) == Stored(Num(at), Scanned(ps[1..], s, at))
    ensures ps[0].PPercent? ==> Scanned(ps, s, at) == if s == [] || s[0] != PERCENT then (false, []) else Scanned(ps[1..], s[1..], at + 1)
  {
    hide TakeStr, TakeNum, TakeAddr, Stored, Advance, SkipSpaces, SkipBlankParts;
  }

  /** One round of the loop over the format. */
  method ScanPart(s: seq<byte>, j: nat, format: seq<byte>, i: nat, vals: seq<Arg>) returns (ok: bool, vals': seq<Arg>, i': nat, j': nat)
    requires i < |format| && j <= |s|
    ensures i < i' <= |format| && j <= j' <= |s|
    ensures !ok ==> vals' == vals && Scanned(Parts(format[i..]), s[j..], j) == (false, [])
    ensures ok ==> Scanned(Parts(format[i..]), s[j..], j).0 == Scanned(Parts(format[i'..]), s[j'..], j').0
    ensures ok ==> vals + Scanned(Parts(format[i..]), s[j..], j).1 == vals' + Scanned(Parts(format[i'..]), s[j'..], j').1
  {
    hide Parts, TakeStr, TakeNum, TakeAddr, SkipSpaces, SkipBlankParts, Scanned;
    FirstPart(format, i);
    ScannedFirst(Parts(format[i..]), s[j..], j);
    if j < |s| {
      Tail(s, j);
    }
    ok, vals', i', j' := true, vals, i + 1, j;
    if format[i] == PERCENT && Next(format, i) == 115 {
      var str;
      str, j' := ReadStr(s, j);
      vals', i' := vals + [Str(str)], i + 2;
    } else if format[i] == PERCENT && Next(format, i) == 73 {
      var addr;
      ok, addr, j' := ReadAddr(s, j);
      i' := i + 2;
      if ok {
        vals' := vals + [addr];
      }
    } else if format[i] == PERCENT && Next(format, i) == 100 {
      var value;
      ok, value, j' := ReadNum(s, j);
      i' := i + 2;
      if ok {
        vals' := vals + [Num(value)];
      }
    } else if format[i] == PERCENT && Next(format, i) == 110 {
      vals', i' := vals + [Num(j)], i + 2;
    } else if format[i] == PERCENT && Next(format, i) == PERCENT {
      i' := i + 2;
      if j == |s| || s[j] != PERCENT {
        ok := false;
      } else {
        j' := j + 1;
      }
    } else {
      ok, i', j' := ScanChar(s, j, format, i);
    }
  }

  /** One character of the format that is no conversion; white space stands for any white space. */
  method ScanChar(s: seq<byte>, j: nat, format: seq<byte>, i: nat) returns (ok: bool, i': nat, j': nat)
    requires i < |format| && j <= |s| && Parts(format[i..]) != [] && Parts(format[i..])[0] == PChar(format[i])
    requires Parts(format[i..])[1..] == Parts(format[i + 1..])
    ensures i < i' <= |format| && j <= j' <= |s|
    ensures !ok ==> Scanned(Parts(format[i..]), s[j..], j) == (false, [])
    ensures ok ==> Scanned(Parts(format[i..]), s[j..], j) == Scanned(Parts(format[i'..]), s[j'..], j')
  {
    hide Parts, TakeStr, TakeNum, TakeAddr, SkipSpaces, SkipBlankParts;
    if j < |s| {
      Tail(s, j);
    }
    ok, i', j' := true, i + 1, j;
    if Space(format[i]) {
      if j == |s| || !Space(s[j]) {
        ok := false;
      } else {
        j' := ReadSpaces(s, j);
        i' := SkipFormat(format, i + 1);
      }
    } else if j == |s| || s[j] != format[i] {
      ok := false;
    } else {
      j' := j + 1;
    }
  }

  /** Writing a message and scanning it with the same format stores the arguments again. */
  method WriteThenScan(format: seq<byte>, args: seq<Arg>) returns (buf: seq<byte>, ret: int, vals: seq<Arg>)
    requires Separated(Parts(format)) && Matches(Parts(format), args)
    requires forall k :: 0 <= k < |args| ==> GoodArg(args[k])
    ensures ret == 0 && vals == args
  {
    hide Parts, Printed, Matches, Separated, Scanned, GoodArg;
    buf := Writef(format, args);
    MessageRoundTrip(Parts(format), args, 0);
    ret, vals := Vsnscanf(buf, format);
  }
}
