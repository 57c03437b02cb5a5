/** make_command (project1/read-command.c): the operator-precedence parser of the shell, a
    machine with a stack of operators and a stack of commands. */
module CommandParser {
  import opened ShellCommand
  import opened CommandStack
  import opened CommandGrammar

  // ---------------------------------------------------------------- simple commands

  lemma {:induction false} WordsOfRun(run: string, rest: string)
    requires run != "" && NoBlank(run) && (rest == "" || Blank(rest[0]))
    ensures Words(run + rest) == [run] + Words(rest)
    decreases |run|
  {
    var text := run + rest;
    if |run| == 1 {
      assert text[1..] == rest && run == [text[0]];
    } else {
      WordsOfRun(run[1..], rest);
      assert text[1..] == run[1..] + rest && run == [run[0]] + run[1..];
    }
  }

  function Joined(words: seq<string>): string {
    if words == [] then "" else if |words| == 1 then words[0] else words[0] + " " + Joined(words[1..])
  }

  /** Words put together with blanks between them are found again. */
  lemma {:induction false} WordsOfJoined(words: seq<string>)
    requires forall k :: 0 <= k < |words| ==> words[k] != "" && NoBlank(words[k])
    ensures Words(Joined(words)) == words
  {
    if |words| == 1 {
      WordsOfRun(words[0], "");
      assert words[0] + "" == words[0];
    } else if words != [] {
      var rest := " " + Joined(words[1..]);
      WordsOfRun(words[0], rest);
      assert rest[1..] == Joined(words[1..]);
      WordsOfJoined(words[1..]);
      assert words[0] + rest == Joined(words);
    }
  }

  /** A blank or a tab separates words, and nothing else does. */
  lemma {:induction false} WordsApart(left: string, blank: char, right: string)
    requires blank == ' ' || blank == '\t'
    ensures Words(left + [blank] + right) == Words(left) + Words(right)
    decreases |left|
  {
    var text := left + [blank] + right;
    if left == "" {
      assert text == [blank] + right && text[1..] == right;
    } else {
      WordsApart(left[1..], blank, right);
      assert text[1..] == left[1..] + [blank] + right && text[0] == left[0];
      if |left| == 1 {
        assert left[1..] == "" && left == [left[0]];
      } else if !Blank(left[1]) {
        FirstWordGoesOn(left);
      }
    }
  }

  lemma FirstWordGoesOn(text: string)
    requires |text| > 1 && !Blank(text[1])
    ensures Words(text[1..]) != []
  {
    assert text[1..][0] == text[1];
  }

  lemma WordAlone(word: string)
    requires word != "" && forall k :: 0 <= k < |word| ==> word[k] != ' ' && word[k] != '\t'
    ensures Words(word) == [word]
  {
    WordsOfRun(word, "");
    assert word + "" == word;
  }

  lemma BlankSkipped(text: string)
    requires text != "" && Blank(text[0])
    ensures Words(text) == Words(text[1..])
  {
  }

  lemma NoWords()
    ensures Words("") == []
  {
  }

  /** Splits a command into its words. */
  method MakeSimpleCommand(token: string) returns (c: Command)
    requires Trimmed(token)
    ensures c == Simple(Words(token), None, None)
  {
    hide Words;
    var words: seq<string> := [];
    var i := 0;
    assert token[0..] == token;
    while i < |token|
      invariant i <= |token| && (i < |token| ==> !Blank(token[i]))
      invariant words + Words(token[i..]) == Words(token)
    {
      var start, word := i, "";
      while i < |token| && !Blank(token[i])
        invariant start <= i <= |token| && word == token[start..i] && NoBlank(word)
        invariant i == start ==> !Blank(token[i])
      {
        word := word + [token[i]];
        i := i + 1;
      }
      assert token[start..] == word + token[i..];
      WordsOfRun(word, token[i..]);
      words := words + [word];
      while i < |token| && Blank(token[i])
        invariant i <= |token| && words + Words(token[i..]) == Words(token)
      {
        assert token[i..][1..] == token[i + 1..];
        BlankSkipped(token[i..]);
        i := i + 1;
      }
    }
    NoWords();
    assert token[i..] == "";
    c := Simple(words, None, None);
  }

  // ---------------------------------------------------------------- operators

  /** oper_cmp, with its doubled negation. */
  function OperCmp(token: Token, oper: Token): int {
    if token == Op(Sequence) then (if oper == Op(Sequence) then 0 else -1)
    else if token == Op(And) || token == Op(Or) then
      (if oper == Op(Sequence) then 1 else if oper == Op(And) || oper != Op(Or) then 0 else -1)
    else if oper == Op(Sequence) || oper == Op(And) || oper == Op(Or) then 1
    else 0
  }

  /** The sign of oper_cmp that the parser looks at is right for all pairs of operators: ; is never above
      another one, && and || are above ; only, and | is above all but itself. */
  lemma OperCmpExact(t: Operator, o: Operator)
    ensures OperCmp(Op(t), Op(o)) <= 0 <==> Strength(t) <= Strength(o)
    ensures OperCmp(Op(t), Op(o)) <= 0 <==> t == Sequence || ((t == And || t == Or) && o != Sequence) || (t == Pipe && o == Pipe)
  {
  }

  // ---------------------------------------------------------------- what the stacks hold

  /** The commands on the stack stand for successive segments of the tokens, and the operators
      between them bind more and more strongly. */
  ghost predicate Stacked(ops: seq<Token>, cs: seq<Command>, segs: seq<seq<Token>>) {
    && |cs| == |segs| && |ops| <= |cs| <= |ops| + 1
    && (forall j :: 0 <= j < |ops| ==> ops[j].Op? && Strength(ops[j].op) <= RootStrength(cs[j]))
    && (forall j, k :: 0 <= j < k < |ops| ==> Strength(ops[j].op) < Strength(ops[k].op))
    && (forall j :: 0 <= j < |cs| ==> Parses(segs[j], cs[j]))
    && (forall j, k :: 0 <= j < |ops| && j < k < |cs| ==> Strength(ops[j].op) < RootStrength(cs[k]))
  }

  /** The segments with the operators between them. */
  ghost function Laid(ops: seq<Token>, segs: seq<seq<Token>>): seq<Token>
    requires |ops| <= |segs| <= |ops| + 1
    decreases |ops| + |segs|
  {
    if segs == [] then []
    else if |segs| == |ops| then Laid(ops[..|ops| - 1], segs) + [ops[|ops| - 1]]
    else Laid(ops, segs[..|segs| - 1]) + segs[|segs| - 1]
  }

  lemma NewSegment(ops: seq<Token>, cs: seq<Command>, segs: seq<seq<Token>>, seg: seq<Token>, c: Command)
    requires Stacked(ops, cs, segs) && |cs| == |ops| && Parses(seg, c) && !c.Compound?
    ensures Stacked(ops, cs + [c], segs + [seg]) && Laid(ops, segs + [seg]) == Laid(ops, segs) + seg
  {
    hide Derives, Canonical;
    assert (segs + [seg])[..|segs|] == segs;
  }

  lemma NewOperator(ops: seq<Token>, cs: seq<Command>, segs: seq<seq<Token>>, op: Operator)
    requires Stacked(ops, cs, segs) && |cs| == |ops| + 1 && Strength(op) <= RootStrength(cs[|ops|])
    requires ops != [] ==> Strength(ops[|ops| - 1].op) < Strength(op)
    ensures Stacked(ops + [Op(op)], cs, segs) && Laid(ops + [Op(op)], segs) == Laid(ops, segs) + [Op(op)]
  {
    hide Parses;
    assert (ops + [Op(op)])[..|ops|] == ops;
  }

  lemma SameLength(ops: seq<Token>, cs: seq<Command>, segs: seq<seq<Token>>)
    requires Stacked(ops, cs, segs)
    ensures |segs| == |cs| && (ops != [] ==> ops[|ops| - 1].Op?)
  {
  }

  function Merged(ops: seq<Token>, segs: seq<seq<Token>>): seq<seq<Token>>
    requires |segs| == |ops| + 1 && ops != []
  {
    segs[..|ops| - 1] + [segs[|ops| - 1] + [ops[|ops| - 1]] + segs[|ops|]]
  }

  lemma MergedLength(ops: seq<Token>, segs: seq<seq<Token>>)
    requires |segs| == |ops| + 1 && ops != []
    ensures |Merged(ops, segs)| == |ops|
  {
  }

  lemma MergedLaid(ops: seq<Token>, segs: seq<seq<Token>>)
    requires |segs| == |ops| + 1 && ops != []
    ensures Laid(ops[..|ops| - 1], Merged(ops, segs)) == Laid(ops, segs)
  {
    var n := |ops|;
    assert segs[..n][..n - 1] == segs[..n - 1];
    assert Merged(ops, segs)[..n - 1] == segs[..n - 1];
    assert Laid(ops, segs) == Laid(ops, segs[..n]) + segs[n];
    assert Laid(ops, segs[..n]) == Laid(ops[..n - 1], segs[..n]) + [ops[n - 1]];
    assert Laid(ops[..n - 1], segs[..n]) == Laid(ops[..n - 1], segs[..n - 1]) + segs[n - 1];
  }

  /** Two commands and the operator between them become one command. */
  lemma Reduced(ops: seq<Token>, cs: seq<Command>, segs: seq<seq<Token>>)
    requires Stacked(ops, cs, segs) && |cs| == |ops| + 1 && ops != []
    ensures ops[|ops| - 1].Op?
    ensures Stacked(ops[..|ops| - 1], cs[..|ops| - 1] + [Compound(ops[|ops| - 1].op, cs[|ops| - 1], cs[|ops|])], Merged(ops, segs))
  {
    hide Parses, Canonical, Derives;
    var n := |ops|;
    CompoundParses(segs[n - 1], cs[n - 1], ops[n - 1].op, segs[n], cs[n]);
  }

  lemma CompoundParses(s: seq<Token>, l: Command, op: Operator, t: seq<Token>, r: Command)
    requires Parses(s, l) && Parses(t, r) && Strength(op) <= RootStrength(l) && Strength(op) < RootStrength(r)
    ensures Parses(s + [Op(op)] + t, Compound(op, l, r))
  {
    var ts := s + [Op(op)] + t;
    assert SplitsAt(ts, |s|, op) && ts[..|s|] == s && ts[|s| + 1..] == t;
  }

  // ---------------------------------------------------------------- redirections

  function Redirected(c: Command, less: bool, file: string): Command
    requires !c.Compound?
  {
    if less then c.(input := Some(file)) else c.(output := Some(file))
  }

  lemma {:induction false} MoreRedirects(ts: seq<Token>, t: Token, f: string)
    requires AreRedirects(ts) && (t == Less || t == Greater) && Trimmed(f)
    ensures AreRedirects(ts + [t, Text(f)])
    ensures Redirects(ts + [t, Text(f)], true) == if t == Less then Some(f) else Redirects(ts, true)
    ensures Redirects(ts + [t, Text(f)], false) == if t == Greater then Some(f) else Redirects(ts, false)
  {
    var us := ts + [t, Text(f)];
    assert us[..|us| - 2] == ts;
    if ts != [] {
      MoreRedirects(ts[2..], t, f);
      assert us[2..] == ts[2..] + [t, Text(f)];
    } else {
      assert us[2..] == [];
    }
  }

  lemma SimpleRedirected(ts: seq<Token>, c: Command, t: Token, f: string)
    requires Derives(ts, c) && c.Simple? && (t == Less || t == Greater) && Trimmed(f)
    ensures Derives(ts + [t, Text(f)], Redirected(c, t == Less, f))
  {
    hide Words, Redirects, AreRedirects, Trimmed;
    var us := ts + [t, Text(f)];
    MoreRedirects(ts[1..], t, f);
    assert us[1..] == ts[1..] + [t, Text(f)] && us[0] == ts[0];
  }

  lemma SubshellRedirected(ts: seq<Token>, c: Command, t: Token, f: string)
    requires Derives(ts, c) && c.Subshell? && (t == Less || t == Greater) && Trimmed(f)
    ensures Derives(ts + [t, Text(f)], Redirected(c, t == Less, f))
  {
    hide Words, Redirects, AreRedirects, Trimmed;
    var us := ts + [t, Text(f)];
    MoreRedirects(ts[3..], t, f);
    assert us[3..] == ts[3..] + [t, Text(f)] && us[0] == ts[0] && us[1] == ts[1] && us[2] == ts[2];
  }

  lemma RedirectedParses(ts: seq<Token>, c: Command, t: Token, f: string)
    requires Parses(ts, c) && !c.Compound? && (t == Less || t == Greater) && Trimmed(f)
    ensures Parses(ts + [t, Text(f)], Redirected(c, t == Less, f))
    ensures RootStrength(Redirected(c, t == Less, f)) == RootStrength(c)
  {
    hide Derives;
    if c.Simple? {
      SimpleRedirected(ts, c, t, f);
    } else {
      SubshellRedirected(ts, c, t, f);
    }
  }

  /** A command on top of the stack is replaced by one that binds as strongly. */
  lemma TopReplaced(ops: seq<Token>, cs: seq<Command>, segs: seq<seq<Token>>, seg: seq<Token>, c: Command)
    requires Stacked(ops, cs, segs) && |cs| == |ops| + 1 && Parses(seg, c) && RootStrength(c) == RootStrength(cs[|ops|])
    ensures Stacked(ops, cs[..|ops|] + [c], segs[..|ops|] + [seg])
  {
    hide Parses, RootStrength, Strength;
  }

  lemma LastRedirected(ops: seq<Token>, cs: seq<Command>, segs: seq<seq<Token>>, t: Token, f: string)
    requires Stacked(ops, cs, segs) && |cs| == |ops| + 1 && !cs[|ops|].Compound? && (t == Less || t == Greater) && Trimmed(f)
    ensures |segs| == |cs|
    ensures Stacked(ops, cs[..|ops|] + [Redirected(cs[|ops|], t == Less, f)], segs[..|ops|] + [segs[|ops|] + [t, Text(f)]])
    ensures Laid(ops, segs[..|ops|] + [segs[|ops|] + [t, Text(f)]]) == Laid(ops, segs) + [t, Text(f)]
  {
    hide Stacked, Parses, Trimmed, Redirected;
    var n := |ops|;
    TopParses(ops, cs, segs);
    RedirectedParses(segs[n], cs[n], t, f);
    TopReplaced(ops, cs, segs, segs[n] + [t, Text(f)], Redirected(cs[n], t == Less, f));
    LaidTop(ops, segs, [t, Text(f)]);
  }

  lemma TopParses(ops: seq<Token>, cs: seq<Command>, segs: seq<seq<Token>>)
    requires Stacked(ops, cs, segs) && |cs| == |ops| + 1
    ensures |segs| == |cs| && Parses(segs[|ops|], cs[|ops|])
  {
    hide Parses;
  }

  lemma LaidTop(ops: seq<Token>, segs: seq<seq<Token>>, more: seq<Token>)
    requires |segs| == |ops| + 1
    ensures Laid(ops, segs[..|ops|] + [segs[|ops|] + more]) == Laid(ops, segs) + more
  {
    assert (segs[..|ops|] + [segs[|ops|] + more])[..|ops|] == segs[..|ops|];
  }

  // ---------------------------------------------------------------- the machine

  /** One round of the loops that reduce: an operator and two commands are popped, their
      compound is pushed. Neither stack is ever popped when it is empty. */
  method Reduce(operators: Stack<Token>, commands: Stack<Command>, ghost segs: seq<seq<Token>>) returns (oper: Token, ghost segs': seq<seq<Token>>)
    requires operators.Valid() && commands.Valid()
    requires Stacked(operators.Contents(), commands.Contents(), segs)
    requires |commands.Contents()| == |operators.Contents()| + 1 && operators.Contents() != []
    modifies operators, commands
    ensures operators.Valid() && commands.Valid() && Stacked(operators.Contents(), commands.Contents(), segs')
    ensures oper.Op? && old(operators.Contents()) == operators.Contents() + [oper]
    ensures |commands.Contents()| == |operators.Contents()| + 1 == |segs'|
    ensures RootStrength(commands.Contents()[|operators.Contents()|]) == Strength(oper.op)
    ensures Laid(operators.Contents(), segs') == Laid(old(operators.Contents()), segs)
  {
    hide Stacked, Laid, Merged, Strength, BottomFirst;
    ghost var ops, cs := operators.Contents(), commands.Contents();
    ghost var n := |ops|;
    Reduced(ops, cs, segs);
    SameLength(ops, cs, segs);
    MergedLaid(ops, segs);
    MergedLength(ops, segs);
    oper := operators.Pop();
    var cmd2 := commands.Pop();
    var cmd1 := commands.Pop();
    assert commands.Contents() == cs[..n - 1] && cmd1 == cs[n - 1] && cmd2 == cs[n];
    assert ops[..n - 1] == operators.Contents();
    commands.Push(Compound(oper.op, cmd1, cmd2));
    segs' := Merged(ops, segs);
  }

  lemma LeafStrong(op: Operator, c: Command)
    requires !c.Compound?
    ensures Strength(op) <= RootStrength(c)
  {
  }

  /** Between two tokens: the stacks hold a sequence of operands and operators that ends with
      an operand. */
  ghost predicate Ready(operators: Stack<Token>, commands: Stack<Command>, segs: seq<seq<Token>>)
    reads operators, commands
  {
    operators.Valid() && commands.Valid() && Stacked(operators.Contents(), commands.Contents(), segs) &&
    |commands.Contents()| == |operators.Contents()| + 1
  }

  /** The operand on top binds at least as strongly as the operator. */
  ghost predicate Stronger(op: Operator, operators: Stack<Token>, commands: Stack<Command>, segs: seq<seq<Token>>, text: seq<Token>)
    reads operators, commands
  {
    Ready(operators, commands, segs) && |segs| == |commands.Contents()| && Laid(operators.Contents(), segs) == text &&
    Strength(op) <= RootStrength(commands.Contents()[|operators.Contents()|])
  }

  /** Everything that binds at least as strongly as the operator is reduced. */
  method ReduceStronger(op: Operator, operators: Stack<Token>, commands: Stack<Command>, ghost segs: seq<seq<Token>>) returns (ghost segs': seq<seq<Token>>)
    requires Ready(operators, commands, segs) && operators.Contents() != [] && |segs| == |commands.Contents()|
    requires Strength(op) <= RootStrength(commands.Contents()[|operators.Contents()|])
    modifies operators, commands
    ensures Ready(operators, commands, segs') && |segs'| == |commands.Contents()|
    ensures Strength(op) <= RootStrength(commands.Contents()[|operators.Contents()|])
    ensures operators.Contents() != [] ==> operators.Contents()[|operators.Contents()| - 1].Op?
    ensures operators.Contents() != [] ==> Strength(operators.Contents()[|operators.Contents()| - 1].op) < Strength(op)
    ensures Laid(operators.Contents(), segs') == Laid(old(operators.Contents()), segs)
  {
    hide Laid, Stacked, Strength, RootStrength, OperCmp, Stack.Contents, Stack.Valid;
    segs' := segs;
    var empty := false;
    var oper := operators.Peer();
    SameLength(operators.Contents(), commands.Contents(), segs');
    while OperCmp(Op(op), oper) <= 0 && !empty
      invariant oper.Op? && Stronger(op, operators, commands, segs', Laid(old(operators.Contents()), segs))
      invariant empty <==> operators.Contents() == []
      invariant !empty ==> oper == operators.Contents()[|operators.Contents()| - 1]
      decreases |operators.Contents()|
    {
      OperCmpExact(op, oper.op);
      oper, segs' := Reduce(operators, commands, segs');
      empty := operators.IsEmpty();
      SameLength(operators.Contents(), commands.Contents(), segs');
      if !empty {
        oper := operators.Peer();
      }
    }
    if !empty {
      OperCmpExact(op, oper.op);
    }
  }

  /** An operator token. */
  method PushOperator(op: Operator, operators: Stack<Token>, commands: Stack<Command>, ghost segs: seq<seq<Token>>) returns (ghost segs': seq<seq<Token>>)
    requires Ready(operators, commands, segs) && !commands.Contents()[|operators.Contents()|].Compound? && |segs| == |commands.Contents()|
    modifies operators, commands
    ensures operators.Valid() && commands.Valid() && Stacked(operators.Contents(), commands.Contents(), segs')
    ensures |commands.Contents()| == |operators.Contents()| == |segs'|
    ensures Laid(operators.Contents(), segs') == Laid(old(operators.Contents()), segs) + [Op(op)]
  {
    hide Laid, Stacked, Strength, RootStrength, BottomFirst;
    LeafStrong(op, commands.Contents()[|operators.Contents()|]);
    segs' := segs;
    var empty := operators.IsEmpty();
    if !empty {
      segs' := ReduceStronger(op, operators, commands, segs);
    }
    NewOperator(operators.Contents(), commands.Contents(), segs', op);
    operators.Push(Op(op));
  }

  // ---------------------------------------------------------------- where the machine is

  /** What the stacks hold after the tokens of the prefix have been read. */
  ghost predicate At(phase: Phase, ops: seq<Token>, cs: seq<Command>, segs: seq<seq<Token>>, prefix: seq<Token>) {
    match phase
    case WantCommand => Stacked(ops, cs, segs) && |cs| == |ops| == |segs| && prefix == Laid(ops, segs)
    case AfterCommand => Stacked(ops, cs, segs) && |cs| == |ops| + 1 == |segs| && !cs[|ops|].Compound? && prefix == Laid(ops, segs)
    case WantNested =>
      exists p, o :: prefix == p + [Open] && ops == o + [Open] && AtOperand(o, cs, segs, p)
    case WantClose =>
      exists p, o, inner, c, b :: prefix == p + [Open, Nested(inner)] && ops == o + [Open] && cs == c + [b] && Parses(inner, b) && AtOperand(o, c, segs, p)
    case WantFile => false
  }

  ghost predicate AtOperand(ops: seq<Token>, cs: seq<Command>, segs: seq<seq<Token>>, prefix: seq<Token>) {
    Stacked(ops, cs, segs) && |cs| == |ops| == |segs| && prefix == Laid(ops, segs)
  }

  lemma AtStart()
    ensures At(WantCommand, [], [], [], [])
  {
  }

  lemma AfterText(ops: seq<Token>, cs: seq<Command>, segs: seq<seq<Token>>, prefix: seq<Token>, word: string)
    requires At(WantCommand, ops, cs, segs, prefix) && Trimmed(word)
    ensures At(AfterCommand, ops, cs + [Simple(Words(word), None, None)], segs + [[Text(word)]], prefix + [Text(word)])
  {
    hide Stacked, Laid, Words, Trimmed;
    TextParses(word);
    NewSegment(ops, cs, segs, [Text(word)], Simple(Words(word), None, None));
  }

  lemma TextParses(word: string)
    requires Trimmed(word)
    ensures Parses([Text(word)], Simple(Words(word), None, None))
  {
    hide Words, Trimmed;
    assert [Text(word)][1..] == [];
  }

  lemma AfterOpen(ops: seq<Token>, cs: seq<Command>, segs: seq<seq<Token>>, prefix: seq<Token>)
    requires At(WantCommand, ops, cs, segs, prefix)
    ensures At(WantNested, ops + [Open], cs, segs, prefix + [Open])
  {
    hide Stacked, Laid;
    assert AtOperand(ops, cs, segs, prefix);
  }

  lemma AfterNested(ops: seq<Token>, cs: seq<Command>, segs: seq<seq<Token>>, prefix: seq<Token>, inner: seq<Token>, b: Command)
    requires At(WantNested, ops, cs, segs, prefix) && Parses(inner, b)
    ensures At(WantClose, ops, cs + [b], segs, prefix + [Nested(inner)])
  {
    hide Parses, AtOperand;
    var p, o :| prefix == p + [Open] && ops == o + [Open] && AtOperand(o, cs, segs, p);
    assert prefix + [Nested(inner)] == p + [Open, Nested(inner)];
  }

  lemma BeforeClose(ops: seq<Token>, cs: seq<Command>, segs: seq<seq<Token>>, prefix: seq<Token>) returns (p: seq<Token>, o: seq<Token>, inner: seq<Token>, c: seq<Command>, b: Command)
    requires At(WantClose, ops, cs, segs, prefix)
    ensures prefix == p + [Open, Nested(inner)] && ops == o + [Open] && cs == c + [b] && Parses(inner, b) && AtOperand(o, c, segs, p)
  {
    hide Parses, AtOperand;
    p, o, inner, c, b :| prefix == p + [Open, Nested(inner)] && ops == o + [Open] && cs == c + [b] && Parses(inner, b) && AtOperand(o, c, segs, p);
  }

  lemma AfterClose(ops: seq<Token>, cs: seq<Command>, segs: seq<seq<Token>>, prefix: seq<Token>)
    requires At(WantClose, ops, cs, segs, prefix)
    ensures |prefix| >= 2 && prefix[|prefix| - 1].Nested? && ops != [] && ops[|ops| - 1] == Open && cs != []
    ensures At(AfterCommand, ops[..|ops| - 1], cs[..|cs| - 1] + [Subshell(cs[|cs| - 1], None, None)],
               segs + [[Open, prefix[|prefix| - 1], Close]], prefix + [Close])
  {
    var p, o, inner, c, b := BeforeClose(ops, cs, segs, prefix);
    hide Parses, Stacked, Laid;
    var seg := [Open, Nested(inner), Close];
    GroupParses(inner, b);
    NewSegment(o, c, segs, seg, Subshell(b, None, None));
    assert ops[..|ops| - 1] == o && cs[..|cs| - 1] == c;
    assert prefix + [Close] == p + seg;
  }

  lemma GroupParses(inner: seq<Token>, b: Command)
    requires Parses(inner, b)
    ensures Parses([Open, Nested(inner), Close], Subshell(b, None, None))
  {
    var ts := [Open, Nested(inner), Close];
    assert ts[3..] == [];
  }

  lemma AfterRedirect(ops: seq<Token>, cs: seq<Command>, segs: seq<seq<Token>>, prefix: seq<Token>, t: Token, f: string)
    requires At(AfterCommand, ops, cs, segs, prefix) && (t == Less || t == Greater) && Trimmed(f)
    ensures At(AfterCommand, ops, cs[..|ops|] + [Redirected(cs[|ops|], t == Less, f)], segs[..|ops|] + [segs[|ops|] + [t, Text(f)]], prefix + [t, Text(f)])
  {
    hide Parses, Stacked, Laid, Trimmed;
    LastRedirected(ops, cs, segs, t, f);
  }

  /** A subshell text stands behind its parenthesis, a command never does. */
  lemma PreviousToken(phase: Phase, ops: seq<Token>, cs: seq<Command>, segs: seq<seq<Token>>, prefix: seq<Token>)
    requires At(phase, ops, cs, segs, prefix) && phase in {WantCommand, WantNested}
    ensures phase == WantNested <==> prefix != [] && prefix[|prefix| - 1] == Open
  {
    if phase == WantCommand && segs != [] {
      assert Laid(ops, segs)[|Laid(ops, segs)| - 1] == ops[|ops| - 1];
      hide Parses, Laid;
    }
  }

  // ---------------------------------------------------------------- make_command

  lemma TopIsThere(phase: Phase, ops: seq<Token>, cs: seq<Command>, segs: seq<seq<Token>>, prefix: seq<Token>)
    requires At(phase, ops, cs, segs, prefix)
    ensures phase == AfterCommand ==> |cs| == |ops| + 1 == |segs| && !cs[|ops|].Compound? && Stacked(ops, cs, segs) && Laid(ops, segs) == prefix
    ensures phase == WantCommand && segs == [] ==> ops == [] && cs == []
    ensures phase == WantCommand ==> |cs| == |ops| == |segs|
  {
    hide Stacked, Laid;
  }

  lemma Operand(ops: seq<Token>, cs: seq<Command>, segs: seq<seq<Token>>, prefix: seq<Token>)
    requires Stacked(ops, cs, segs) && |cs| == |ops| == |segs| && prefix == Laid(ops, segs)
    ensures At(WantCommand, ops, cs, segs, prefix)
  {
    hide Stacked, Laid;
  }

  /** The beginning of a < or > redirection: the file goes to the command on top of the stack. */
  method Redirect(t: Token, file: string, operators: Stack<Token>, commands: Stack<Command>, ghost segs: seq<seq<Token>>, ghost prefix: seq<Token>)
    returns (ghost segs': seq<seq<Token>>)
    requires operators.Valid() && commands.Valid() && (t == Less || t == Greater) && Trimmed(file)
    requires At(AfterCommand, operators.Contents(), commands.Contents(), segs, prefix)
    modifies commands
    ensures operators.Valid() && commands.Valid() && operators.Contents() == old(operators.Contents())
    ensures At(AfterCommand, operators.Contents(), commands.Contents(), segs', prefix + [t, Text(file)])
  {
    hide At, Stacked, Laid, Trimmed, Redirected, Stack.Contents, Stack.Valid;
    ghost var ops, cs := operators.Contents(), commands.Contents();
    TopIsThere(AfterCommand, ops, cs, segs, prefix);
    AfterRedirect(ops, cs, segs, prefix, t, file);
    var c := commands.Peer();
    commands.SetTop(Redirected(c, t == Less, file));
    segs' := segs[..|ops|] + [segs[|ops|] + [t, Text(file)]];
  }

  /** The end of a subshell. The loop of the source that would drop further operators is not
      entered: the parenthesis is on top. */
  method CloseSubshell(operators: Stack<Token>, commands: Stack<Command>, ghost segs: seq<seq<Token>>, ghost prefix: seq<Token>)
    returns (ghost segs': seq<seq<Token>>)
    requires operators.Valid() && commands.Valid() && At(WantClose, operators.Contents(), commands.Contents(), segs, prefix)
    modifies operators, commands
    ensures operators.Valid() && commands.Valid()
    ensures At(AfterCommand, operators.Contents(), commands.Contents(), segs', prefix + [Close])
  {
    hide At, Stacked, Laid, Stack.Contents, Stack.Valid;
    ghost var ops, cs := operators.Contents(), commands.Contents();
    AfterClose(ops, cs, segs, prefix);
    var oper := operators.Pop();
    assert operators.Contents() == ops[..|ops| - 1] && oper == Open;
    var subshell := commands.Pop();
    assert commands.Contents() == cs[..|cs| - 1] && subshell == cs[|cs| - 1];
    commands.Push(Subshell(subshell, None, None));
    segs' := segs + [[Open, prefix[|prefix| - 1], Close]];
  }

  /** The last loop: whatever is left on the stacks is reduced to one command. */
  method Finish(operators: Stack<Token>, commands: Stack<Command>, ghost segs: seq<seq<Token>>, ghost ts: seq<Token>) returns (c: Command)
    requires operators.Valid() && commands.Valid() && At(AfterCommand, operators.Contents(), commands.Contents(), segs, ts)
    modifies operators, commands
    ensures Parses(ts, c) && operators.Valid() && commands.Valid() && operators.Contents() == []
    ensures commands.Contents() == (if old(operators.Contents()) == [] then [] else [c])
  {
    hide At, Stacked, Laid, Parses, Strength, RootStrength, Stack.Contents, Stack.Valid;
    ghost var segs' := segs;
    TopIsThere(AfterCommand, operators.Contents(), commands.Contents(), segs, ts);
    var empty := operators.IsEmpty();
    if empty {
      OneSegment(commands.Contents(), segs);
      c := commands.Pop();
    } else {
      while !empty
        invariant Ready(operators, commands, segs') && |segs'| == |commands.Contents()| && Laid(operators.Contents(), segs') == ts
        invariant empty <==> operators.Contents() == []
        decreases |operators.Contents()|
      {
        var oper;
        oper, segs' := Reduce(operators, commands, segs');
        empty := operators.IsEmpty();
      }
      OneSegment(commands.Contents(), segs');
      c := commands.Peer();
    }
  }

  lemma OneSegment(cs: seq<Command>, segs: seq<seq<Token>>)
    requires Stacked([], cs, segs) && |cs| == 1 && |segs| == 1
    ensures Parses(Laid([], segs), cs[0])
  {
    hide Parses;
    assert Laid([], segs) == segs[0];
  }

  /** One round of the loop for a token that is neither a redirection nor its file. */
  method Shift(ts: seq<Token>, i: nat, operators: Stack<Token>, commands: Stack<Command>, ghost phase: Phase, ghost segs: seq<seq<Token>>)
    returns (ghost phase': Phase, ghost segs': seq<seq<Token>>)
    requires operators.Valid() && commands.Valid() && i < |ts| && Accepts(ts[i..], phase)
    requires At(phase, operators.Contents(), commands.Contents(), segs, ts[..i]) && ts[i] != Less && ts[i] != Greater && phase != WantFile
    modifies operators, commands
    ensures operators.Valid() && commands.Valid() && Accepts(ts[i + 1..], phase') && phase' != WantFile
    ensures At(phase', operators.Contents(), commands.Contents(), segs', ts[..i + 1])
    decreases ts, 0
  {
    hide At, Stacked, Laid, Parses, Trimmed, Stack.Contents, Stack.Valid;
    assert ts[i..][0] == ts[i] && ts[i..][1..] == ts[i + 1..] && ts[..i + 1] == ts[..i] + [ts[i]];
    ghost var ops, cs := operators.Contents(), commands.Contents();
    NextToken(ts, i, phase);
    if ts[i].Op? {
      TopIsThere(phase, ops, cs, segs, ts[..i]);
      segs' := PushOperator(ts[i].op, operators, commands, segs);
      Operand(operators.Contents(), commands.Contents(), segs', ts[..i + 1]);
      phase' := WantCommand;
    } else if ts[i] == Open {
      AfterOpen(ops, cs, segs, ts[..i]);
      operators.Push(Open);
      phase', segs' := WantNested, segs;
    } else if ts[i] == Close {
      segs' := CloseSubshell(operators, commands, segs, ts[..i]);
      phase' := AfterCommand;
    } else {
      PreviousToken(phase, ops, cs, segs, ts[..i]);
      if i > 0 && ts[i - 1] == Open {
        var inner := MakeCommand(ts[i].tokens);
        AfterNested(ops, cs, segs, ts[..i], ts[i].tokens, inner);
        commands.Push(inner);
        phase', segs' := WantClose, segs;
      } else {
        AfterText(ops, cs, segs, ts[..i], ts[i].word);
        var c := MakeSimpleCommand(ts[i].word);
        commands.Push(c);
        phase', segs' := AfterCommand, segs + [[ts[i]]];
      }
    }
  }

  lemma NextToken(ts: seq<Token>, i: nat, phase: Phase)
    requires i < |ts| && Accepts(ts[i..], phase)
    ensures ts[i].Op? ==> phase == AfterCommand && Accepts(ts[i + 1..], WantCommand)
    ensures ts[i] == Less || ts[i] == Greater ==> phase == AfterCommand && Accepts(ts[i + 1..], WantFile)
    ensures ts[i] == Open ==> phase == WantCommand && Accepts(ts[i + 1..], WantNested)
    ensures ts[i] == Close ==> phase == WantClose && Accepts(ts[i + 1..], AfterCommand)
    ensures ts[i].Nested? ==> phase == WantNested && Accepts(ts[i].tokens, WantCommand) && Accepts(ts[i + 1..], WantClose)
    ensures ts[i].Text? ==> phase in {WantCommand, WantFile} && Trimmed(ts[i].word) && Accepts(ts[i + 1..], AfterCommand)
  {
    hide Trimmed;
    assert ts[i..][0] == ts[i] && ts[i..][1..] == ts[i + 1..];
  }

  lemma FileFollows(ts: seq<Token>, i: nat)
    requires i <= |ts| && Accepts(ts[i..], WantFile)
    ensures i < |ts| && ts[i].Text? && Trimmed(ts[i].word) && Accepts(ts[i + 1..], AfterCommand)
  {
    hide Trimmed;
    assert ts[i..] != [];
    assert ts[i..][0] == ts[i] && ts[i..][1..] == ts[i + 1..];
  }

  /** make_command: the machine yields the one command that the grammar gives for the tokens,
      and no stack is popped when it is empty. */
  method MakeCommand(ts: seq<Token>) returns (out: Command)
    requires Accepts(ts, WantCommand)
    ensures Parses(ts, out) && Nests(out)
    decreases ts, 1
  {
    hide At, Stacked, Laid, Parses, Trimmed, Accepts, Stack.Contents, Stack.Valid;
    var operators := new Stack<Token>();
    var commands := new Stack<Command>();
    ghost var phase, segs: seq<seq<Token>> := WantCommand, [];
    var i := 0;
    AtStart();
    assert ts[0..] == ts && ts[..0] == [];
    while i < |ts|
      invariant i <= |ts| && operators.Valid() && commands.Valid() && fresh(operators) && fresh(commands)
      invariant Accepts(ts[i..], phase) && phase != WantFile
      invariant At(phase, operators.Contents(), commands.Contents(), segs, ts[..i])
    {
      NextToken(ts, i, phase);
      if ts[i] == Less || ts[i] == Greater {
        FileFollows(ts, i + 1);
        segs := Redirect(ts[i], ts[i + 1].word, operators, commands, segs, ts[..i]);
        assert ts[..i + 2] == ts[..i] + [ts[i], Text(ts[i + 1].word)];
        i := i + 2;
      } else {
        phase, segs := Shift(ts, i, operators, commands, phase, segs);
        i := i + 1;
      }
    }
    NothingLeft(ts, i, phase);
    assert ts[..i] == ts;
    out := Finish(operators, commands, segs, ts);
    CanonicalExact(out);
    ParsesCanonical(ts, out);
  }

  lemma ParsesCanonical(ts: seq<Token>, c: Command)
    requires Parses(ts, c)
    ensures Canonical(c)
  {
    hide Derives, Canonical;
  }

  lemma NothingLeft(ts: seq<Token>, i: nat, phase: Phase)
    requires i == |ts| && Accepts(ts[i..], phase)
    ensures phase == AfterCommand
  {
  }

  /** The parser takes every list of tokens that the grammar has, and there is no other command
      that it could have returned. */
  lemma GrammarIsCovered(ts: seq<Token>, c: Command)
    requires Parses(ts, c)
    ensures Accepts(ts, WantCommand) && forall d :: Parses(ts, d) ==> d == c
  {
    NothingMore();
    DerivedIsAccepted(ts, c, []);
    assert ts + [] == ts;
    forall d | Parses(ts, d)
      ensures d == c
    {
      Unambiguous(ts, c, d);
    }
    hide Accepts, Derives;
  }
}
