/** The grammar of shell commands that make_command (project1/read-command.c) is to follow. */
module CommandGrammar {
  import opened ShellCommand

  /** Tokens with blanks at their ends removed. The text between the parentheses of a subshell
      is one token, given here as the tokens that it consists of in turn. */
  datatype Token = Op(op: Operator) | Less | Greater | Open | Close | Text(word: string) | Nested(tokens: seq<Token>)

  predicate Blank(c: char) {
    c == ' ' || c == '\t'
  }

  predicate NoBlank(s: string) {
    forall k :: 0 <= k < |s| ==> !Blank(s[k])
  }

  /** A text that is not blank at either end. */
  predicate Trimmed(s: string) {
    s != "" && !Blank(s[0]) && !Blank(s[|s| - 1])
  }

  /** The words of a text: its longest runs without blanks. */
  function Words(text: string): seq<string>
    decreases |text|
  {
    if text == "" then []
    else if Blank(text[0]) then Words(text[1..])
    else if |text| == 1 || Blank(text[1]) then [[text[0]]] + Words(text[1..])
    else
      var rest := Words(text[1..]);
      if rest == [] then [text] else [[text[0]] + rest[0]] + rest[1..]
  }

  /** ; binds weakest and | strongest. A command that is no compound binds stronger still. */
  function Strength(op: Operator): nat {
    match op
    case Sequence => 0
    case And => 1
    case Or => 1
    case Pipe => 2
  }

  function RootStrength(c: Command): nat {
    if c.Compound? then Strength(c.op) else 3
  }

  /** Operators bind as strongly as they should and associate to the left, in subshells too. */
  predicate Canonical(c: Command) {
    match c
    case Compound(op, l, r) => Canonical(l) && Canonical(r) && Strength(op) <= RootStrength(l) && Strength(op) < RootStrength(r)
    case Subshell(body, _, _) => Canonical(body)
    case Simple(_, _, _) => true
  }

  /** What that means, operator by operator: the sides of a pipe are no lists and the right one no pipe; the
      sides of && and || are no sequences, and the right one is neither of the two; the right side of ; is
      no sequence. */
  predicate Nests(c: Command) {
    match c
    case Simple(_, _, _) => true
    case Subshell(body, _, _) => Nests(body)
    case Compound(Pipe, l, r) => Nests(l) && Nests(r) && (l.Compound? ==> l.op == Pipe) && !r.Compound?
    case Compound(And, l, r) => Nests(l) && Nests(r) && (l.Compound? ==> l.op != Sequence) && (r.Compound? ==> r.op == Pipe)
    case Compound(Or, l, r) => Nests(l) && Nests(r) && (l.Compound? ==> l.op != Sequence) && (r.Compound? ==> r.op == Pipe)
    case Compound(Sequence, l, r) => Nests(l) && Nests(r) && (r.Compound? ==> r.op != Sequence)
  }

  lemma {:induction false} CanonicalExact(c: Command)
    ensures Canonical(c) <==> Nests(c)
    decreases c
  {
    match c
    case Simple(_, _, _) =>
    case Subshell(body, _, _) => CanonicalExact(body);
    case Compound(_, l, r) =>
      CanonicalExact(l);
      CanonicalExact(r);
  }

  /** The files that a list of redirections leaves: the last one of either kind. */
  function Redirects(ts: seq<Token>, less: bool): Option<string> {
    if |ts| < 2 then None
    else if ts[|ts| - 2] == Sign(less) && ts[|ts| - 1].Text? then Some(ts[|ts| - 1].word)
    else Redirects(ts[..|ts| - 2], less)
  }

  predicate AreRedirects(ts: seq<Token>) {
    ts == [] || (|ts| >= 2 && (ts[0] == Less || ts[0] == Greater) && ts[1].Text? && Trimmed(ts[1].word) && AreRedirects(ts[2..]))
  }

  /** The tokens can be read as this command; precedence aside. */
  ghost predicate Derives(ts: seq<Token>, c: Command)
    decreases c
  {
    match c
    case Simple(words, input, output) =>
      ts != [] && ts[0].Text? && Trimmed(ts[0].word) && words == Words(ts[0].word) && AreRedirects(ts[1..]) &&
      input == Redirects(ts[1..], true) && output == Redirects(ts[1..], false)
    case Subshell(body, input, output) =>
      |ts| >= 3 && ts[0] == Open && ts[1].Nested? && Derives(ts[1].tokens, body) && ts[2] == Close && AreRedirects(ts[3..]) &&
      input == Redirects(ts[3..], true) && output == Redirects(ts[3..], false)
    case Compound(op, l, r) =>
      exists k :: 0 <= k < |ts| && SplitsAt(ts, k, op) && Derives(ts[..k], l) && Derives(ts[k + 1..], r)
  }

  predicate SplitsAt(ts: seq<Token>, k: nat, op: Operator) {
    k < |ts| && ts[k] == Op(op)
  }

  /** The command that the tokens stand for. */
  ghost predicate Parses(ts: seq<Token>, c: Command) {
    Derives(ts, c) && Canonical(c)
  }

  // ---------------------------------------------------------------- the grammar is unambiguous

  lemma {:induction false} RedirectsHaveNoOperator(ts: seq<Token>)
    requires AreRedirects(ts)
    ensures forall k :: 0 <= k < |ts| ==> !ts[k].Op?
  {
    if ts != [] {
      RedirectsHaveNoOperator(ts[2..]);
      forall k | 0 <= k < |ts|
        ensures !ts[k].Op?
      {
        if k >= 2 {
          assert ts[k] == ts[2..][k - 2];
        }
      }
    }
  }

  /** No operator of a command binds weaker than its root, and the root of a compound is the last
      operator that binds as weakly. */
  lemma {:induction false} WeakestOperators(ts: seq<Token>, c: Command)
    requires Parses(ts, c)
    ensures forall k :: 0 <= k < |ts| && ts[k].Op? ==> Strength(ts[k].op) >= RootStrength(c)
    decreases c
  {
    match c
    case Simple(_, _, _) => RedirectsHaveNoOperator(ts[1..]);
      forall k | 0 <= k < |ts| ensures !ts[k].Op? {
        if k >= 1 { assert ts[k] == ts[1..][k - 1]; }
      }
    case Subshell(_, _, _) => RedirectsHaveNoOperator(ts[3..]);
      forall k | 0 <= k < |ts| ensures !ts[k].Op? {
        if k >= 3 { assert ts[k] == ts[3..][k - 3]; }
      }
    case Compound(op, l, r) =>
      var m :| 0 <= m < |ts| && SplitsAt(ts, m, op) && Derives(ts[..m], l) && Derives(ts[m + 1..], r);
      WeakestOperators(ts[..m], l);
      WeakestOperators(ts[m + 1..], r);
      forall k | 0 <= k < |ts| && ts[k].Op?
        ensures Strength(ts[k].op) >= Strength(op)
      {
        if k < m {
          assert ts[k] == ts[..m][k];
        } else if k > m {
          assert ts[k] == ts[m + 1..][k - m - 1];
        }
      }
  }

  /** Where a compound command splits. */
  ghost predicate RootAt(ts: seq<Token>, c: Command, m: nat) {
    c.Compound? && m < |ts| && SplitsAt(ts, m, c.op) && Derives(ts[..m], c.left) && Derives(ts[m + 1..], c.right) &&
    forall k :: 0 <= k < |ts| && ts[k].Op? ==> Strength(ts[k].op) >= Strength(c.op) && (k > m ==> Strength(ts[k].op) > Strength(c.op))
  }

  lemma RootExists(ts: seq<Token>, c: Command)
    requires Parses(ts, c) && c.Compound?
    ensures exists m: nat :: RootAt(ts, c, m)
  {
    var m :| 0 <= m < |ts| && SplitsAt(ts, m, c.op) && Derives(ts[..m], c.left) && Derives(ts[m + 1..], c.right);
    WeakestOperators(ts, c);
    WeakestOperators(ts[m + 1..], c.right);
    forall k | m < k < |ts| && ts[k].Op?
      ensures Strength(ts[k].op) > Strength(c.op)
    {
      assert ts[k] == ts[m + 1..][k - m - 1];
    }
    assert RootAt(ts, c, m);
  }

  lemma LeafHasNoOperator(ts: seq<Token>, c: Command)
    requires Derives(ts, c) && !c.Compound?
    ensures forall k :: 0 <= k < |ts| ==> !ts[k].Op?
  {
    if c.Simple? {
      RedirectsHaveNoOperator(ts[1..]);
      forall k | 1 <= k < |ts| ensures !ts[k].Op? { assert ts[k] == ts[1..][k - 1]; }
    } else {
      RedirectsHaveNoOperator(ts[3..]);
      forall k | 3 <= k < |ts| ensures !ts[k].Op? { assert ts[k] == ts[3..][k - 3]; }
    }
  }

  /** A list of tokens stands for one command only. */
  lemma {:induction false} Unambiguous(ts: seq<Token>, c: Command, d: Command)
    requires Parses(ts, c) && Parses(ts, d)
    ensures c == d
    decreases c
  {
    if c.Compound? && d.Compound? {
      RootExists(ts, c);
      RootExists(ts, d);
      var m: nat :| RootAt(ts, c, m);
      var n: nat :| RootAt(ts, d, n);
      assert ts[m].Op? && ts[n].Op?;
      assert m == n;
      Unambiguous(ts[..m], c.left, d.left);
      Unambiguous(ts[m + 1..], c.right, d.right);
    } else if c.Compound? {
      RootExists(ts, c);
      LeafHasNoOperator(ts, d);
    } else if d.Compound? {
      RootExists(ts, d);
      LeafHasNoOperator(ts, c);
    } else if c.Subshell? && d.Subshell? {
      Unambiguous(ts[1].tokens, c.body, d.body);
    }
  }

  /** The root is the last ; if there is one, else the last && or ||, else the last |. */
  lemma RootExact(ts: seq<Token>, c: Command) returns (m: nat)
    requires Parses(ts, c) && c.Compound?
    ensures m < |ts| && ts[m] == Op(c.op) && Parses(ts[..m], c.left) && Parses(ts[m + 1..], c.right)
    ensures c.op == Sequence ==> forall k :: m < k < |ts| ==> ts[k] != Op(Sequence)
    ensures c.op == And || c.op == Or ==>
              (forall k :: 0 <= k < |ts| ==> ts[k] != Op(Sequence)) && (forall k :: m < k < |ts| ==> ts[k] != Op(And) && ts[k] != Op(Or))
    ensures c.op == Pipe ==>
              (forall k :: 0 <= k < |ts| ==> ts[k] != Op(Sequence) && ts[k] != Op(And) && ts[k] != Op(Or)) &&
              (forall k :: m < k < |ts| ==> ts[k] != Op(Pipe))
  {
    RootExists(ts, c);
    m :| RootAt(ts, c, m);
    hide Derives;
  }

  lemma {:induction false} LastRedirect(ts: seq<Token>)
    requires AreRedirects(ts) && ts != []
    ensures |ts| >= 2 && (ts[|ts| - 2] == Less || ts[|ts| - 2] == Greater) && ts[|ts| - 1].Text? && AreRedirects(ts[..|ts| - 2])
  {
    if |ts| > 2 {
      LastRedirect(ts[2..]);
      assert ts[..|ts| - 2][2..] == ts[2..][..|ts| - 4];
    }
  }

  function Sign(less: bool): Token {
    if less then Less else Greater
  }

  predicate IsLast(ts: seq<Token>, k: int, t: Token) {
    0 <= k < |ts| && ts[k] == t && forall j :: k < j < |ts| ==> ts[j] != t
  }

  lemma {:induction false} RedirectsLast(ts: seq<Token>, less: bool)
    requires AreRedirects(ts)
    ensures (forall k :: 0 <= k < |ts| ==> ts[k] != Sign(less)) ==> Redirects(ts, less) == None
    ensures forall k :: IsLast(ts, k, Sign(less)) ==> k + 1 < |ts| && ts[k + 1].Text? && Redirects(ts, less) == Some(ts[k + 1].word)
    decreases |ts|
  {
    if ts != [] {
      LastRedirect(ts);
      RedirectsLast(ts[..|ts| - 2], less);
      var before := ts[..|ts| - 2];
      assert forall k :: 0 <= k < |before| ==> before[k] == ts[k];
      assert forall k :: IsLast(ts, k, Sign(less)) && k < |before| ==> IsLast(before, k, Sign(less)) && ts[|before|] != Sign(less);
    }
  }

  /** The files of a command: the word behind its last < and the one behind its last >. */
  lemma RedirectionsExact(ts: seq<Token>, c: Command)
    requires Derives(ts, c) && !c.Compound?
    ensures (forall k :: 0 <= k < |ts| ==> ts[k] != Less) ==> c.input == None
    ensures (forall k :: 0 <= k < |ts| ==> ts[k] != Greater) ==> c.output == None
    ensures forall k :: IsLast(ts, k, Less) ==> k + 1 < |ts| && ts[k + 1].Text? && c.input == Some(ts[k + 1].word)
    ensures forall k :: IsLast(ts, k, Greater) ==> k + 1 < |ts| && ts[k + 1].Text? && c.output == Some(ts[k + 1].word)
  {
    var n := if c.Simple? then 1 else 3;
    RedirectsLast(ts[n..], true);
    RedirectsLast(ts[n..], false);
    hide Redirects, AreRedirects;
    var files := ts[n..];
    assert forall k :: n <= k < |ts| ==> files[k - n] == ts[k];
    assert forall k :: 0 <= k < |files| ==> files[k] == ts[k + n];
    forall k, t | IsLast(ts, k, t) && (t == Less || t == Greater)
      ensures k >= n && IsLast(files, k - n, t)
    {
    }
  }

  // ---------------------------------------------------------------- which token lists are commands

  /** What may come next while a list of tokens is read from the left. */
  datatype Phase = WantCommand | WantNested | WantClose | AfterCommand | WantFile

  predicate Accepts(ts: seq<Token>, phase: Phase)
    decreases ts
  {
    if ts == [] then phase == AfterCommand
    else
      match phase
      case WantCommand =>
        (ts[0].Text? && Trimmed(ts[0].word) && Accepts(ts[1..], AfterCommand)) || (ts[0] == Open && Accepts(ts[1..], WantNested))
      case WantNested => ts[0].Nested? && Accepts(ts[0].tokens, WantCommand) && Accepts(ts[1..], WantClose)
      case WantClose => ts[0] == Close && Accepts(ts[1..], AfterCommand)
      case AfterCommand =>
        (ts[0].Op? && Accepts(ts[1..], WantCommand)) || ((ts[0] == Less || ts[0] == Greater) && Accepts(ts[1..], WantFile))
      case WantFile => ts[0].Text? && Trimmed(ts[0].word) && Accepts(ts[1..], AfterCommand)
  }

  lemma {:induction false} RedirectsAccepted(ts: seq<Token>, rest: seq<Token>)
    requires AreRedirects(ts) && Accepts(rest, AfterCommand)
    ensures Accepts(ts + rest, AfterCommand)
  {
    if ts == [] {
      assert ts + rest == rest;
    } else {
      RedirectsAccepted(ts[2..], rest);
      assert (ts + rest)[1..] == ts[1..] + rest && (ts + rest)[1..][1..] == ts[2..] + rest;
    }
  }

  lemma OperatorAccepted(op: Operator, ts: seq<Token>)
    requires Accepts(ts, WantCommand)
    ensures Accepts([Op(op)] + ts, AfterCommand)
  {
    assert ([Op(op)] + ts)[1..] == ts;
  }

  lemma TextAccepted(word: string, ts: seq<Token>)
    requires Trimmed(word) && Accepts(ts, AfterCommand)
    ensures Accepts([Text(word)] + ts, WantCommand)
  {
    assert ([Text(word)] + ts)[1..] == ts;
  }

  lemma GroupAccepted(inner: seq<Token>, ts: seq<Token>)
    requires Accepts(inner, WantCommand) && Accepts(ts, AfterCommand)
    ensures Accepts([Open, Nested(inner), Close] + ts, WantCommand)
  {
    var us := [Close] + ts;
    assert us[1..] == ts;
    var vs := [Nested(inner)] + us;
    assert vs[1..] == us;
    var ws := [Open] + vs;
    assert ws[1..] == vs && Accepts(vs, WantNested);
    assert ws == [Open, Nested(inner), Close] + ts;
  }

  lemma SimpleAccepted(ts: seq<Token>, rest: seq<Token>)
    requires ts != [] && ts[0].Text? && Trimmed(ts[0].word) && AreRedirects(ts[1..]) && Accepts(rest, AfterCommand)
    ensures Accepts(ts + rest, WantCommand)
  {
    hide Accepts, Trimmed, AreRedirects;
    RedirectsAccepted(ts[1..], rest);
    TextAccepted(ts[0].word, ts[1..] + rest);
    assert [Text(ts[0].word)] + (ts[1..] + rest) == ts + rest;
  }

  lemma SubshellAccepted(ts: seq<Token>, rest: seq<Token>)
    requires |ts| >= 3 && ts[0] == Open && ts[1].Nested? && Accepts(ts[1].tokens, WantCommand) && ts[2] == Close
    requires AreRedirects(ts[3..]) && Accepts(rest, AfterCommand)
    ensures Accepts(ts + rest, WantCommand)
  {
    hide Accepts, AreRedirects;
    RedirectsAccepted(ts[3..], rest);
    GroupAccepted(ts[1].tokens, ts[3..] + rest);
    assert [Open, Nested(ts[1].tokens), Close] + (ts[3..] + rest) == ts + rest;
  }

  lemma Reassembled(ts: seq<Token>, k: nat, op: Operator, rest: seq<Token>)
    requires SplitsAt(ts, k, op)
    ensures ts[..k] + ([Op(op)] + (ts[k + 1..] + rest)) == ts + rest
  {
  }

  lemma Inner(ts: seq<Token>, c: Command)
    requires Derives(ts, c)
    ensures c.Simple? ==> ts != [] && ts[0].Text? && Trimmed(ts[0].word) && AreRedirects(ts[1..])
    ensures c.Subshell? ==> |ts| >= 3 && ts[0] == Open && ts[1].Nested? && Derives(ts[1].tokens, c.body) && ts[2] == Close && AreRedirects(ts[3..])
    ensures c.Compound? ==> exists k: nat :: SplitsAt(ts, k, c.op) && Derives(ts[..k], c.left) && Derives(ts[k + 1..], c.right)
  {
    hide Words, Redirects, AreRedirects, Trimmed;
  }

  /** Every list of tokens that can be read as a command is accepted, whatever follows it. */
  lemma {:induction false} DerivedIsAccepted(ts: seq<Token>, c: Command, rest: seq<Token>)
    requires Derives(ts, c) && Accepts(rest, AfterCommand)
    ensures Accepts(ts + rest, WantCommand)
    decreases c
  {
    hide Accepts, AreRedirects, Trimmed, Derives;
    Inner(ts, c);
    match c
    case Simple(_, _, _) =>
      SimpleAccepted(ts, rest);
    case Subshell(body, _, _) =>
      NothingMore();
      DerivedIsAccepted(ts[1].tokens, body, []);
      assert ts[1].tokens + [] == ts[1].tokens;
      SubshellAccepted(ts, rest);
    case Compound(op, l, r) =>
      var k: nat :| SplitsAt(ts, k, op) && Derives(ts[..k], l) && Derives(ts[k + 1..], r);
      DerivedIsAccepted(ts[k + 1..], r, rest);
      OperatorAccepted(op, ts[k + 1..] + rest);
      DerivedIsAccepted(ts[..k], l, [Op(op)] + (ts[k + 1..] + rest));
      Reassembled(ts, k, op, rest);
  }

  lemma NothingMore()
    ensures Accepts([], AfterCommand)
  {
  }
}
