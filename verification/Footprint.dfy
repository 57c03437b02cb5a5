/** project1/execute-command.c: which files the execution of a command tree can touch, and
    when the two lists of the tree cover them. */
module Footprint {
  import opened ShellCommand
  import opened DependencyGraph
  import opened TimeTravel

  /** The files behind standard input and output; None is the terminal or a pipe. */
  datatype Io = Io(stdin: Option<string>, stdout: Option<string>)

  const TERMINAL := Io(None, None)

  /** A command returns with a status, or its whole process is gone with that status: a
      redirection failed, or the command was exec. */
  datatype Outcome = Exited(status: nat) | Gone(status: nat)

  /** What redirect does to the files: the input has to be there, and the output is truncated. */
  function Opening(input: Option<string>, output: Option<string>): seq<Access> {
    (if input.Some? then [Open(input.value, true)] else []) + (if output.Some? then [Write(output.value, "")] else [])
  }

  function Redirected(input: Option<string>, output: Option<string>, io: Io): Io {
    Io(if input.Some? then input else io.stdin, if output.Some? then output else io.stdout)
  }

  /** redirect ends the process: the input is missing, or one of its calls fails for a reason that
      does not lie in the files. */
  predicate OpenFails(input: Option<string>, output: Option<string>, h: seq<Access>) {
    (input.Some? && h == [Open(input.value, false)]) || ((input.Some? || output.Some?) && h <= Opening(input, output))
  }

  predicate IsExec(words: seq<string>) {
    words != [] && words[0] == "exec"
  }

  /** Ways to touch a file: as input of a redirection, reading it, writing it, as output of a
      redirection. */
  datatype Touch = Opened(file: string) | In(file: string) | Out(file: string) | Emptied(file: string)

  predicate Does(a: Access, x: Touch) {
    a.file == x.file &&
    match x
    case Opened(_) => a.Open?
    case In(_) => a.Read?
    case Out(_) => a.Write?
    case Emptied(_) => a.Write? && a.content == ""
  }

  /** The files that a program reads and writes besides its standard input and output, given the
      words it is started with. */
  datatype World = World(sources: seq<string> -> set<string>, targets: seq<string> -> set<string>)

  function ProgramTouches(w: World, words: seq<string>, io: Io): set<Touch> {
    (set f | f in w.sources(words) :: In(f)) + (set f | f in w.targets(words) :: Out(f))
    + (if io.stdin.Some? then {In(io.stdin.value)} else {})
    + (if io.stdout.Some? then {Out(io.stdout.value)} else {})
  }

  /** A program reads and writes these files, in any order and number. */
  predicate ProgramRun(w: World, words: seq<string>, io: Io, h: seq<Access>) {
    forall i :: 0 <= i < |h| ==> !h[i].Open? && (if h[i].Read? then In(h[i].file) else Out(h[i].file)) in ProgramTouches(w, words, io)
  }

  predicate Shuffled(a: seq<Access>, b: seq<Access>, h: seq<Access>)
    decreases |h|
  {
    if h == [] then a == [] && b == []
    else (a != [] && a[0] == h[0] && Shuffled(a[1..], b, h[1..])) ||
         (b != [] && b[0] == h[0] && Shuffled(a, b[1..], h[1..]))
  }

  /** The right side of the operator does not run after this status of the left side. */
  predicate Skips(op: Operator, status: nat) {
    (op.And? && status != 0) || (op.Or? && status == 0)
  }

  /** Executing c can do h, in that order, and end with the outcome o. What it sees depends on the
      files: an access that does not fit them does not happen. */
  ghost predicate Exec(w: World, c: Command, io: Io, h: seq<Access>, o: Outcome)
    decreases c
  {
    match c
    case Simple(words, input, output) =>
      var opens := Opening(input, output);
      (OpenFails(input, output, h) && o == Gone(1)) ||
      (opens <= h && ProgramRun(w, words, Redirected(input, output, io), h[|opens|..]) && o.Gone? == IsExec(words))
    case Subshell(body, input, output) =>
      var opens := Opening(input, output);
      (OpenFails(input, output, h) && o == Gone(1)) ||
      (opens <= h && Exec(w, body, Redirected(input, output, io), h[|opens|..], o))
    case Compound(Pipe, left, right) =>
      exists a, b, oa, ob ::
        Exec(w, left, Io(io.stdin, None), a, oa) && Exec(w, right, Io(None, io.stdout), b, ob) &&
        Shuffled(a, b, h) && (o == Exited(oa.status) || o == Exited(ob.status))
    case Compound(op, left, right) =>
      exists k: nat, oa :: k <= |h| && Exec(w, left, io, h[..k], oa) &&
        if oa.Gone? || Skips(op, oa.status) then k == |h| && o == oa
        else Exec(w, right, io, h[k..], o)
  }

  /** Executing c can begin with these accesses. */
  ghost predicate Leads(w: World, c: Command, io: Io, p: seq<Access>) {
    exists h, o :: Exec(w, c, io, h, o) && p <= h
  }

  /** After && the right side runs exactly if the left one returns with status 0. */
  lemma AfterAnd(w: World, l: Command, r: Command, io: Io, h: seq<Access>, o: Outcome)
    ensures Exec(w, Compound(And, l, r), io, h, o) <==>
              exists k: nat, oa :: k <= |h| && Exec(w, l, io, h[..k], oa) &&
                if oa.Gone? || oa.status != 0 then k == |h| && o == oa else Exec(w, r, io, h[k..], o)
  {
  }

  /** After || it runs exactly if the left one returns with another status. */
  lemma AfterOr(w: World, l: Command, r: Command, io: Io, h: seq<Access>, o: Outcome)
    ensures Exec(w, Compound(Or, l, r), io, h, o) <==>
              exists k: nat, oa :: k <= |h| && Exec(w, l, io, h[..k], oa) &&
                if oa.Gone? || oa.status == 0 then k == |h| && o == oa else Exec(w, r, io, h[k..], o)
  {
  }

  /** After ; it runs exactly if the left one returns. */
  lemma AfterSequence(w: World, l: Command, r: Command, io: Io, h: seq<Access>, o: Outcome)
    ensures Exec(w, Compound(Sequence, l, r), io, h, o) <==>
              exists k: nat, oa :: k <= |h| && Exec(w, l, io, h[..k], oa) &&
                if oa.Gone? then k == |h| && o == oa else Exec(w, r, io, h[k..], o)
  {
  }

  /** A simple command first opens its input, which has to be there, and then truncates its output; the
      process is gone with status 1 if it does not get so far, and if the command is exec. */
  lemma SimpleOpens(w: World, words: seq<string>, f: string, g: string, io: Io, h: seq<Access>, o: Outcome)
    requires Exec(w, Simple(words, Some(f), Some(g)), io, h, o)
    ensures h == [] || h == [Open(f, false)] || h == [Open(f, true)] || [Open(f, true), Write(g, "")] <= h
    ensures |h| < 2 ==> o == Gone(1)
    ensures |h| > 2 ==> (o.Gone? <==> words != [] && words[0] == "exec")
  {
    if OpenFails(Some(f), Some(g), h) && h != [Open(f, false)] {
      assert Opening(Some(f), Some(g)) == [Open(f, true), Write(g, "")];
      assert h <= [Open(f, true), Write(g, "")];
    }
  }

  /** Without redirections a program reads its sources and its standard input and writes its targets and its
      standard output, in any order and number, and returns unless it is exec. */
  lemma PlainSimple(w: World, words: seq<string>, io: Io, h: seq<Access>, o: Outcome)
    ensures Exec(w, Simple(words, None, None), io, h, o) <==>
              && (forall i :: 0 <= i < |h| ==>
                    match h[i]
                    case Open(_, _) => false
                    case Read(f, _) => f in w.sources(words) || io.stdin == Some(f)
                    case Write(f, _) => f in w.targets(words) || io.stdout == Some(f))
              && (o.Gone? <==> words != [] && words[0] == "exec")
  {
    assert h[0..] == h;
  }

  lemma PlainSubshell(w: World, body: Command, io: Io, h: seq<Access>, o: Outcome)
    ensures Exec(w, Subshell(body, None, None), io, h, o) <==> Exec(w, body, io, h, o)
  {
    assert h[0..] == h;
  }

  predicate IsUnit(c: Command) {
    !c.Compound? && c.input == None && c.output == None
  }

  function WithFiles(c: Command, input: Option<string>, output: Option<string>): Command
    requires IsUnit(c)
  {
    c.(input := input, output := output)
  }

  /** A command or a subshell with redirections: the input is opened, the output truncated, and then it goes
      on with the files in place of what it had; or its process is gone with status 1 before that. */
  lemma RedirectionsFirst(w: World, c: Command, f: string, g: string, io: Io, h: seq<Access>, o: Outcome)
    requires IsUnit(c)
    ensures Exec(w, WithFiles(c, Some(f), Some(g)), io, h, o) <==>
              || (o == Gone(1) && (h == [Open(f, false)] || h <= [Open(f, true), Write(g, "")]))
              || ([Open(f, true), Write(g, "")] <= h && Exec(w, c, Io(Some(f), Some(g)), h[2..], o))
    ensures Exec(w, WithFiles(c, Some(f), None), io, h, o) <==>
              || (o == Gone(1) && (h == [Open(f, false)] || h <= [Open(f, true)]))
              || ([Open(f, true)] <= h && Exec(w, c, Io(Some(f), io.stdout), h[1..], o))
    ensures Exec(w, WithFiles(c, None, Some(g)), io, h, o) <==>
              || (o == Gone(1) && h <= [Write(g, "")])
              || ([Write(g, "")] <= h && Exec(w, c, Io(io.stdin, Some(g)), h[1..], o))
  {
    OneKind(w, c, Some(f), Some(g), io, h, o);
    OneKind(w, c, Some(f), None, io, h, o);
    OneKind(w, c, None, Some(g), io, h, o);
    hide Exec;
    assert Opening(Some(f), Some(g)) == [Open(f, true), Write(g, "")];
  }

  lemma OneKind(w: World, c: Command, input: Option<string>, output: Option<string>, io: Io, h: seq<Access>, o: Outcome)
    requires IsUnit(c)
    ensures Exec(w, WithFiles(c, input, output), io, h, o) <==>
              || (OpenFails(input, output, h) && o == Gone(1))
              || (Opening(input, output) <= h && Exec(w, c, Redirected(input, output, io), h[|Opening(input, output)|..], o))
  {
    var rest, io' := if Opening(input, output) <= h then h[|Opening(input, output)|..] else h, Redirected(input, output, io);
    hide OpenFails, ProgramRun, Redirected, Opening;
    if c.Subshell? {
      PlainSubshell(w, c.body, io', rest, o);
    } else {
      SimpleRuns(w, c.words, io', rest, o);
    }
  }

  lemma SimpleRuns(w: World, words: seq<string>, io: Io, h: seq<Access>, o: Outcome)
    ensures Exec(w, Simple(words, None, None), io, h, o) <==> ProgramRun(w, words, io, h) && o.Gone? == IsExec(words)
  {
    assert h[0..] == h;
    hide ProgramRun;
  }

  /** The two sides of a pipe run at the same time, without the files on either end of it. */
  ghost predicate Across(w: World, l: Command, r: Command, io: Io, h: seq<Access>, o: Outcome, a: seq<Access>, oa: Outcome, b: seq<Access>, ob: Outcome) {
    && Exec(w, l, Io(io.stdin, None), a, oa) && Exec(w, r, Io(None, io.stdout), b, ob)
    && Shuffled(a, b, h) && (o == Exited(oa.status) || o == Exited(ob.status))
  }

  lemma AcrossPipe(w: World, l: Command, r: Command, io: Io, h: seq<Access>, o: Outcome)
    ensures Exec(w, Compound(Pipe, l, r), io, h, o) <==> exists a, oa, b, ob :: Across(w, l, r, io, h, o, a, oa, b, ob)
  {
    hide Exec, Shuffled;
    if Exec(w, Compound(Pipe, l, r), io, h, o) {
      var a, oa, b, ob := PipeParts(w, Compound(Pipe, l, r), io, h, o);
      assert Across(w, l, r, io, h, o, a, oa, b, ob);
    }
    if a, oa, b, ob :| Across(w, l, r, io, h, o, a, oa, b, ob) {
      PipeWhole(w, l, r, io, a, oa, b, ob, h, o);
    }
  }

  lemma PipeWhole(w: World, l: Command, r: Command, io: Io, a: seq<Access>, oa: Outcome, b: seq<Access>, ob: Outcome, h: seq<Access>, o: Outcome)
    requires Exec(w, l, Io(io.stdin, None), a, oa) && Exec(w, r, Io(None, io.stdout), b, ob)
    requires Shuffled(a, b, h) && (o == Exited(oa.status) || o == Exited(ob.status))
    ensures Exec(w, Compound(Pipe, l, r), io, h, o)
  {
    hide Shuffled;
  }

  /** The accesses that come from one of two sides. */
  function Picked(h: seq<Access>, sides: seq<bool>, side: bool): seq<Access>
    requires |sides| == |h|
  {
    if h == [] then [] else (if sides[0] == side then [h[0]] else []) + Picked(h[1..], sides[1..], side)
  }

  /** A shuffle is what can be told apart into its two sides again. */
  lemma {:induction false} ShuffledExact(a: seq<Access>, b: seq<Access>, h: seq<Access>) returns (sides: seq<bool>)
    ensures |sides| == |h|
    ensures Shuffled(a, b, h) <==> Picked(h, sides, true) == a && Picked(h, sides, false) == b
    ensures !Shuffled(a, b, h) ==> forall s: seq<bool> :: |s| == |h| ==> Picked(h, s, true) != a || Picked(h, s, false) != b
    decreases |h|
  {
    if h == [] {
      sides := [];
    } else {
      forall s: seq<bool> | |s| == |h| && Picked(h, s, true) == a && Picked(h, s, false) == b
        ensures Shuffled(a, b, h)
      {
        PickedShuffled(h, s);
      }
      if a != [] && a[0] == h[0] && Shuffled(a[1..], b, h[1..]) {
        var rest := ShuffledExact(a[1..], b, h[1..]);
        sides := [true] + rest;
        assert sides[1..] == rest && a == [a[0]] + a[1..];
      } else if b != [] && b[0] == h[0] && Shuffled(a, b[1..], h[1..]) {
        var rest := ShuffledExact(a, b[1..], h[1..]);
        sides := [false] + rest;
        assert sides[1..] == rest && b == [b[0]] + b[1..];
      } else {
        sides := seq(|h|, _ => true);
      }
    }
  }

  lemma {:induction false} PickedShuffled(h: seq<Access>, sides: seq<bool>)
    requires |sides| == |h|
    ensures Shuffled(Picked(h, sides, true), Picked(h, sides, false), h)
    decreases |h|
  {
    if h != [] {
      PickedShuffled(h[1..], sides[1..]);
      var a, b := Picked(h[1..], sides[1..], true), Picked(h[1..], sides[1..], false);
      assert ([h[0]] + a)[1..] == a && ([h[0]] + b)[1..] == b && [] + a == a && [] + b == b;
    }
  }

  // ---------------------------------------------------------------- the syntactic reach

  predicate Redirects(input: Option<string>, output: Option<string>) {
    input.Some? || output.Some?
  }

  /** Opening these files is among the touches to avoid. */
  predicate OpenHits(input: Option<string>, output: Option<string>, avoid: set<Touch>) {
    (input.Some? && Opened(input.value) in avoid) ||
    (output.Some? && (Emptied(output.value) in avoid || Out(output.value) in avoid))
  }

  /** Some execution of c ends without the touches to avoid: its process gone or not, and with status
      zero or with another one. */
  predicate Ends(c: Command, gone: bool, zero: bool, avoid: set<Touch>) {
    match c
    case Simple(words, input, output) =>
      (gone && !zero && Redirects(input, output)) || (gone == IsExec(words) && !OpenHits(input, output, avoid))
    case Subshell(body, input, output) =>
      (gone && !zero && Redirects(input, output)) || (Ends(body, gone, zero, avoid) && !OpenHits(input, output, avoid))
    case Compound(op, l, r) =>
      if op.Pipe? then
        !gone && (Ends(l, true, zero, avoid) || Ends(l, false, zero, avoid) || Ends(r, true, zero, avoid) || Ends(r, false, zero, avoid))
      else
        || (gone && Ends(l, true, zero, avoid))
        || (!gone && (if zero then op.Or? else op.And?) && Ends(l, false, zero, avoid))
        || (RightRuns(op, Ends(l, false, true, avoid), Ends(l, false, false, avoid)) && Ends(r, gone, zero, avoid))
  }

  /** Whether the right side runs after a left side that can return with status zero, or with another. */
  predicate RightRuns(op: Operator, zero: bool, nonzero: bool) {
    match op
    case Pipe => true
    case Sequence => zero || nonzero
    case And => zero
    case Or => nonzero
  }

  function OpenReach(input: Option<string>, output: Option<string>, avoid: set<Touch>): set<Touch> {
    (if input.Some? then {Opened(input.value)} else {}) +
    (if output.Some? && !(input.Some? && Opened(input.value) in avoid) then {Emptied(output.value)} else {})
  }

  /** Every touch that the text of c allows, subshells included, with none to avoid before it. */
  function Reach(w: World, c: Command, io: Io, avoid: set<Touch>): set<Touch> {
    match c
    case Simple(words, input, output) =>
      OpenReach(input, output, avoid) +
      (if OpenHits(input, output, avoid) then {} else ProgramTouches(w, words, Redirected(input, output, io)))
    case Subshell(body, input, output) =>
      OpenReach(input, output, avoid) +
      (if OpenHits(input, output, avoid) then {} else Reach(w, body, Redirected(input, output, io), avoid))
    case Compound(op, left, right) =>
      var lio := if op.Pipe? then Io(io.stdin, None) else io;
      var rio := if op.Pipe? then Io(None, io.stdout) else io;
      Reach(w, left, lio, avoid) +
      (if RightRuns(op, Ends(left, false, true, avoid), Ends(left, false, false, avoid)) then Reach(w, right, rio, avoid) else {})
  }

  // ---------------------------------------------------------------- nothing happens beyond the reach

  /** None of these touches has been made; an input that is not found does not count. */
  ghost predicate Avoids(h: seq<Access>, avoid: set<Touch>) {
    forall a, x :: a in h && x in avoid && Does(a, x) ==> a.Open? && !a.found
  }

  ghost predicate InReach(w: World, c: Command, io: Io, avoid: set<Touch>, a: Access) {
    exists x :: x in Reach(w, c, io, avoid) && Does(a, x)
  }

  lemma {:induction false} ShuffledMembers(a: seq<Access>, b: seq<Access>, h: seq<Access>, x: Access)
    requires Shuffled(a, b, h)
    ensures x in h <==> x in a || x in b
    decreases |h|
  {
    if h != [] {
      if a != [] && a[0] == h[0] && Shuffled(a[1..], b, h[1..]) {
        ShuffledMembers(a[1..], b, h[1..], x);
      } else {
        ShuffledMembers(a, b[1..], h[1..], x);
      }
    }
  }

  /** Each access of a shuffle is one of the left or of the right, with all that comes before it there. */
  lemma {:induction false} ShuffledAt(a: seq<Access>, b: seq<Access>, h: seq<Access>, n: nat) returns (left: bool, m: nat)
    requires Shuffled(a, b, h) && n < |h|
    ensures var side := if left then a else b;
            m < |side| && side[m] == h[n] && forall x :: x in side[..m] ==> x in h[..n]
    decreases |h|
  {
    var inLeft := a != [] && a[0] == h[0] && Shuffled(a[1..], b, h[1..]);
    if n == 0 {
      left, m := inLeft, 0;
    } else {
      assert h[..n] == [h[0]] + h[1..][..n - 1];
      left, m := ShuffledAt(if inLeft then a[1..] else a, if inLeft then b else b[1..], h[1..], n - 1);
      if left == inLeft {
        var side := if left then a else b;
        assert side[..m + 1] == [side[0]] + side[1..][..m];
        m := m + 1;
      }
    }
  }

  lemma {:induction false} ShuffledConcat(a: seq<Access>, b: seq<Access>)
    ensures Shuffled(a, b, a + b)
    decreases |a| + |b|
  {
    if a != [] {
      assert (a + b)[1..] == a[1..] + b;
      ShuffledConcat(a[1..], b);
    } else if b != [] {
      assert (a + b)[1..] == a + b[1..];
      ShuffledConcat(a, b[1..]);
    }
  }

  lemma PipeParts(w: World, c: Command, io: Io, h: seq<Access>, o: Outcome)
    returns (a: seq<Access>, oa: Outcome, b: seq<Access>, ob: Outcome)
    requires c.Compound? && c.op.Pipe? && Exec(w, c, io, h, o)
    ensures Exec(w, c.left, Io(io.stdin, None), a, oa) && Exec(w, c.right, Io(None, io.stdout), b, ob)
    ensures Shuffled(a, b, h) && (o == Exited(oa.status) || o == Exited(ob.status))
  {
    a, b, oa, ob :| Exec(w, c.left, Io(io.stdin, None), a, oa) && Exec(w, c.right, Io(None, io.stdout), b, ob) &&
      Shuffled(a, b, h) && (o == Exited(oa.status) || o == Exited(ob.status));
  }

  lemma ListParts(w: World, c: Command, io: Io, h: seq<Access>, o: Outcome) returns (k: nat, oa: Outcome)
    requires c.Compound? && !c.op.Pipe? && Exec(w, c, io, h, o)
    ensures k <= |h| && Exec(w, c.left, io, h[..k], oa)
    ensures if oa.Gone? || Skips(c.op, oa.status) then k == |h| && o == oa else Exec(w, c.right, io, h[k..], o)
  {
    k, oa :| k <= |h| && Exec(w, c.left, io, h[..k], oa) &&
      if oa.Gone? || Skips(c.op, oa.status) then k == |h| && o == oa else Exec(w, c.right, io, h[k..], o);
  }

  lemma SubshellParts(w: World, c: Command, io: Io, h: seq<Access>, o: Outcome)
    requires c.Subshell? && Exec(w, c, io, h, o)
    requires !(OpenFails(c.input, c.output, h) && o == Gone(1))
    ensures Opening(c.input, c.output) <= h
    ensures Exec(w, c.body, Redirected(c.input, c.output, io), h[|Opening(c.input, c.output)|..], o)
  {
  }

  /** What redirect does is within reach, and a command goes on only after files it need not avoid. */
  lemma OpensInReach(input: Option<string>, output: Option<string>, h: seq<Access>, avoid: set<Touch>, n: nat)
    requires OpenFails(input, output, h) || Opening(input, output) <= h
    requires n < |h| && Avoids(h[..n], avoid)
    ensures OpenFails(input, output, h) || n < |Opening(input, output)| ==> exists x :: x in OpenReach(input, output, avoid) && Does(h[n], x)
    ensures !OpenFails(input, output, h) && n >= |Opening(input, output)| ==> !OpenHits(input, output, avoid)
  {
    var opens := Opening(input, output);
    if OpenFails(input, output, h) || n < |opens| {
      if n == 0 && input.Some? {
        assert Does(h[n], Opened(input.value));
      } else {
        assert Does(h[n], Emptied(output.value));
        if input.Some? {
          assert h[..n][0] == Open(input.value, true) && Does(h[..n][0], Opened(input.value));
        }
      }
    } else {
      PassedOpens(input, output, h[..n], avoid);
    }
  }

  lemma PassedOpens(input: Option<string>, output: Option<string>, h: seq<Access>, avoid: set<Touch>)
    requires Opening(input, output) <= h && Avoids(h, avoid)
    ensures !OpenHits(input, output, avoid)
  {
    var opens := Opening(input, output);
    if input.Some? {
      assert h[0] == opens[0] && h[0] in h && Does(h[0], Opened(input.value));
    }
    if output.Some? {
      var last := |opens| - 1;
      assert h[last] == opens[last] && h[last] in h && Does(h[last], Emptied(output.value)) && Does(h[last], Out(output.value));
    }
  }

  lemma AvoidsPart(h: seq<Access>, g: seq<Access>, avoid: set<Touch>)
    requires Avoids(h, avoid) && forall a :: a in g ==> a in h
    ensures Avoids(g, avoid)
  {
  }

  lemma {:induction false} ExecEnds(w: World, c: Command, io: Io, h: seq<Access>, o: Outcome, avoid: set<Touch>)
    requires Exec(w, c, io, h, o) && Avoids(h, avoid)
    ensures Ends(c, o.Gone?, o.status == 0, avoid)
    decreases c
  {
    hide Exec, Avoids;
    match c
    case Simple(words, input, output) =>
      if !(OpenFails(input, output, h) && o == Gone(1)) {
        SimpleParts(w, c, io, h, o);
        PassedOpens(input, output, h, avoid);
      }
    case Subshell(body, input, output) =>
      if !(OpenFails(input, output, h) && o == Gone(1)) {
        SubshellParts(w, c, io, h, o);
        PassedOpens(input, output, h, avoid);
        var rest := h[|Opening(input, output)|..];
        AvoidsPart(h, rest, avoid);
        ExecEnds(w, body, Redirected(input, output, io), rest, o, avoid);
      }
    case Compound(op, left, right) =>
      if op.Pipe? {
        var a, oa, b, ob := PipeParts(w, c, io, h, o);
        forall x
          ensures x in a || x in b ==> x in h
        {
          ShuffledMembers(a, b, h, x);
        }
        AvoidsPart(h, a, avoid);
        AvoidsPart(h, b, avoid);
        ExecEnds(w, left, Io(io.stdin, None), a, oa, avoid);
        ExecEnds(w, right, Io(None, io.stdout), b, ob, avoid);
      } else {
        var k, oa := ListParts(w, c, io, h, o);
        AvoidsPart(h, h[..k], avoid);
        ExecEnds(w, left, io, h[..k], oa, avoid);
        if !(oa.Gone? || Skips(op, oa.status)) {
          AvoidsPart(h, h[k..], avoid);
          ExecEnds(w, right, io, h[k..], o, avoid);
        }
      }
  }

  lemma SimpleParts(w: World, c: Command, io: Io, h: seq<Access>, o: Outcome)
    requires c.Simple? && Exec(w, c, io, h, o)
    requires !(OpenFails(c.input, c.output, h) && o == Gone(1))
    ensures Opening(c.input, c.output) <= h && o.Gone? == IsExec(c.words)
    ensures ProgramRun(w, c.words, Redirected(c.input, c.output, io), h[|Opening(c.input, c.output)|..])
  {
  }

  lemma SimpleInReach(w: World, c: Command, io: Io, h: seq<Access>, o: Outcome, avoid: set<Touch>, n: nat)
    requires c.Simple? && Exec(w, c, io, h, o) && n < |h| && Avoids(h[..n], avoid)
    ensures InReach(w, c, io, avoid, h[n])
  {
    hide Exec, Avoids, Does;
    var opens := Opening(c.input, c.output);
    if OpenFails(c.input, c.output, h) && o == Gone(1) {
      OpensInReach(c.input, c.output, h, avoid, n);
    } else {
      SimpleParts(w, c, io, h, o);
      if n < |opens| {
        OpensInReach(c.input, c.output, h, avoid, n);
      } else {
        assert opens <= h[..n];
        PassedOpens(c.input, c.output, h[..n], avoid);
        assert h[|opens|..][n - |opens|] == h[n];
        var x := if h[n].Read? then In(h[n].file) else Out(h[n].file);
        DoesAccess(h[n]);
        assert x in Reach(w, c, io, avoid);
      }
    }
  }

  lemma DoesAccess(a: Access)
    ensures !a.Open? ==> Does(a, if a.Read? then In(a.file) else Out(a.file))
  {
  }

  /** An access before which nothing to avoid has happened is within reach. */
  lemma {:induction false} ExecInReach(w: World, c: Command, io: Io, h: seq<Access>, o: Outcome, avoid: set<Touch>, n: nat)
    requires Exec(w, c, io, h, o) && n < |h| && Avoids(h[..n], avoid)
    ensures InReach(w, c, io, avoid, h[n])
    decreases c
  {
    hide Exec, Avoids, Does, Ends;
    if c.Simple? {
      SimpleInReach(w, c, io, h, o, avoid, n);
    } else if c.Subshell? {
      var opens := Opening(c.input, c.output);
      if OpenFails(c.input, c.output, h) && o == Gone(1) {
        OpensInReach(c.input, c.output, h, avoid, n);
      } else {
        SubshellParts(w, c, io, h, o);
        if n < |opens| {
          OpensInReach(c.input, c.output, h, avoid, n);
        } else {
          assert opens <= h[..n];
          PassedOpens(c.input, c.output, h[..n], avoid);
          var rest, m := h[|opens|..], n - |opens|;
          AvoidsPart(h[..n], rest[..m], avoid);
          ExecInReach(w, c.body, Redirected(c.input, c.output, io), rest, o, avoid, m);
        }
      }
    } else if c.op.Pipe? {
      var a, oa, b, ob := PipeParts(w, c, io, h, o);
      var left, m := ShuffledAt(a, b, h, n);
      if left {
        AvoidsPart(h[..n], a[..m], avoid);
        ExecInReach(w, c.left, Io(io.stdin, None), a, oa, avoid, m);
      } else {
        AvoidsPart(h[..n], b[..m], avoid);
        ExecInReach(w, c.right, Io(None, io.stdout), b, ob, avoid, m);
      }
    } else {
      var k, oa := ListParts(w, c, io, h, o);
      if n < k {
        assert h[..k][..n] == h[..n];
        ExecInReach(w, c.left, io, h[..k], oa, avoid, n);
      } else {
        AvoidsPart(h[..n], h[..k], avoid);
        ExecEnds(w, c.left, io, h[..k], oa, avoid);
        AvoidsPart(h[..n], h[k..][..n - k], avoid);
        ExecInReach(w, c.right, io, h[k..], o, avoid, n - k);
      }
    }
  }

  // ---------------------------------------------------------------- everything within reach happens

  lemma {:induction false} Idle(w: World, c: Command, io: Io) returns (o: Outcome)
    ensures Exec(w, c, io, [], o)
    decreases c
  {
    var none: seq<Access> := [];
    match c
    case Simple(words, input, output) =>
      o := if Redirects(input, output) then Gone(1) else if IsExec(words) then Gone(0) else Exited(0);
    case Subshell(body, input, output) =>
      o := Idle(w, body, Redirected(input, output, io));
      if Redirects(input, output) {
        o := Gone(1);
      }
    case Compound(op, left, right) =>
      if op.Pipe? {
        var oa := Idle(w, left, Io(io.stdin, None));
        var ob := Idle(w, right, Io(None, io.stdout));
        ExecPipe(w, c, io, [], oa, [], ob);
        assert none + none == none;
        o := Exited(oa.status);
      } else {
        var oa := Idle(w, left, io);
        if oa.Gone? || Skips(op, oa.status) {
          ExecStop(w, c, io, [], oa);
          o := oa;
        } else {
          o := Idle(w, right, io);
          ExecBoth(w, c, io, [], oa, [], o);
          assert none + none == none;
        }
      }
  }

  lemma ExecSimple(w: World, c: Command, io: Io, p: seq<Access>, status: nat) returns (h: seq<Access>, o: Outcome)
    requires c.Simple? && ProgramRun(w, c.words, Redirected(c.input, c.output, io), p)
    ensures Exec(w, c, io, h, o) && h == Opening(c.input, c.output) + p
    ensures o == if IsExec(c.words) then Gone(status) else Exited(status)
  {
    h := Opening(c.input, c.output) + p;
    o := if IsExec(c.words) then Gone(status) else Exited(status);
    assert h[|Opening(c.input, c.output)|..] == p;
  }

  lemma ExecSubshell(w: World, c: Command, io: Io, u: seq<Access>, o: Outcome) returns (h: seq<Access>)
    requires c.Subshell? && Exec(w, c.body, Redirected(c.input, c.output, io), u, o)
    ensures h == Opening(c.input, c.output) + u && Exec(w, c, io, h, o)
  {
    h := Opening(c.input, c.output) + u;
    assert h[|Opening(c.input, c.output)|..] == u;
  }

  lemma ExecPipe(w: World, c: Command, io: Io, a: seq<Access>, oa: Outcome, b: seq<Access>, ob: Outcome)
    requires c.Compound? && c.op.Pipe?
    requires Exec(w, c.left, Io(io.stdin, None), a, oa) && Exec(w, c.right, Io(None, io.stdout), b, ob)
    ensures Exec(w, c, io, a + b, Exited(oa.status)) && Exec(w, c, io, a + b, Exited(ob.status))
  {
    ShuffledConcat(a, b);
  }

  lemma ExecStop(w: World, c: Command, io: Io, a: seq<Access>, oa: Outcome)
    requires c.Compound? && !c.op.Pipe? && Exec(w, c.left, io, a, oa) && (oa.Gone? || Skips(c.op, oa.status))
    ensures Exec(w, c, io, a, oa)
  {
    assert a[..|a|] == a;
  }

  lemma ExecBoth(w: World, c: Command, io: Io, a: seq<Access>, oa: Outcome, b: seq<Access>, ob: Outcome)
    requires c.Compound? && !c.op.Pipe? && Exec(w, c.left, io, a, oa) && !oa.Gone? && !Skips(c.op, oa.status)
    requires Exec(w, c.right, io, b, ob)
    ensures Exec(w, c, io, a + b, ob)
  {
    var h, k := a + b, |a|;
    assert h[..k] == a && h[k..] == b;
  }

  /** Only inputs that are found and outputs that are truncated, none of them to avoid. */
  ghost predicate Quiet(h: seq<Access>, avoid: set<Touch>) {
    forall a :: a in h ==> ((a.Open? && a.found) || (a.Write? && a.content == "")) && forall x :: x in avoid ==> !Does(a, x)
  }

  lemma OpeningIsQuiet(input: Option<string>, output: Option<string>, avoid: set<Touch>)
    requires !OpenHits(input, output, avoid)
    ensures Quiet(Opening(input, output), avoid)
  {
  }

  lemma QuietBoth(a: seq<Access>, b: seq<Access>, avoid: set<Touch>)
    requires Quiet(a, avoid) && Quiet(b, avoid)
    ensures Quiet(a + b, avoid)
  {
  }

  lemma {:induction false} EndDoes(w: World, c: Command, io: Io, gone: bool, zero: bool, avoid: set<Touch>) returns (h: seq<Access>, o: Outcome)
    requires Ends(c, gone, zero, avoid)
    ensures Exec(w, c, io, h, o) && o.Gone? == gone && (o.status == 0) == zero && Quiet(h, avoid)
    decreases c
  {
    hide Exec, Quiet;
    var status := if zero then 0 else 1;
    match c
    case Simple(words, input, output) =>
      if gone && !zero && Redirects(input, output) {
        h, o := [], Gone(1);
        NoAccess(w, c, io, avoid);
      } else {
        h, o := ExecSimple(w, c, io, [], status);
        OpeningIsQuiet(input, output, avoid);
        assert h == Opening(input, output);
      }
    case Subshell(body, input, output) =>
      if gone && !zero && Redirects(input, output) {
        h, o := [], Gone(1);
        NoAccess(w, c, io, avoid);
      } else {
        h, o := EndDoes(w, body, Redirected(input, output, io), gone, zero, avoid);
        OpeningIsQuiet(input, output, avoid);
        QuietBoth(Opening(input, output), h, avoid);
        h := ExecSubshell(w, c, io, h, o);
      }
    case Compound(op, left, right) =>
      if op.Pipe? {
        h, o := PipeEndDoes(w, c, io, zero, avoid);
      } else if gone && Ends(left, true, zero, avoid) {
        h, o := EndDoes(w, left, io, true, zero, avoid);
        ExecStop(w, c, io, h, o);
      } else if !gone && (if zero then op.Or? else op.And?) && Ends(left, false, zero, avoid) {
        h, o := EndDoes(w, left, io, false, zero, avoid);
        ExecStop(w, c, io, h, o);
      } else {
        var a, oa := EndDoes(w, left, io, false, Passing(left, op, avoid), avoid);
        var b, ob := EndDoes(w, right, io, gone, zero, avoid);
        ExecBoth(w, c, io, a, oa, b, ob);
        QuietBoth(a, b, avoid);
        h, o := a + b, ob;
      }
  }

  lemma NoAccess(w: World, c: Command, io: Io, avoid: set<Touch>)
    requires !c.Compound? && Redirects(c.input, c.output)
    ensures Exec(w, c, io, [], Gone(1)) && Quiet([], avoid)
  {
    var none: seq<Access> := [];
    assert none <= Opening(c.input, c.output);
  }

  /** The status of a left side after which the right side runs: zero or not. */
  predicate Passing(left: Command, op: Operator, avoid: set<Touch>) {
    op.And? || (!op.Or? && Ends(left, false, true, avoid))
  }

  lemma {:induction false} PipeEndDoes(w: World, c: Command, io: Io, zero: bool, avoid: set<Touch>) returns (h: seq<Access>, o: Outcome)
    requires c.Compound? && c.op.Pipe? && Ends(c, false, zero, avoid)
    ensures Exec(w, c, io, h, o) && o.Exited? && (o.status == 0) == zero && Quiet(h, avoid)
    decreases c, 0
  {
    hide Exec, Quiet;
    var lio, rio := Io(io.stdin, None), Io(None, io.stdout);
    if Ends(c.left, true, zero, avoid) || Ends(c.left, false, zero, avoid) {
      var a, oa := EndDoes(w, c.left, lio, Ends(c.left, true, zero, avoid), zero, avoid);
      var ob := Idle(w, c.right, rio);
      ExecPipe(w, c, io, a, oa, [], ob);
      assert a + [] == a;
      h, o := a, Exited(oa.status);
    } else {
      var oa := Idle(w, c.left, lio);
      var b, ob := EndDoes(w, c.right, rio, Ends(c.right, true, zero, avoid), zero, avoid);
      ExecPipe(w, c, io, [], oa, b, ob);
      assert [] + b == b;
      h, o := b, Exited(ob.status);
    }
  }

  lemma LeadsBy(w: World, c: Command, io: Io, p: seq<Access>, h: seq<Access>, o: Outcome)
    requires Exec(w, c, io, h, o) && p <= h
    ensures Leads(w, c, io, p)
  {
  }

  lemma LeadsSubshell(w: World, c: Command, io: Io, p: seq<Access>)
    requires c.Subshell? && Leads(w, c.body, Redirected(c.input, c.output, io), p)
    ensures Leads(w, c, io, Opening(c.input, c.output) + p)
  {
    var u, o :| Exec(w, c.body, Redirected(c.input, c.output, io), u, o) && p <= u;
    hide Exec;
    var h := ExecSubshell(w, c, io, u, o);
  }

  lemma LeadsLeft(w: World, c: Command, io: Io, p: seq<Access>)
    requires c.Compound? && Leads(w, c.left, if c.op.Pipe? then Io(io.stdin, None) else io, p)
    ensures Leads(w, c, io, p)
  {
    var lio := if c.op.Pipe? then Io(io.stdin, None) else io;
    var h, o :| Exec(w, c.left, lio, h, o) && p <= h;
    hide Exec;
    assert h + [] == h;
    if c.op.Pipe? {
      var ob := Idle(w, c.right, Io(None, io.stdout));
      ExecPipe(w, c, io, h, o, [], ob);
    } else if o.Gone? || Skips(c.op, o.status) {
      ExecStop(w, c, io, h, o);
    } else {
      var ob := Idle(w, c.right, io);
      ExecBoth(w, c, io, h, o, [], ob);
    }
  }

  lemma LeadsRight(w: World, c: Command, io: Io, a: seq<Access>, oa: Outcome, p: seq<Access>)
    requires c.Compound? && !c.op.Pipe? && Exec(w, c.left, io, a, oa) && !oa.Gone? && !Skips(c.op, oa.status)
    requires Leads(w, c.right, io, p)
    ensures Leads(w, c, io, a + p)
  {
    var h, o :| Exec(w, c.right, io, h, o) && p <= h;
    hide Exec;
    ExecBoth(w, c, io, a, oa, h, o);
    assert a + p <= a + h;
  }

  lemma LeadsRightOfPipe(w: World, c: Command, io: Io, p: seq<Access>)
    requires c.Compound? && c.op.Pipe? && Leads(w, c.right, Io(None, io.stdout), p)
    ensures Leads(w, c, io, p)
  {
    hide Exec;
    var h, o :| Exec(w, c.right, Io(None, io.stdout), h, o) && p <= h;
    var oa := Idle(w, c.left, Io(io.stdin, None));
    ExecPipe(w, c, io, [], oa, h, o);
    assert [] + h == h;
  }

  /** redirect comes to each of its files. */
  lemma InputFront(w: World, c: Command, io: Io, f: string, a: Access)
    requires !c.Compound? && c.input == Some(f) && Does(a, Opened(f))
    ensures Leads(w, c, io, [a])
  {
    assert OpenFails(c.input, c.output, [a]) by {
      assert a.found ==> [a] == Opening(c.input, c.output)[..1];
    }
    assert Exec(w, c, io, [a], Gone(1));
    hide Exec;
    LeadsBy(w, c, io, [a], [a], Gone(1));
  }

  lemma OutputFront(w: World, c: Command, io: Io, f: string, a: Access)
    requires !c.Compound? && c.output == Some(f) && Does(a, Emptied(f))
    ensures Opening(c.input, c.output)[|Opening(c.input, c.output)| - 1] == a
    ensures Leads(w, c, io, Opening(c.input, c.output))
  {
    var opens := Opening(c.input, c.output);
    assert OpenFails(c.input, c.output, opens);
    assert Exec(w, c, io, opens, Gone(1));
    hide Exec;
    LeadsBy(w, c, io, opens, opens, Gone(1));
  }

  lemma OpenFront(w: World, c: Command, io: Io, x: Touch, avoid: set<Touch>) returns (front: seq<Access>)
    requires !c.Compound? && x in OpenReach(c.input, c.output, avoid)
    ensures Quiet(front, avoid) && forall a :: Does(a, x) ==> Leads(w, c, io, front + [a])
  {
    if x.Opened? {
      front := [];
      InputFrontEmpty(w, c, io, x.file);
    } else {
      front := OutputWay(w, c, io, x.file, avoid);
    }
  }

  lemma InputFrontEmpty(w: World, c: Command, io: Io, f: string)
    requires !c.Compound? && c.input == Some(f)
    ensures forall a :: Does(a, Opened(f)) ==> Leads(w, c, io, [] + [a])
  {
    hide Exec, Leads;
    forall a | Does(a, Opened(f))
      ensures Leads(w, c, io, [] + [a])
    {
      InputFront(w, c, io, f, a);
      assert [] + [a] == [a];
    }
  }

  lemma OutputWay(w: World, c: Command, io: Io, f: string, avoid: set<Touch>) returns (front: seq<Access>)
    requires !c.Compound? && Emptied(f) in OpenReach(c.input, c.output, avoid)
    ensures Quiet(front, avoid) && forall a :: Does(a, Emptied(f)) ==> Leads(w, c, io, front + [a])
  {
    hide Exec, Leads;
    var opens := Opening(c.input, c.output);
    front := opens[..|opens| - 1];
    forall a | Does(a, Emptied(f))
      ensures Leads(w, c, io, front + [a])
    {
      OutputFront(w, c, io, f, a);
      assert front + [a] == opens;
    }
  }

  lemma ProgramFront(w: World, c: Command, io: Io, x: Touch, avoid: set<Touch>) returns (front: seq<Access>)
    requires c.Simple? && x in ProgramTouches(w, c.words, Redirected(c.input, c.output, io)) && !OpenHits(c.input, c.output, avoid)
    ensures Quiet(front, avoid) && forall a :: Does(a, x) ==> Leads(w, c, io, front + [a])
  {
    front := Opening(c.input, c.output);
    OpeningIsQuiet(c.input, c.output, avoid);
    hide Exec;
    forall a | Does(a, x)
      ensures Leads(w, c, io, front + [a])
    {
      var h, o := ExecSimple(w, c, io, [a], 0);
      LeadsBy(w, c, io, front + [a], h, o);
    }
  }

  /** Everything within reach happens in some execution, with nothing to avoid before it, and whatever
      is then seen or written. */
  lemma {:induction false} ReachFront(w: World, c: Command, io: Io, x: Touch, avoid: set<Touch>) returns (front: seq<Access>)
    requires x in Reach(w, c, io, avoid)
    ensures Quiet(front, avoid) && forall a :: Does(a, x) ==> Leads(w, c, io, front + [a])
    decreases c
  {
    hide Exec, Quiet, Does, Leads, Ends;
    match c
    case Simple(words, input, output) =>
      if x in OpenReach(input, output, avoid) {
        front := OpenFront(w, c, io, x, avoid);
      } else {
        front := ProgramFront(w, c, io, x, avoid);
      }
    case Subshell(body, input, output) =>
      if x in OpenReach(input, output, avoid) {
        front := OpenFront(w, c, io, x, avoid);
      } else {
        var inner := ReachFront(w, body, Redirected(input, output, io), x, avoid);
        OpeningIsQuiet(input, output, avoid);
        QuietBoth(Opening(input, output), inner, avoid);
        front := Opening(input, output) + inner;
        forall a | Does(a, x)
          ensures Leads(w, c, io, front + [a])
        {
          LeadsSubshell(w, c, io, inner + [a]);
          assert front + [a] == Opening(input, output) + (inner + [a]);
        }
      }
    case Compound(op, left, right) =>
      var lio := if op.Pipe? then Io(io.stdin, None) else io;
      if x in Reach(w, left, lio, avoid) {
        front := ReachFront(w, left, lio, x, avoid);
        forall a | Does(a, x)
          ensures Leads(w, c, io, front + [a])
        {
          LeadsLeft(w, c, io, front + [a]);
        }
      } else {
        front := RightFront(w, c, io, x, avoid);
      }
  }

  lemma {:induction false} RightFront(w: World, c: Command, io: Io, x: Touch, avoid: set<Touch>) returns (front: seq<Access>)
    requires c.Compound? && x in Reach(w, c.right, if c.op.Pipe? then Io(None, io.stdout) else io, avoid)
    requires RightRuns(c.op, Ends(c.left, false, true, avoid), Ends(c.left, false, false, avoid))
    ensures Quiet(front, avoid) && forall a :: Does(a, x) ==> Leads(w, c, io, front + [a])
    decreases c, 0
  {
    hide Exec, Quiet, Does, Leads, Ends;
    if c.op.Pipe? {
      front := ReachFront(w, c.right, Io(None, io.stdout), x, avoid);
      forall a | Does(a, x)
        ensures Leads(w, c, io, front + [a])
      {
        LeadsRightOfPipe(w, c, io, front + [a]);
      }
    } else {
      var u, ou := EndDoes(w, c.left, io, false, Passing(c.left, c.op, avoid), avoid);
      var inner := ReachFront(w, c.right, io, x, avoid);
      QuietBoth(u, inner, avoid);
      front := u + inner;
      forall a | Does(a, x)
        ensures Leads(w, c, io, front + [a])
      {
        LeadsRight(w, c, io, u, ou, inner + [a]);
        assert front + [a] == u + (inner + [a]);
      }
    }
  }

  // ---------------------------------------------------------------- against the lists

  predicate Listing(c: Command, x: Touch) {
    if x.Opened? || x.In? then x.file in Reads(c) else x.file in Writes(c)
  }

  /** What a caller can check before forking: the lists cover everything within reach. */
  predicate Covered(w: World, c: Command) {
    forall x :: x in Reach(w, c, TERMINAL, {}) ==> Listing(c, x)
  }

  ghost predicate AllListed(c: Command, h: seq<Access>) {
    forall a :: a in h ==> if a.Write? then a.file in Writes(c) else a.file in Reads(c)
  }

  /** Every execution stays inside the two lists. */
  ghost predicate SoundLists(w: World, c: Command) {
    forall h, o :: Exec(w, c, TERMINAL, h, o) ==> AllListed(c, h)
  }

  lemma CoveredListed(w: World, c: Command, h: seq<Access>, o: Outcome)
    requires Covered(w, c) && Exec(w, c, TERMINAL, h, o)
    ensures AllListed(c, h)
  {
    hide Exec, Reach;
    forall a | a in h
      ensures if a.Write? then a.file in Writes(c) else a.file in Reads(c)
    {
      var n :| 0 <= n < |h| && h[n] == a;
      ExecInReach(w, c, TERMINAL, h, o, {}, n);
      var x :| x in Reach(w, c, TERMINAL, {}) && Does(a, x);
      assert Listing(c, x);
    }
  }

  function SomeAccess(x: Touch): (a: Access)
    ensures Does(a, x)
  {
    match x
    case Opened(f) => Open(f, true)
    case In(f) => Read(f, None)
    case Out(f) => Write(f, "")
    case Emptied(f) => Write(f, "")
  }

  /** The lists are a sound footprint exactly when they cover the reach. */
  lemma FootprintExact(w: World, c: Command)
    ensures SoundLists(w, c) <==> Covered(w, c)
  {
    hide Exec, Reach;
    if Covered(w, c) {
      forall h, o | Exec(w, c, TERMINAL, h, o)
        ensures AllListed(c, h)
      {
        CoveredListed(w, c, h, o);
      }
    }
    if SoundLists(w, c) {
      forall x | x in Reach(w, c, TERMINAL, {})
        ensures Listing(c, x)
      {
        var front := ReachFront(w, c, TERMINAL, x, {});
        var p := front + [SomeAccess(x)];
        assert Leads(w, c, TERMINAL, p);
        var h, o :| Exec(w, c, TERMINAL, h, o) && p <= h;
        assert AllListed(c, h) && h[|front|] == SomeAccess(x) && h[|front|] in h;
      }
    }
  }

  predicate SubshellFree(c: Command) {
    match c
    case Simple(_, _, _) => true
    case Subshell(_, _, _) => false
    case Compound(_, left, right) => SubshellFree(left) && SubshellFree(right)
  }

  /** Outside its redirections every simple command reads only files of the read list and writes
      only files of the write list that the tree contributes for it. */
  predicate Recorded(w: World, c: Command) {
    match c
    case Simple(words, _, _) => (forall f :: f in w.sources(words) ==> f in Reads(c)) && (forall f :: f in w.targets(words) ==> f in Writes(c))
    case Subshell(body, _, _) => Recorded(w, body)
    case Compound(_, left, right) => Recorded(w, left) && Recorded(w, right)
  }

  lemma {:induction false} SubshellFreeReach(w: World, c: Command, io: Io, x: Touch)
    requires SubshellFree(c) && Recorded(w, c) && x in Reach(w, c, io, {})
    ensures Listing(c, x) || (x.In? && io.stdin == Some(x.file)) || (x.Out? && io.stdout == Some(x.file))
    decreases c
  {
    match c
    case Simple(words, input, output) =>
    case Compound(op, left, right) =>
      var lio := if op.Pipe? then Io(io.stdin, None) else io;
      var rio := if op.Pipe? then Io(None, io.stdout) else io;
      if x in Reach(w, left, lio, {}) {
        SubshellFreeReach(w, left, lio, x);
      } else {
        SubshellFreeReach(w, right, rio, x);
      }
  }

  /** Without subshells the lists cover what is touched, if the programs keep to them. */
  lemma SubshellFreeIsCovered(w: World, c: Command)
    requires SubshellFree(c) && Recorded(w, c)
    ensures Covered(w, c)
  {
    hide Reach;
    forall x | x in Reach(w, c, TERMINAL, {})
      ensures Listing(c, x)
    {
      SubshellFreeReach(w, c, TERMINAL, x);
    }
  }

  /** For a simple command that is exactly what it takes. */
  lemma SimpleIsCovered(w: World, c: Command)
    requires c.Simple?
    ensures Covered(w, c) <==> Recorded(w, c)
  {
    if Covered(w, c) {
      forall f | f in w.sources(c.words)
        ensures f in Reads(c)
      {
        assert In(f) in Reach(w, c, TERMINAL, {});
      }
      forall f | f in w.targets(c.words)
        ensures f in Writes(c)
      {
        assert Out(f) in Reach(w, c, TERMINAL, {});
      }
    } else {
      hide Reach;
      if Recorded(w, c) {
        SubshellFreeIsCovered(w, c);
      }
    }
  }

  /** What the shell takes for granted: a program reads those of its arguments that are not options
      and writes nothing but its output. */
  ghost predicate OnlyReads(w: World) {
    && (forall words: seq<string>, f: string :: f in w.sources(words) ==> exists i :: 1 <= i < |words| && words[i] == f && (words[i] == "" || words[i][0] != '-'))
    && (forall words, f :: f !in w.targets(words))
  }

  lemma {:induction false} OnlyReadsRecorded(w: World, c: Command)
    requires OnlyReads(w)
    ensures Recorded(w, c)
    decreases c
  {
    match c
    case Simple(words, _, _) =>
      forall f | f in w.sources(words)
        ensures f in Reads(c)
      {
        var i :| 1 <= i < |words| && words[i] == f && (words[i] == "" || words[i][0] != '-');
        ArgumentsMembers(words, f);
        assert f in FileWords(Arguments(words));
      }
    case Subshell(body, _, _) => OnlyReadsRecorded(w, body);
    case Compound(_, left, right) =>
      OnlyReadsRecorded(w, left);
      OnlyReadsRecorded(w, right);
  }

  // ---------------------------------------------------------------- scripts of shell commands

  /** The commands of a script as processes: their accesses follow some execution. */
  ghost function ShellProcesses(w: World, cmds: seq<Command>): Processes {
    Processes((c: nat, h: seq<Access>, a: Access) => c < |cmds| && Leads(w, cmds[c], TERMINAL, h + [a]),
              (c: nat, h: seq<Access>) => c < |cmds| && exists o :: Exec(w, cmds[c], TERMINAL, h, o))
  }

  lemma CoveredIsDisciplined(w: World, cmds: seq<Command>)
    requires forall c :: 0 <= c < |cmds| ==> Covered(w, cmds[c])
    ensures Disciplined(cmds, ShellProcesses(w, cmds))
  {
    hide Exec, Covered;
    forall c: nat, h, a | c < |cmds| && ShellProcesses(w, cmds).may(c, h, a)
      ensures InFootprint(cmds[c], a)
    {
      var all, o :| Exec(w, cmds[c], TERMINAL, all, o) && h + [a] <= all;
      CoveredListed(w, cmds[c], all, o);
      assert all[|h|] == a && a in all;
    }
  }

  /** Time travel gives every script of covered commands an outcome of running them one after the
      other. */
  lemma ScriptsAreSerializable(w: World, cmds: seq<Command>, s0: Store, run: seq<State>) returns (script: seq<State>)
    requires forall c :: 0 <= c < |cmds| ==> Covered(w, cmds[c])
    requires IsRun(Plan(cmds), ShellProcesses(w, cmds), s0, run) && Complete(Plan(cmds), run[|run| - 1])
    ensures IsRun(SequentialPlan(|cmds|), ShellProcesses(w, cmds), s0, script)
    ensures Complete(SequentialPlan(|cmds|), script[|script| - 1])
    ensures script[|script| - 1].store == run[|run| - 1].store
    ensures SameHistories(script[|script| - 1].trace, run[|run| - 1].trace)
  {
    hide Covered, Plan, ShellProcesses;
    CoveredIsDisciplined(w, cmds);
    script := SameAsSequential(cmds, ShellProcesses(w, cmds), s0, run);
  }

  // ---------------------------------------------------------------- a subshell escapes

  /** (cat < f > g) and then (cat < g > f): the lists of both commands are empty. */
  const FIRST := Subshell(Simple(["cat"], Some("f"), Some("g")), None, None)
  const SECOND := Subshell(Simple(["cat"], Some("g"), Some("f")), None, None)

  /** Both files are there. */
  const FILLED: Store := map["f" := "x", "g" := "y"]

  /** Each of them opens the file with the contents of which it should fill the other one, but has
      nothing left to read when both have been truncated. */
  function MissedBy(c: nat): (h: seq<Access>)
    ensures |h| == 3
  {
    if c == 0 then [Open("f", true), Write("g", ""), Read("f", Some(""))]
    else [Open("g", true), Write("f", ""), Read("g", Some(""))]
  }

  /** They do so in turns. */
  function Missed(n: nat): seq<Event>
    requires n <= 3
  {
    if n == 0 then [] else Missed(n - 1) + [Event(0, MissedBy(0)[n - 1])] + [Event(1, MissedBy(1)[n - 1])]
  }

  /** Two commands that the shell takes for independent are forked at once. */
  lemma FreePair(first: Command, second: Command)
    requires !Dependent(first, second)
    ensures Plan([first, second]) == [Fork(0), Fork(1)]
  {
    var cmds := [first, second];
    assert BeforeUpTo(cmds, 1, 1) == BeforeUpTo(cmds, 1, 0) == [];
    assert Before(cmds, 0) == [] && Before(cmds, 1) == [];
    hide Before;
    assert Positions(cmds, 1, false) == Positions(cmds, 0, false) + [0];
    assert Positions(cmds, 2, false) == Positions(cmds, 1, false) + [1];
    assert Positions(cmds, 1, true) == Positions(cmds, 0, true) == [];
    assert Positions(cmds, 2, true) == Positions(cmds, 1, true) == [];
  }

  lemma EscapingPlan()
    ensures Plan([FIRST, SECOND]) == [Fork(0), Fork(1)]
  {
    assert Reads(FIRST) == Reads(SECOND) == [];
    hide Plan;
    FreePair(FIRST, SECOND);
  }

  ghost predicate Executable(s0: Store, t: seq<Event>) {
    exists s1 :: Executes(s0, t, s1)
  }

  /** Files named only inside a subshell are not recorded, so the script above has a complete
      time-travel run that neither order of its two commands explains: both files end up empty. */
  lemma SubshellEscapes(w: World) returns (run: seq<State>)
    ensures IsRun(Plan([FIRST, SECOND]), ShellProcesses(w, [FIRST, SECOND]), FILLED, run)
    ensures Complete(Plan([FIRST, SECOND]), run[|run| - 1]) && run[|run| - 1].store == map["f" := "", "g" := ""]
    ensures var t := run[|run| - 1].trace;
            !Executable(FILLED, Tagged(0, History(t, 0)) + Tagged(1, History(t, 1))) &&
            !Executable(FILLED, Tagged(1, History(t, 1)) + Tagged(0, History(t, 0)))
  {
    var plan, ps := Plan([FIRST, SECOND]), ShellProcesses(w, [FIRST, SECOND]);
    EscapingPlan();
    MissedOrders();
    EscapingProcess(w, 0, MissedBy(0));
    EscapingProcess(w, 1, MissedBy(1));
    AllMissed();
    hide Plan, Executable, ShellProcesses, History, Missed, MissedBy, Executes, IsRun, Next;
    var s0 := State(0, {}, {}, FILLED, []);
    var s1 := s0.(pc := 1, forked := {} + {0});
    var s := s1.(pc := 2, forked := {0} + {1});
    run := StartRun(plan, ps, FILLED);
    StepIsNext(plan, ps, s0, s1);
    Extend(plan, ps, FILLED, run, s0, s1);
    StepIsNext(plan, ps, s1, s);
    Extend(plan, ps, FILLED, run + [s1], s1, s);
    NoneMissed();
    run, s := EscapingTurn(w, plan, run + [s1] + [s], s, 0);
    run, s := EscapingTurn(w, plan, run, s, 1);
    run, s := EscapingTurn(w, plan, run, s, 2);
    var s2, s3 := s.(finished := {} + {0}), s.(finished := {0} + {1});
    ExitIsStep(plan, ps, s, 0, s2);
    Extend(plan, ps, FILLED, run, s, s2);
    ExitIsStep(plan, ps, s2, 1, s3);
    Extend(plan, ps, FILLED, run + [s2], s2, s3);
    run := run + [s2] + [s3];
    RunOf(plan, ps, run, s3);
  }

  lemma NoneMissed()
    ensures Missed(0) == []
  {
  }

  lemma RunOf(plan: seq<Action>, ps: Processes, run: seq<State>, s: State)
    requires EndsIn(plan, ps, FILLED, run, s)
    ensures IsRun(plan, ps, FILLED, run) && run != [] && run[|run| - 1] == s
  {
  }

  /** Each of two commands does its next access. */
  lemma OneTurn(t: seq<Event>, h: seq<Access>, g: seq<Access>, n: nat)
    requires n < |h| && n < |g| && History(t, 0) == h[..n] && History(t, 1) == g[..n]
    ensures var t' := t + [Event(0, h[n])] + [Event(1, g[n])];
            History(t', 0) == h[..n + 1] && History(t', 1) == g[..n + 1] && History(t + [Event(0, h[n])], 1) == g[..n]
  {
    hide History;
    var a, b := Event(0, h[n]), Event(1, g[n]);
    HistoryExtend(t, a, 0);
    HistoryExtend(t + [a], b, 0);
    HistoryExtend(t, a, 1);
    HistoryExtend(t + [a], b, 1);
  }

  /** What each of the two has done after so many turns. */
  lemma {:induction false} MissedHistory(n: nat)
    requires n <= 3
    ensures History(Missed(n), 0) == MissedBy(0)[..n] && History(Missed(n), 1) == MissedBy(1)[..n]
    ensures n < 3 ==> History(Missed(n) + [Event(0, MissedBy(0)[n])], 1) == MissedBy(1)[..n]
  {
    if n > 0 {
      MissedHistory(n - 1);
      hide History, MissedBy;
      OneTurn(Missed(n - 1), MissedBy(0), MissedBy(1), n - 1);
    }
    if n < 3 {
      HistoryExtend(Missed(n), Event(0, MissedBy(0)[n]), 1);
    }
  }

  lemma AllMissed()
    ensures History(Missed(3), 0) == MissedBy(0) && History(Missed(3), 1) == MissedBy(1)
  {
    hide History, MissedBy, Missed;
    MissedHistory(3);
    assert MissedBy(0)[..3] == MissedBy(0) && MissedBy(1)[..3] == MissedBy(1);
  }

  /** Both commands do their next access. */
  lemma EscapingTurn(w: World, plan: seq<Action>, run: seq<State>, s: State, n: nat) returns (run': seq<State>, s': State)
    requires n < 3 && EndsIn(plan, ShellProcesses(w, [FIRST, SECOND]), FILLED, run, s)
    requires s.forked == {0, 1} && s.finished == {} && s.trace == Missed(n)
    requires s.store == if n < 2 then FILLED else map["f" := "", "g" := ""]
    ensures EndsIn(plan, ShellProcesses(w, [FIRST, SECOND]), FILLED, run', s')
    ensures s' == s.(trace := Missed(n + 1), store := if n < 1 then FILLED else map["f" := "", "g" := ""])
  {
    hide ShellProcesses, History, IsRun, Next, Executes;
    var ps := ShellProcesses(w, [FIRST, SECOND]);
    MissedHistory(n);
    EscapingProcess(w, 0, MissedBy(0));
    EscapingProcess(w, 1, MissedBy(1));
    var a, b := Event(0, MissedBy(0)[n]), Event(1, MissedBy(1)[n]);
    var mid := s.(store := After(a.access, s.store), trace := s.trace + [a]);
    AccessIsStep(plan, ps, s, a, mid);
    Extend(plan, ps, FILLED, run, s, mid);
    s' := mid.(store := After(b.access, mid.store), trace := mid.trace + [b]);
    AccessIsStep(plan, ps, mid, b, s');
    Extend(plan, ps, FILLED, run + [mid], mid, s');
    run' := run + [mid] + [s'];
  }

  /** Nobody has truncated the file of the first of the two when it is read. */
  lemma MissedRead(c: nat, f: string, g: string, later: seq<Event>)
    requires f != g && f in FILLED && g in FILLED && FILLED[f] != ""
    ensures !Executable(FILLED, Tagged(c, [Open(f, true), Write(g, ""), Read(f, Some(""))]) + later)
  {
    var h := [Open(f, true), Write(g, ""), Read(f, Some(""))];
    forall s1
      ensures !Executes(FILLED, Tagged(c, h) + later, s1)
    {
      if Executes(FILLED, Tagged(c, h) + later, s1) {
        var s := ExecutesSplit(FILLED, Tagged(c, h), later, s1);
        assert Tagged(c, h) == Tagged(c, h[..2]) + [Event(c, h[2])];
        var m := LastAccess(FILLED, Tagged(c, h[..2]), Event(c, h[2]), s);
        Untouched(FILLED, Tagged(c, h[..2]), m, f);
        assert false;
      }
    }
  }

  lemma MissedOrders()
    ensures !Executable(FILLED, Tagged(0, History(Missed(3), 0)) + Tagged(1, History(Missed(3), 1)))
    ensures !Executable(FILLED, Tagged(1, History(Missed(3), 1)) + Tagged(0, History(Missed(3), 0)))
  {
    hide Executable;
    AllMissed();
    hide History, Missed;
    MissedRead(0, "f", "g", Tagged(1, MissedBy(1)));
    MissedRead(1, "g", "f", Tagged(0, MissedBy(0)));
  }

  lemma MayFollow(w: World, cmds: seq<Command>, c: nat, h: seq<Access>, a: Access, all: seq<Access>, o: Outcome)
    requires c < |cmds| && Exec(w, cmds[c], TERMINAL, all, o) && h + [a] <= all
    ensures ShellProcesses(w, cmds).may(c, h, a)
  {
  }

  lemma MayExit(w: World, cmds: seq<Command>, c: nat, h: seq<Access>, o: Outcome)
    requires c < |cmds| && Exec(w, cmds[c], TERMINAL, h, o)
    ensures ShellProcesses(w, cmds).done(c, h)
  {
  }

  /** Such a command opens its files and reads its input. */
  lemma EscapingExec(w: World, c: nat) returns (o: Outcome)
    requires c < 2
    ensures Exec(w, [FIRST, SECOND][c], TERMINAL, MissedBy(c), o)
  {
    var cmd, h := [FIRST, SECOND][c], MissedBy(c);
    hide Exec;
    var u;
    u, o := ExecSimple(w, cmd.body, TERMINAL, [h[2]], 0);
    var all := ExecSubshell(w, cmd, TERMINAL, u, o);
    assert all == h;
  }

  lemma EscapingProcess(w: World, c: nat, h: seq<Access>)
    requires c < 2 && h == MissedBy(c)
    ensures forall i :: 0 <= i < 3 ==> ShellProcesses(w, [FIRST, SECOND]).may(c, h[..i], h[i])
    ensures ShellProcesses(w, [FIRST, SECOND]).done(c, h)
  {
    hide Exec, ShellProcesses, MissedBy;
    var o := EscapingExec(w, c);
    forall i | 0 <= i < 3
      ensures ShellProcesses(w, [FIRST, SECOND]).may(c, h[..i], h[i])
    {
      assert h[..i] + [h[i]] == h[..i + 1];
      MayFollow(w, [FIRST, SECOND], c, h[..i], h[i], h, o);
    }
    MayExit(w, [FIRST, SECOND], c, h, o);
  }
}
