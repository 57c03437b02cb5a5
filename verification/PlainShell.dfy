/** The shell without -t (project1/main.c:316-332): it executes the commands in its own process, so
    that a redirection that fails, or an exec, is the end of the script. In time travel every command
    has a process of its own. */
module PlainShell {
  import opened ShellCommand
  import opened DependencyGraph
  import opened PlanSafety
  import opened TimeTravel
  import opened Footprint
  import opened Races

  /** The loop of main from some command on, when the commands end like this. */
  ghost predicate Shell(w: World, cmds: seq<Command>, os: seq<Outcome>, from: nat, s0: Store, t: seq<Event>, s1: Store)
    requires from <= |cmds| == |os|
    decreases |cmds| - from
  {
    if from == |cmds| then t == [] && s1 == s0
    else
      exists h, mid :: Exec(w, cmds[from], TERMINAL, h, os[from]) && Executes(s0, Tagged(from, h), mid) &&
        if os[from].Gone? then t == Tagged(from, h) && s1 == mid
        else Tagged(from, h) <= t && Shell(w, cmds, os, from + 1, mid, t[|h|..], s1)
  }

  /** After what they did the commands can have ended like this. */
  ghost predicate Ended(w: World, cmds: seq<Command>, t: seq<Event>, os: seq<Outcome>) {
    |os| == |cmds| && forall c: nat :: c < |cmds| ==> Exec(w, cmds[c], TERMINAL, History(t, c), os[c])
  }

  /** Behind a command whose process is gone nothing has been done. */
  ghost predicate GoesOn(os: seq<Outcome>, t: seq<Event>) {
    forall c: nat, k: nat :: c < k < |os| && os[c].Gone? ==> History(t, k) == []
  }

  /** The plain shell can have the same outcome. */
  ghost predicate PlainToo(w: World, cmds: seq<Command>, s0: Store, s: State, os: seq<Outcome>) {
    |os| == |cmds| && exists t :: Shell(w, cmds, os, 0, s0, t, s.store) && SameHistories(t, s.trace)
  }

  lemma ShellStops(w: World, cmds: seq<Command>, os: seq<Outcome>, from: nat, s0: Store, h: seq<Access>, s1: Store)
    requires from < |cmds| == |os| && Exec(w, cmds[from], TERMINAL, h, os[from]) && os[from].Gone? && Executes(s0, Tagged(from, h), s1)
    ensures Shell(w, cmds, os, from, s0, Tagged(from, h), s1)
  {
    hide Exec, Executes;
  }

  lemma ShellReturns(w: World, cmds: seq<Command>, os: seq<Outcome>, from: nat, s0: Store, h: seq<Access>, mid: Store, t: seq<Event>, s1: Store)
    requires from < |cmds| == |os| && Exec(w, cmds[from], TERMINAL, h, os[from]) && !os[from].Gone? && Executes(s0, Tagged(from, h), mid)
    requires Shell(w, cmds, os, from + 1, mid, t, s1)
    ensures Shell(w, cmds, os, from, s0, Tagged(from, h) + t, s1)
  {
    hide Exec, Executes;
    assert (Tagged(from, h) + t)[|h|..] == t;
  }

  /** One more command of the loop. */
  lemma ShellParts(w: World, cmds: seq<Command>, os: seq<Outcome>, from: nat, s0: Store, t: seq<Event>, s1: Store) returns (h: seq<Access>, mid: Store)
    requires from < |cmds| == |os| && Shell(w, cmds, os, from, s0, t, s1)
    ensures Exec(w, cmds[from], TERMINAL, h, os[from]) && Executes(s0, Tagged(from, h), mid)
    ensures if os[from].Gone? then t == Tagged(from, h) && s1 == mid
            else Tagged(from, h) <= t && Shell(w, cmds, os, from + 1, mid, t[|h|..], s1)
  {
    hide Exec, Executes;
    h, mid :| Exec(w, cmds[from], TERMINAL, h, os[from]) && Executes(s0, Tagged(from, h), mid) &&
      if os[from].Gone? then t == Tagged(from, h) && s1 == mid
      else Tagged(from, h) <= t && Shell(w, cmds, os, from + 1, mid, t[|h|..], s1);
  }

  /** The plain shell can do what the commands did, in script order. */
  lemma {:induction false} ShellCan(w: World, cmds: seq<Command>, os: seq<Outcome>, t: seq<Event>, from: nat, s0: Store, s1: Store)
    requires from <= |cmds| == |os| && Ended(w, cmds, t, os) && GoesOn(os, t)
    requires Executes(s0, Block(t, from, |cmds|), s1)
    ensures Shell(w, cmds, os, from, s0, Block(t, from, |cmds|), s1)
    decreases |cmds| - from
  {
    hide Exec, Executes, Shell, History;
    if from == |cmds| {
      ExecutesEmpty(s0, s1);
      ShellEnds(w, cmds, os, s0);
    } else {
      var h := History(t, from);
      var back := Block(t, from + 1, |cmds|);
      BlockSplit(t, from, from + 1, |cmds|);
      OwnBlock(t, from);
      var mid := ExecutesSplit(s0, Tagged(from, h), back, s1);
      if os[from].Gone? {
        NoBlock(t, from + 1, |cmds|);
        ExecutesEmpty(mid, s1);
        ShellStops(w, cmds, os, from, s0, h, s1);
        assert Tagged(from, h) + [] == Tagged(from, h);
      } else {
        ShellCan(w, cmds, os, t, from + 1, mid, s1);
        ShellReturns(w, cmds, os, from, s0, h, mid, back, s1);
      }
    }
  }

  lemma ShellEnds(w: World, cmds: seq<Command>, os: seq<Outcome>, s: Store)
    requires |os| == |cmds|
    ensures Shell(w, cmds, os, |cmds|, s, [], s)
  {
  }

  /** Nothing before command from, and nothing behind a command whose process is gone. */
  ghost predicate Followed(os: seq<Outcome>, from: nat, t: seq<Event>) {
    && (forall c: nat :: c < from ==> History(t, c) == [])
    && (forall c: nat, k: nat :: from <= c < k < |os| && os[c].Gone? ==> History(t, k) == [])
  }

  lemma FollowedAlone(os: seq<Outcome>, from: nat, h: seq<Access>)
    ensures Followed(os, from, Tagged(from, h))
  {
    hide History;
    forall c: nat
      ensures c != from ==> History(Tagged(from, h), c) == []
    {
      HistoryTagged(from, h, c);
    }
  }

  lemma FollowedOn(os: seq<Outcome>, from: nat, h: seq<Access>, rest: seq<Event>)
    requires from < |os| && !os[from].Gone? && Followed(os, from + 1, rest)
    ensures Followed(os, from, Tagged(from, h) + rest)
  {
    hide History;
    forall c: nat
      ensures c != from ==> History(Tagged(from, h) + rest, c) == History(rest, c)
    {
      HistoryConcat(Tagged(from, h), rest, c);
      HistoryTagged(from, h, c);
    }
  }

  lemma NoneFollowed(w: World, cmds: seq<Command>, os: seq<Outcome>, s0: Store, t: seq<Event>, s1: Store)
    requires |os| == |cmds| && Shell(w, cmds, os, |cmds|, s0, t, s1)
    ensures Followed(os, |cmds|, t)
  {
    assert forall c: nat :: History([], c) == [];
  }

  lemma {:induction false} ShellGoesOn(w: World, cmds: seq<Command>, os: seq<Outcome>, from: nat, s0: Store, t: seq<Event>, s1: Store)
    requires from <= |cmds| == |os| && Shell(w, cmds, os, from, s0, t, s1)
    ensures Followed(os, from, t)
    decreases |cmds| - from
  {
    hide Exec, Executes, Shell, History, Followed;
    if from == |cmds| {
      NoneFollowed(w, cmds, os, s0, t, s1);
    } else {
      var h, mid := ShellParts(w, cmds, os, from, s0, t, s1);
      if os[from].Gone? {
        FollowedAlone(os, from, h);
      } else {
        var rest := t[|h|..];
        assert t == Tagged(from, h) + rest;
        ShellGoesOn(w, cmds, os, from + 1, mid, rest, s1);
        FollowedOn(os, from, h, rest);
      }
    }
  }

  /** A complete run of a guarded script has an outcome of the plain shell if and only if no command
      behind one whose process is gone has done anything. */
  lemma PlainExact(w: World, cmds: seq<Command>, s0: Store, run: seq<State>, os: seq<Outcome>)
    requires Guarded(w, cmds) && IsRun(Plan(cmds), ShellProcesses(w, cmds), s0, run) && Ended(w, cmds, run[|run| - 1].trace, os)
    ensures PlainToo(w, cmds, s0, run[|run| - 1], os) <==> GoesOn(os, run[|run| - 1].trace)
  {
    var s := run[|run| - 1];
    hide Guarded, Plan, ShellProcesses, Ordered, IsRun, Shell, Exec, Executes, Block, History, Ended;
    if GoesOn(os, s.trace) {
      GuardedIsOrdered(w, cmds);
      OrderedRuns(cmds, ShellProcesses(w, cmds), s0, run, |run| - 1);
      ShellCan(w, cmds, os, s.trace, 0, s0, s.store);
    }
    if PlainToo(w, cmds, s0, s, os) {
      var t :| Shell(w, cmds, os, 0, s0, t, s.store) && SameHistories(t, s.trace);
      ShellGoesOn(w, cmds, os, 0, s0, t, s.store);
    }
  }

  // ---------------------------------------------------------------- what can be checked before

  /** The text of the command allows its process to be gone. */
  predicate CanVanish(c: Command) {
    Ends(c, true, true, {}) || Ends(c, true, false, {})
  }

  lemma VanishExact(w: World, c: Command, io: Io)
    ensures CanVanish(c) <==> exists h, o :: Exec(w, c, io, h, o) && o.Gone?
  {
    hide Exec;
    if CanVanish(c) {
      var h, o := EndDoes(w, c, io, true, Ends(c, true, true, {}), {});
    }
    if h, o :| Exec(w, c, io, h, o) && o.Gone? {
      NothingAvoided(h);
      ExecEnds(w, c, io, h, o, {});
    }
  }

  /** A command that can take the shell with it is followed only by commands that touch no file. */
  predicate Staying(w: World, cmds: seq<Command>) {
    forall c, k :: 0 <= c < k < |cmds| && CanVanish(cmds[c]) ==> Reach(w, cmds[k], TERMINAL, {}) == {}
  }

  ghost predicate CompleteRun(w: World, cmds: seq<Command>, s0: Store, run: seq<State>, os: seq<Outcome>) {
    && run != [] && IsRun(Plan(cmds), ShellProcesses(w, cmds), s0, run) && Complete(Plan(cmds), run[|run| - 1])
    && Ended(w, cmds, run[|run| - 1].trace, os)
  }

  /** Whatever time travel does, the plain shell can do. */
  ghost predicate AlwaysPlain(w: World, cmds: seq<Command>) {
    forall s0, run: seq<State>, os :: CompleteRun(w, cmds, s0, run, os) ==> PlainToo(w, cmds, s0, run[|run| - 1], os)
  }

  lemma NothingReached(w: World, c: Command, h: seq<Access>, o: Outcome)
    requires Exec(w, c, TERMINAL, h, o) && Reach(w, c, TERMINAL, {}) == {}
    ensures h == []
  {
    hide Exec, Reach;
    if h != [] {
      NothingAvoided(h[..0]);
      ExecInReach(w, c, TERMINAL, h, o, {}, 0);
    }
  }

  lemma StayingGoesOn(w: World, cmds: seq<Command>, t: seq<Event>, os: seq<Outcome>)
    requires Staying(w, cmds) && Ended(w, cmds, t, os)
    ensures GoesOn(os, t)
  {
    hide Exec, Reach, CanVanish, History;
    forall c: nat, k: nat | c < k < |os| && os[c].Gone?
      ensures History(t, k) == []
    {
      VanishExact(w, cmds[c], TERMINAL);
      assert Exec(w, cmds[c], TERMINAL, History(t, c), os[c]) && os[c].Gone?;
      NothingReached(w, cmds[k], History(t, k), os[k]);
    }
  }

  // ---------------------------------------------------------------- a run that the plain shell stops

  /** Every command that touches files at all has an execution that does, whatever is stored. */
  lemma {:induction false} Something(w: World, c: Command, io: Io, n: nat, s: Store) returns (h: seq<Access>, o: Outcome, s1: Store)
    requires Reach(w, c, io, {}) != {}
    ensures Exec(w, c, io, h, o) && h != [] && Executes(s, Tagged(n, h), s1)
    decreases c
  {
    hide Exec, Ends, Executes;
    match c
    case Simple(words, input, output) =>
      if Redirects(input, output) {
        h, o, s1 := SomeOpening(w, c, io, n, s);
      } else {
        h, o, s1 := SomeProgram(w, c, io, n, s);
      }
    case Subshell(body, input, output) =>
      if Redirects(input, output) {
        h, o, s1 := SomeOpening(w, c, io, n, s);
      } else {
        assert Opening(input, output) == [];
        h, o, s1 := Something(w, body, Redirected(input, output, io), n, s);
        var all := ExecSubshell(w, c, io, h, o);
        assert all == h;
      }
    case Compound(op, left, right) =>
      var lio, rio := if op.Pipe? then Io(io.stdin, None) else io, if op.Pipe? then Io(None, io.stdout) else io;
      if Reach(w, left, lio, {}) != {} {
        h, o, s1 := Something(w, left, lio, n, s);
        o := WithRight(w, c, io, h, o);
      } else {
        h, o, s1 := Something(w, right, rio, n, s);
        o := WithLeft(w, c, io, h, o);
      }
  }

  lemma SomeOpening(w: World, c: Command, io: Io, n: nat, s: Store) returns (h: seq<Access>, o: Outcome, s1: Store)
    requires !c.Compound? && Redirects(c.input, c.output)
    ensures Exec(w, c, io, h, o) && h != [] && Executes(s, Tagged(n, h), s1)
  {
    var first := if c.input.Some? then Open(c.input.value, c.input.value in s) else Write(c.output.value, "");
    h, o := [first], Gone(1);
    assert first == Open(first.file, false) || h <= Opening(c.input, c.output);
    assert OpenFails(c.input, c.output, h);
    OneAccess(n, first, s);
    s1 := After(first, s);
  }

  lemma OneAccess(n: nat, a: Access, s: Store)
    requires Fits(a, s)
    ensures Executes(s, Tagged(n, [a]), After(a, s))
  {
    assert Tagged(n, [a]) == [Event(n, a)] && [Event(n, a)][1..] == [];
  }

  lemma SomeProgram(w: World, c: Command, io: Io, n: nat, s: Store) returns (h: seq<Access>, o: Outcome, s1: Store)
    requires c.Simple? && !Redirects(c.input, c.output) && Reach(w, c, io, {}) != {}
    ensures Exec(w, c, io, h, o) && h != [] && Executes(s, Tagged(n, h), s1)
  {
    var x :| x in Reach(w, c, io, {});
    assert x in ProgramTouches(w, c.words, Redirected(c.input, c.output, io));
    var a := if x.In? then Read(x.file, Lookup(s, x.file)) else Write(x.file, "");
    h, o := ExecSimple(w, c, io, [a], 0);
    assert h == [a];
    OneAccess(n, a, s);
    s1 := After(a, s);
  }

  lemma WithRight(w: World, c: Command, io: Io, h: seq<Access>, oa: Outcome) returns (o: Outcome)
    requires c.Compound? && Exec(w, c.left, if c.op.Pipe? then Io(io.stdin, None) else io, h, oa)
    ensures Exec(w, c, io, h, o)
  {
    hide Exec;
    assert h + [] == h;
    if c.op.Pipe? {
      var ob := Idle(w, c.right, Io(None, io.stdout));
      ExecPipe(w, c, io, h, oa, [], ob);
      o := Exited(oa.status);
    } else if oa.Gone? || Skips(c.op, oa.status) {
      ExecStop(w, c, io, h, oa);
      o := oa;
    } else {
      o := Idle(w, c.right, io);
      ExecBoth(w, c, io, h, oa, [], o);
    }
  }

  lemma WithLeft(w: World, c: Command, io: Io, h: seq<Access>, ob: Outcome) returns (o: Outcome)
    requires c.Compound? && Exec(w, c.right, if c.op.Pipe? then Io(None, io.stdout) else io, h, ob)
    requires Reach(w, c.left, if c.op.Pipe? then Io(io.stdin, None) else io, {}) == {}
    requires RightRuns(c.op, Ends(c.left, false, true, {}), Ends(c.left, false, false, {}))
    ensures Exec(w, c, io, h, o)
  {
    hide Exec, Ends, Reach;
    assert [] + h == h;
    if c.op.Pipe? {
      var oa := Idle(w, c.left, Io(io.stdin, None));
      ExecPipe(w, c, io, [], oa, h, ob);
      o := Exited(oa.status);
    } else {
      var a, oa := EndDoes(w, c.left, io, false, Passing(c.left, c.op, {}), {});
      if a != [] {
        NothingAvoided(a[..0]);
        ExecInReach(w, c.left, io, a, oa, {}, 0);
      }
      ExecBoth(w, c, io, [], oa, h, ob);
      o := ob;
    }
  }

  /** The command can have done this and have ended. */
  ghost predicate Over(w: World, c: Command, h: seq<Access>) {
    exists o :: Exec(w, c, TERMINAL, h, o)
  }

  /** What the commands do that have ended: command c vanishes like this, command k does something, and
      the others do nothing. */
  ghost predicate Plays(w: World, cmds: seq<Command>, c: nat, hc: seq<Access>, k: nat, d: nat, h: seq<Access>) {
    d < |cmds| && Over(w, cmds[d], h) && if d == c then h == hc else d == k ==> h != []
  }

  ghost predicate Playing(w: World, cmds: seq<Command>, s0: Store, c: nat, hc: seq<Access>, k: nat, run: seq<State>, s: State) {
    && EndsIn(Plan(cmds), ShellProcesses(w, cmds), s0, run, s) && (forall f :: f in s0 ==> f in s.store)
    && (forall d: nat :: d in s.finished ==> Plays(w, cmds, c, hc, k, d, History(s.trace, d)))
    && (forall d: nat :: d !in s.finished ==> History(s.trace, d) == [])
  }

  lemma Played(w: World, cmds: seq<Command>, s0: Store, c: nat, hc: seq<Access>, k: nat, d: nat, s: Store) returns (h: seq<Access>, s1: Store)
    requires c < k < |cmds| && d < |cmds| && Over(w, cmds[c], hc) && Quiet(hc, {})
    requires Reach(w, cmds[k], TERMINAL, {}) != {}
    requires forall f :: Open(f, true) in hc ==> f in s
    ensures Plays(w, cmds, c, hc, k, d, h) && Executes(s, Tagged(d, h), s1)
  {
    hide Exec, Reach, Executes, Quiet;
    var o;
    if d == c {
      h := hc;
      s1 := QuietRuns(d, h, {}, s);
    } else if d == k {
      h, o, s1 := Something(w, cmds[d], TERMINAL, d, s);
    } else {
      o := Idle(w, cmds[d], TERMINAL);
      h, s1 := [], s;
      EmptyExecutes(s);
      assert Tagged(d, h) == [];
    }
  }

  /** A command that runs and has done nothing does its part and ends. */
  lemma PlayAndEnd(w: World, cmds: seq<Command>, s0: Store, c: nat, hc: seq<Access>, k: nat, run: seq<State>, s: State, d: nat)
    returns (run': seq<State>, s': State)
    requires Playing(w, cmds, s0, c, hc, k, run, s) && d in s.forked && d !in s.finished && d < |cmds|
    requires c < k < |cmds| && Over(w, cmds[c], hc) && Quiet(hc, {})
    requires Reach(w, cmds[k], TERMINAL, {}) != {}
    requires forall f :: Open(f, true) in hc ==> f in s0
    ensures Playing(w, cmds, s0, c, hc, k, run', s')
    ensures s'.pc == s.pc && s'.forked == s.forked && s'.finished == s.finished + {d}
  {
    hide Exec, Reach, Executes, Quiet, Plan, ShellProcesses, History, IsRun, Next, Tagged;
    var ps := ShellProcesses(w, cmds);
    var h, s1 := Played(w, cmds, s0, c, hc, k, d, s.store);
    var o :| Exec(w, cmds[d], TERMINAL, h, o);
    LeadsBy(w, cmds[d], TERMINAL, h, h, o);
    var run1, a := Perform(w, cmds, s0, run, s, d, h, s1);
    forall e: nat
      ensures History(a.trace, e) == if e == d then h else History(s.trace, e)
    {
      HistoryConcat(s.trace, Tagged(d, h), e);
      HistoryTagged(d, h, e);
    }
    forall f | f in s0
      ensures f in s1
    {
      StaysThere(s.store, Tagged(d, h), s1, f);
    }
    MayExit(w, cmds, d, h, o);
    s' := a.(finished := a.finished + {d});
    ExitIsStep(Plan(cmds), ps, a, d, s');
    Extend(Plan(cmds), ps, s0, run1, a, s');
    run' := run1 + [s'];
  }

  /** The shell has come to place p of its plan, and those it has waited for have ended. */
  ghost predicate AtPlace(w: World, cmds: seq<Command>, s0: Store, c: nat, hc: seq<Access>, k: nat, p: nat, run: seq<State>, s: State) {
    && p <= |Plan(cmds)| && Playing(w, cmds, s0, c, hc, k, run, s) && s.pc == p && s.finished <= s.forked
    && (forall d: nat :: d in s.forked <==> Fork(d) in Plan(cmds)[..p])
  }

  lemma {:induction false} WalkPlaying(w: World, cmds: seq<Command>, s0: Store, c: nat, hc: seq<Access>, k: nat, p: nat)
    returns (run: seq<State>, s: State)
    requires c < k < |cmds| && Over(w, cmds[c], hc) && Quiet(hc, {})
    requires Reach(w, cmds[k], TERMINAL, {}) != {}
    requires (forall f :: Open(f, true) in hc ==> f in s0) && p <= |Plan(cmds)|
    ensures AtPlace(w, cmds, s0, c, hc, k, p, run, s)
  {
    hide Exec, Reach, Quiet, Plan, ShellProcesses, IsRun, Next, History, Plays;
    if p == 0 {
      s := State(0, {}, {}, s0, []);
      run := StartRun(Plan(cmds), ShellProcesses(w, cmds), s0);
      forall d: nat
        ensures History([], d) == []
      {
        NoHistory([], d);
      }
    } else {
      run, s := WalkPlaying(w, cmds, s0, c, hc, k, p - 1);
      run, s := StepPlaying(w, cmds, s0, c, hc, k, p - 1, run, s);
    }
  }

  lemma StepPlaying(w: World, cmds: seq<Command>, s0: Store, c: nat, hc: seq<Access>, k: nat, p: nat, run: seq<State>, s: State)
    returns (run': seq<State>, s': State)
    requires c < k < |cmds| && Over(w, cmds[c], hc) && Quiet(hc, {})
    requires Reach(w, cmds[k], TERMINAL, {}) != {}
    requires (forall f :: Open(f, true) in hc ==> f in s0) && p < |Plan(cmds)| && AtPlace(w, cmds, s0, c, hc, k, p, run, s)
    ensures AtPlace(w, cmds, s0, c, hc, k, p + 1, run', s')
  {
    hide Exec, Reach, Quiet, Plan, ShellProcesses, IsRun, Next, History, Plays;
    var plan, ps, a := Plan(cmds), ShellProcesses(w, cmds), Plan(cmds)[p];
    var run1, b := run, s;
    if a.Fork? {
      s' := s.(pc := p + 1, forked := s.forked + {a.cmd});
    } else {
      WaitAfterFork(cmds, p);
      if a.cmd !in s.finished {
        run1, b := PlayAndEnd(w, cmds, s0, c, hc, k, run, s, a.cmd);
      }
      s' := b.(pc := p + 1);
    }
    StepIsNext(plan, ps, b, s');
    Extend(plan, ps, s0, run1, b, s');
    run' := run1 + [s'];
    forall x
      ensures x in plan[..p + 1] <==> x in plan[..p] || x == a
    {
      PrefixMember(plan, p + 1, x);
    }
  }

  /** The first n commands end, if they have not ended yet. */
  lemma {:induction false} EndPlaying(w: World, cmds: seq<Command>, s0: Store, c: nat, hc: seq<Access>, k: nat, run: seq<State>, s: State, n: nat)
    returns (run': seq<State>, s': State)
    requires c < k < |cmds| && Over(w, cmds[c], hc) && Quiet(hc, {})
    requires Reach(w, cmds[k], TERMINAL, {}) != {}
    requires (forall f :: Open(f, true) in hc ==> f in s0) && n <= |cmds|
    requires Playing(w, cmds, s0, c, hc, k, run, s) && (forall d: nat :: d in s.forked <==> d < |cmds|) && s.finished <= s.forked
    ensures Playing(w, cmds, s0, c, hc, k, run', s') && s'.pc == s.pc && s'.forked == s.forked && s'.finished <= s.forked
    ensures forall d: nat :: d < n ==> d in s'.finished
    decreases n
  {
    hide Exec, Reach, Quiet, Playing;
    run', s' := run, s;
    if n > 0 {
      run', s' := EndPlaying(w, cmds, s0, c, hc, k, run, s, n - 1);
      if n - 1 !in s'.finished {
        run', s' := PlayAndEnd(w, cmds, s0, c, hc, k, run', s', n - 1);
      }
    }
  }

  lemma AllForked(cmds: seq<Command>, d: nat)
    ensures d < |cmds| <==> Fork(d) in Plan(cmds)[..|Plan(cmds)|]
  {
    hide Plan;
    assert Plan(cmds)[..|Plan(cmds)|] == Plan(cmds);
    if d < |cmds| {
      var q := ForkPlace(cmds, d);
    }
    if Fork(d) in Plan(cmds) {
      PlanIsSafe(cmds);
    }
  }

  /** A complete run in which a command vanishes and a later one does something all the same. */
  lemma Overrun(w: World, cmds: seq<Command>, c: nat, k: nat) returns (s0: Store, run: seq<State>, os: seq<Outcome>)
    requires c < k < |cmds| && CanVanish(cmds[c]) && Reach(w, cmds[k], TERMINAL, {}) != {}
    ensures IsRun(Plan(cmds), ShellProcesses(w, cmds), s0, run) && Complete(Plan(cmds), run[|run| - 1])
    ensures run != [] && |os| == |cmds| && Ended(w, cmds, run[|run| - 1].trace, os) && os[c].Gone? && History(run[|run| - 1].trace, k) != []
  {
    hide Exec, Plan, ShellProcesses, IsRun, Next, History, Quiet, Reach;
    var hc, oc := EndDoes(w, cmds[c], TERMINAL, true, Ends(cmds[c], true, true, {}), {});
    s0 := Furnished(w, cmds, {});
    forall f | Open(f, true) in hc
      ensures f in s0
    {
      OpensThere(w, cmds, c, hc, oc, f);
    }
    var s;
    run, s := WalkPlaying(w, cmds, s0, c, hc, k, |Plan(cmds)|);
    forall d: nat
      ensures d in s.forked <==> d < |cmds|
    {
      AllForked(cmds, d);
    }
    run, s := EndPlaying(w, cmds, s0, c, hc, k, run, s, |cmds|);
    assert s.finished == s.forked;
    LastState(Plan(cmds), ShellProcesses(w, cmds), s0, run, s);
    forall d: nat | d < |cmds|
      ensures Over(w, cmds[d], History(s.trace, d))
    {
      assert d in s.finished && Plays(w, cmds, c, hc, k, d, History(s.trace, d));
    }
    assert Plays(w, cmds, c, hc, k, c, History(s.trace, c)) && Plays(w, cmds, c, hc, k, k, History(s.trace, k));
    os := SomeOutcomes(w, cmds, s.trace, c, hc, oc, |cmds|);
  }

  lemma OpensThere(w: World, cmds: seq<Command>, c: nat, h: seq<Access>, o: Outcome, f: string)
    requires c < |cmds| && Exec(w, cmds[c], TERMINAL, h, o) && Open(f, true) in h
    ensures f in Furnished(w, cmds, {})
  {
    hide Exec, Reach;
    var n :| 0 <= n < |h| && h[n] == Open(f, true);
    NothingAvoided(h[..n]);
    ExecInReach(w, cmds[c], TERMINAL, h, o, {}, n);
    var x :| x in Reach(w, cmds[c], TERMINAL, {}) && Does(h[n], x);
    assert Lookup(Furnished(w, cmds, {}), x.file) == Some(OLD);
  }

  lemma {:induction false} SomeOutcomes(w: World, cmds: seq<Command>, t: seq<Event>, c: nat, hc: seq<Access>, oc: Outcome, n: nat) returns (os: seq<Outcome>)
    requires n <= |cmds| && (forall d: nat :: d < n ==> Over(w, cmds[d], History(t, d)))
    requires c < n ==> History(t, c) == hc && Exec(w, cmds[c], TERMINAL, hc, oc)
    ensures |os| == n && (forall d: nat :: d < n ==> Exec(w, cmds[d], TERMINAL, History(t, d), os[d])) && (c < n ==> os[c] == oc)
    decreases n
  {
    hide Exec, History;
    if n == 0 {
      os := [];
    } else {
      os := SomeOutcomes(w, cmds, t, c, hc, oc, n - 1);
      var o :| Exec(w, cmds[n - 1], TERMINAL, History(t, n - 1), o);
      os := os + [if n - 1 == c then oc else o];
    }
  }

  /** The complete runs of a guarded script have only outcomes of the plain shell if and only if a command
      that can take the shell with it is followed only by commands that touch no file. */
  lemma StayingExact(w: World, cmds: seq<Command>)
    requires Guarded(w, cmds)
    ensures AlwaysPlain(w, cmds) <==> Staying(w, cmds)
  {
    hide Guarded, Plan, ShellProcesses, IsRun, Ended, PlainToo, History, Reach, CanVanish;
    if Staying(w, cmds) {
      forall s0, run: seq<State>, os | CompleteRun(w, cmds, s0, run, os)
        ensures PlainToo(w, cmds, s0, run[|run| - 1], os)
      {
        StayingGoesOn(w, cmds, run[|run| - 1].trace, os);
        PlainExact(w, cmds, s0, run, os);
      }
    } else {
      var c: nat, k: nat :| c < k < |cmds| && CanVanish(cmds[c]) && Reach(w, cmds[k], TERMINAL, {}) != {};
      var s0, run, os := Overrun(w, cmds, c, k);
      PlainExact(w, cmds, s0, run, os);
      assert CompleteRun(w, cmds, s0, run, os);
    }
  }

  // ---------------------------------------------------------------- a script that stops

  /** cat < missing and then echo hi > g. */
  const CAT := Simple(["cat"], Some("missing"), None)
  const ECHO := Simple(["echo", "hi"], None, Some("g"))

  /** With no file there the plain shell does not come to the second command. */
  lemma PlainStops(w: World, os: seq<Outcome>, t: seq<Event>, s1: Store)
    requires |os| == 2 && Shell(w, [CAT, ECHO], os, 0, map[], t, s1)
    ensures s1 == map[]
  {
    var h, mid := ShellParts(w, [CAT, ECHO], os, 0, map[], t, s1);
    var o := os[0];
    if OpenFails(CAT.input, CAT.output, h) && o == Gone(1) {
      assert h == [] || h == [Open("missing", true)] || h == [Open("missing", false)];
      if h == [Open("missing", true)] || h == [Open("missing", false)] {
        assert Tagged(0, h)[1..] == [];
      }
    } else {
      SimpleParts(w, CAT, TERMINAL, h, o);
      assert false;
    }
  }

  lemma CatMisses(w: World)
    ensures ShellProcesses(w, [CAT, ECHO]).may(0, [], Open("missing", false)) && ShellProcesses(w, [CAT, ECHO]).done(0, [Open("missing", false)])
  {
    var h := [Open("missing", false)];
    assert Exec(w, CAT, TERMINAL, h, Gone(1));
    hide Exec, ShellProcesses;
    assert [] + [Open("missing", false)] == h;
    MayFollow(w, [CAT, ECHO], 0, [], Open("missing", false), h, Gone(1));
    MayExit(w, [CAT, ECHO], 0, h, Gone(1));
  }

  lemma EchoWrites(w: World)
    ensures ShellProcesses(w, [CAT, ECHO]).may(1, [], Write("g", "")) && ShellProcesses(w, [CAT, ECHO]).may(1, [Write("g", "")], Write("g", "hi"))
    ensures ShellProcesses(w, [CAT, ECHO]).done(1, [Write("g", ""), Write("g", "hi")])
  {
    var a, b := Write("g", ""), Write("g", "hi");
    var h, o := ExecSimple(w, ECHO, TERMINAL, [b], 0);
    assert h == [a, b];
    hide Exec, ShellProcesses;
    assert [] + [a] == [a] == h[..1] && [a] + [b] == h;
    MayFollow(w, [CAT, ECHO], 1, [], a, h, o);
    MayFollow(w, [CAT, ECHO], 1, [a], b, h, o);
    MayExit(w, [CAT, ECHO], 1, h, o);
  }

  lemma FreeScript()
    ensures Plan([CAT, ECHO]) == [Fork(0), Fork(1)]
  {
    assert Reads(CAT) == ["missing"] && Writes(CAT) == [] && Writes(ECHO) == ["g"];
    hide Plan;
    FreePair(CAT, ECHO);
  }

  /** Time travel writes the file that the plain shell never does. */
  lemma MissingStops(w: World) returns (run: seq<State>)
    ensures IsRun(Plan([CAT, ECHO]), ShellProcesses(w, [CAT, ECHO]), map[], run) && Complete(Plan([CAT, ECHO]), run[|run| - 1])
    ensures run[|run| - 1].store == map["g" := "hi"]
    ensures forall os, t, s1 :: |os| == 2 && Shell(w, [CAT, ECHO], os, 0, map[], t, s1) ==> s1 == map[]
  {
    forall os, t, s1 | |os| == 2 && Shell(w, [CAT, ECHO], os, 0, map[], t, s1)
      ensures s1 == map[]
    {
      PlainStops(w, os, t, s1);
    }
    hide Shell;
    run := MissingRun(w);
  }

  lemma MissingRun(w: World) returns (run: seq<State>)
    ensures IsRun(Plan([CAT, ECHO]), ShellProcesses(w, [CAT, ECHO]), map[], run) && Complete(Plan([CAT, ECHO]), run[|run| - 1])
    ensures run[|run| - 1].store == map["g" := "hi"]
  {
    var plan, ps := Plan([CAT, ECHO]), ShellProcesses(w, [CAT, ECHO]);
    FreeScript();
    CatMisses(w);
    EchoWrites(w);
    hide Plan, ShellProcesses, History, IsRun, Next;
    var none: seq<Event> := [];
    var e0, e1, e2 := Event(0, Open("missing", false)), Event(1, Write("g", "")), Event(1, Write("g", "hi"));
    EchoHistories(e0, e1, e2);
    var s0 := State(0, {}, {}, map[], none);
    var s1 := s0.(pc := 1, forked := {} + {0});
    var s2 := s1.(pc := 2, forked := {0} + {1});
    run := StartRun(plan, ps, map[]);
    StepIsNext(plan, ps, s0, s1);
    Extend(plan, ps, map[], run, s0, s1);
    StepIsNext(plan, ps, s1, s2);
    Extend(plan, ps, map[], run + [s1], s1, s2);
    run := run + [s1] + [s2];
    run := MissingAccesses(plan, ps, run, s2, e0, e1, e2);
    var s5 := s2.(trace := none + [e0] + [e1] + [e2], store := map["g" := "hi"]);
    var s6, s7 := s5.(finished := {} + {0}), s5.(finished := {0} + {1});
    ExitIsStep(plan, ps, s5, 0, s6);
    Extend(plan, ps, map[], run, s5, s6);
    ExitIsStep(plan, ps, s6, 1, s7);
    Extend(plan, ps, map[], run + [s6], s6, s7);
    run := run + [s6] + [s7];
    LastState(plan, ps, map[], run, s7);
  }

  lemma MissingAccesses(plan: seq<Action>, ps: Processes, run: seq<State>, s2: State, e0: Event, e1: Event, e2: Event) returns (run': seq<State>)
    requires EndsIn(plan, ps, map[], run, s2) && s2.trace == [] && s2.store == map[] && s2.forked == {0, 1} && s2.finished == {}
    requires e0 == Event(0, Open("missing", false)) && e1 == Event(1, Write("g", "")) && e2 == Event(1, Write("g", "hi"))
    requires ps.may(0, [], e0.access) && ps.may(1, [], e1.access) && ps.may(1, [e1.access], e2.access)
    ensures EndsIn(plan, ps, map[], run', s2.(trace := [] + [e0] + [e1] + [e2], store := map["g" := "hi"]))
  {
    EchoHistories(e0, e1, e2);
    hide History, IsRun, Next;
    var none: seq<Event> := [];
    var s3 := s2.(trace := none + [e0]);
    AccessIsStep(plan, ps, s2, e0, s3);
    Extend(plan, ps, map[], run, s2, s3);
    var s4 := s3.(trace := none + [e0] + [e1], store := map["g" := ""]);
    AccessIsStep(plan, ps, s3, e1, s4);
    Extend(plan, ps, map[], run + [s3], s3, s4);
    var s5 := s4.(trace := none + [e0] + [e1] + [e2], store := map["g" := "hi"]);
    AccessIsStep(plan, ps, s4, e2, s5);
    Extend(plan, ps, map[], run + [s3] + [s4], s4, s5);
    run' := run + [s3] + [s4] + [s5];
  }

  lemma EchoHistories(e0: Event, e1: Event, e2: Event)
    requires e0.cmd == 0 && e1.cmd == e2.cmd == 1
    ensures var none: seq<Event> := [];
            History(none, 0) == [] && History(none + [e0], 1) == [] && History(none + [e0] + [e1], 1) == [e1.access] &&
            History(none + [e0] + [e1] + [e2], 0) == [e0.access] && History(none + [e0] + [e1] + [e2], 1) == [e1.access, e2.access]
  {
    var none: seq<Event> := [];
    forall c: nat
      ensures History(none, c) == []
    {
    }
    hide History;
    forall c: nat
      ensures History(none + [e0], c) == if c == 0 then [e0.access] else []
      ensures History(none + [e0] + [e1], c) == if c == 0 then [e0.access] else if c == 1 then [e1.access] else []
      ensures History(none + [e0] + [e1] + [e2], c) == if c == 0 then [e0.access] else if c == 1 then [e1.access, e2.access] else []
    {
      HistoryExtend(none, e0, c);
      HistoryExtend(none + [e0], e1, c);
      HistoryExtend(none + [e0] + [e1], e2, c);
    }
  }
}
