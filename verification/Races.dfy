/** When time travel is safe for a script of shell commands (project1/main.c,
    project1/execute-command.c): exactly if the plan waits, before it forks a command, for every
    earlier command that can clash with it. */
module Races {
  import opened ShellCommand
  import opened DependencyGraph
  import opened PlanSafety
  import opened TimeTravel
  import opened Footprint

  // ---------------------------------------------------------------- what can clash

  function Writing(f: string): set<Touch> {
    {Out(f), Emptied(f)}
  }

  function Marking(f: string): set<Touch> {
    {Opened(f), Out(f), Emptied(f)}
  }

  /** A program that c starts can write the file. */
  predicate Fills(w: World, c: Command, f: string) {
    Out(f) in Reach(w, c, TERMINAL, {})
  }

  /** The command can write the file or truncate it. */
  predicate Rewrites(w: World, c: Command, f: string) {
    Out(f) in Reach(w, c, TERMINAL, {}) || Emptied(f) in Reach(w, c, TERMINAL, {})
  }

  predicate Gets(w: World, c: Command, f: string) {
    In(f) in Reach(w, c, TERMINAL, {})
  }

  /** The command can read what it has not written or truncated itself. */
  predicate Peeks(w: World, c: Command, f: string) {
    In(f) in Reach(w, c, TERMINAL, Writing(f))
  }

  /** The command can open the file for input when it has done nothing else to it. */
  predicate Looks(w: World, c: Command, f: string) {
    Opened(f) in Reach(w, c, TERMINAL, Marking(f))
  }

  /** The command can write or truncate the file without opening it for input first. */
  predicate Creates(w: World, c: Command, f: string) {
    Out(f) in Reach(w, c, TERMINAL, {Opened(f)}) || Emptied(f) in Reach(w, c, TERMINAL, {Opened(f)})
  }

  predicate Harms(w: World, c: Command, d: Command, f: string) {
    || (Fills(w, c, f) && (Gets(w, d, f) || Rewrites(w, d, f)))
    || (Rewrites(w, c, f) && Peeks(w, d, f))
    || (Creates(w, c, f) && Looks(w, d, f))
  }

  ghost predicate Clash(w: World, c: Command, d: Command) {
    exists f :: Harms(w, c, d, f) || Harms(w, d, c, f)
  }

  /** What could be checked before anything is forked. */
  ghost predicate Guarded(w: World, cmds: seq<Command>) {
    forall i: nat, k: nat :: i < k < |cmds| && Clash(w, cmds[i], cmds[k]) ==> WaitsFirst(Plan(cmds), i, k)
  }

  /** At every moment of every run from every store the accesses so far have the effect they have
      in script order. */
  ghost predicate AlwaysSerializable(w: World, cmds: seq<Command>) {
    forall s0, run, i :: IsRun(Plan(cmds), ShellProcesses(w, cmds), s0, run) && 0 <= i < |run| ==> InOrder(cmds, s0, run[i])
  }

  ghost predicate InOrder(cmds: seq<Command>, s0: Store, s: State) {
    Executes(s0, Block(s.trace, 0, |cmds|), s.store)
  }

  // ---------------------------------------------------------------- guarded scripts

  lemma MayIsReach(w: World, cmds: seq<Command>, c: nat, h: seq<Access>, a: Access, avoid: set<Touch>)
    requires c < |cmds| && ShellProcesses(w, cmds).may(c, h, a) && Avoids(h, avoid)
    ensures InReach(w, cmds[c], TERMINAL, avoid, a)
  {
    var all, o :| Exec(w, cmds[c], TERMINAL, all, o) && h + [a] <= all;
    hide Exec, Reach, Avoids;
    assert all[..|h|] == h && all[|h|] == a;
    ExecInReach(w, cmds[c], TERMINAL, all, o, avoid, |h|);
  }

  lemma NothingAvoided(h: seq<Access>)
    ensures Avoids(h, {})
  {
  }

  lemma WriteIsReach(w: World, cmds: seq<Command>, c: nat, f: string)
    requires c < |cmds|
    ensures MayWrite(ShellProcesses(w, cmds), c, f) ==> Rewrites(w, cmds[c], f)
    ensures MayFill(ShellProcesses(w, cmds), c, f) ==> Fills(w, cmds[c], f)
    ensures MayRead(ShellProcesses(w, cmds), c, f) ==> Gets(w, cmds[c], f)
  {
    hide Reach, ShellProcesses, Avoids;
    forall h, a | ShellProcesses(w, cmds).may(c, h, a)
      ensures InReach(w, cmds[c], TERMINAL, {}, a)
    {
      NothingAvoided(h);
      MayIsReach(w, cmds, c, h, a, {});
    }
  }

  lemma PeekIsReach(w: World, cmds: seq<Command>, c: nat, f: string)
    requires c < |cmds| && MayPeek(ShellProcesses(w, cmds), c, f)
    ensures Peeks(w, cmds[c], f)
  {
    hide Reach, ShellProcesses;
    var h, v :| ShellProcesses(w, cmds).may(c, h, Read(f, v)) && !WroteTo(h, f);
    MayIsReach(w, cmds, c, h, Read(f, v), Writing(f));
  }

  lemma CreateIsReach(w: World, cmds: seq<Command>, c: nat, f: string)
    requires c < |cmds| && MayCreate(ShellProcesses(w, cmds), c, f)
    ensures Creates(w, cmds[c], f)
  {
    hide Reach, ShellProcesses;
    var h, v :| ShellProcesses(w, cmds).may(c, h, Write(f, v)) && Open(f, true) !in h;
    assert Avoids(h, {Opened(f)}) by {
      forall a, x | a in h && x in {Opened(f)} && Does(a, x)
        ensures a.Open? && !a.found
      {
        assert a == Open(f, true) || a == Open(f, false);
      }
    }
    MayIsReach(w, cmds, c, h, Write(f, v), {Opened(f)});
  }

  /** The first access that opens the file. */
  lemma {:induction false} FirstOpen(h: seq<Access>, f: string) returns (n: nat)
    requires exists a :: a in h && a.Open? && a.file == f
    ensures n < |h| && h[n].Open? && h[n].file == f && forall a :: a in h[..n] ==> !(a.Open? && a.file == f)
    decreases |h|
  {
    var front, last := h[..|h| - 1], h[|h| - 1];
    assert h == front + [last];
    if exists a :: a in front && a.Open? && a.file == f {
      n := FirstOpen(front, f);
      assert h[..n] == front[..n];
    } else {
      n := |h| - 1;
    }
  }

  lemma Unmarked(h: seq<Access>, a: Access, f: string, n: nat)
    requires !WroteTo(h, f) && n <= |h| && forall b :: b in (h + [a])[..n] ==> !(b.Open? && b.file == f)
    ensures Avoids((h + [a])[..n], Marking(f))
  {
    assert (h + [a])[..n] == h[..n] && forall b :: b in h[..n] ==> b in h;
  }

  lemma LookIsReach(w: World, cmds: seq<Command>, c: nat, f: string)
    requires c < |cmds| && MayLook(ShellProcesses(w, cmds), c, f)
    ensures Looks(w, cmds[c], f)
  {
    hide Reach;
    var h, found :| ShellProcesses(w, cmds).may(c, h, Open(f, found)) && !WroteTo(h, f);
    var all, o :| Exec(w, cmds[c], TERMINAL, all, o) && h + [Open(f, found)] <= all;
    hide Exec;
    var g := h + [Open(f, found)];
    assert g[|h|] == Open(f, found) && g[|h|] in g;
    var n := FirstOpen(g, f);
    assert all[..n] == g[..n] && all[n] == g[n];
    Unmarked(h, Open(f, found), f, n);
    hide Avoids, Does, WroteTo;
    ExecInReach(w, cmds[c], TERMINAL, all, o, Marking(f), n);
  }

  lemma DisturbingIsHarm(w: World, cmds: seq<Command>, c: nat, k: nat, f: string)
    requires c < |cmds| && k < |cmds| && Disturbs(ShellProcesses(w, cmds), c, k, f)
    ensures Harms(w, cmds[c], cmds[k], f)
  {
    hide ShellProcesses, Fills, Rewrites, Gets, Peeks, Looks, Creates, MayFill, MayRead, MayWrite, MayPeek, MayLook, MayCreate;
    var ps := ShellProcesses(w, cmds);
    WriteIsReach(w, cmds, c, f);
    WriteIsReach(w, cmds, k, f);
    if MayPeek(ps, k, f) {
      PeekIsReach(w, cmds, k, f);
    }
    if MayCreate(ps, c, f) && MayLook(ps, k, f) {
      CreateIsReach(w, cmds, c, f);
      LookIsReach(w, cmds, k, f);
    }
  }

  lemma GuardedIsOrdered(w: World, cmds: seq<Command>)
    requires Guarded(w, cmds)
    ensures Ordered(cmds, ShellProcesses(w, cmds))
  {
    hide Plan, ShellProcesses, Disturbs, WaitsFirst, Harms;
    var ps := ShellProcesses(w, cmds);
    forall c: nat, k: nat, f | c < k < |cmds| && (Disturbs(ps, c, k, f) || Disturbs(ps, k, c, f))
      ensures WaitsFirst(Plan(cmds), c, k)
    {
      if Disturbs(ps, c, k, f) {
        DisturbingIsHarm(w, cmds, c, k, f);
      } else {
        DisturbingIsHarm(w, cmds, k, c, f);
      }
      assert Clash(w, cmds[c], cmds[k]);
    }
  }

  /** The touches to avoid only shrink the reach. */
  lemma {:induction false} FewerEnds(c: Command, gone: bool, zero: bool, avoid: set<Touch>)
    ensures Ends(c, gone, zero, avoid) ==> Ends(c, gone, zero, {})
    decreases c
  {
    match c
    case Simple(_, _, _) =>
    case Subshell(body, _, _) => FewerEnds(body, gone, zero, avoid);
    case Compound(_, l, r) =>
      FewerEnds(l, true, true, avoid);
      FewerEnds(l, true, false, avoid);
      FewerEnds(l, false, true, avoid);
      FewerEnds(l, false, false, avoid);
      FewerEnds(r, true, zero, avoid);
      FewerEnds(r, false, zero, avoid);
  }

  lemma {:induction false} FewerReached(w: World, c: Command, io: Io, avoid: set<Touch>)
    ensures Reach(w, c, io, avoid) <= Reach(w, c, io, {})
    decreases c
  {
    match c
    case Simple(_, _, _) =>
    case Subshell(body, input, output) => FewerReached(w, body, Redirected(input, output, io), avoid);
    case Compound(op, l, r) =>
      hide Ends;
      FewerEnds(l, false, true, avoid);
      FewerEnds(l, false, false, avoid);
      FewerReached(w, l, if op.Pipe? then Io(io.stdin, None) else io, avoid);
      FewerReached(w, r, if op.Pipe? then Io(None, io.stdout) else io, avoid);
  }

  /** A harmed command touches the file, and the other one writes it. */
  lemma HarmIsListed(w: World, c: Command, d: Command, f: string)
    requires Harms(w, c, d, f) && Covered(w, c) && Covered(w, d)
    ensures f in Writes(c) && (f in Reads(d) || f in Writes(d))
  {
    FewerReached(w, c, TERMINAL, {Opened(f)});
    FewerReached(w, d, TERMINAL, Writing(f));
    FewerReached(w, d, TERMINAL, Marking(f));
    hide Reach;
    forall x | x in Reach(w, c, TERMINAL, {})
      ensures Listing(c, x)
    {
    }
    forall x | x in Reach(w, d, TERMINAL, {})
      ensures Listing(d, x)
    {
    }
  }

  /** Scripts whose lists cover what is touched are guarded. */
  lemma CoveredIsGuarded(w: World, cmds: seq<Command>)
    requires forall c :: 0 <= c < |cmds| ==> Covered(w, cmds[c])
    ensures Guarded(w, cmds)
  {
    hide Plan, Reach, Harms, Covered;
    PlanIsSafe(cmds);
    forall i: nat, k: nat | i < k < |cmds| && Clash(w, cmds[i], cmds[k])
      ensures WaitsFirst(Plan(cmds), i, k)
    {
      var f :| Harms(w, cmds[i], cmds[k], f) || Harms(w, cmds[k], cmds[i], f);
      if Harms(w, cmds[i], cmds[k], f) {
        HarmIsListed(w, cmds[i], cmds[k], f);
      } else {
        HarmIsListed(w, cmds[k], cmds[i], f);
      }
      assert Dependent(cmds[i], cmds[k]);
      BeforeMembers(cmds, k, i);
    }
  }

  // ---------------------------------------------------------------- walking along the plan

  /** The shell has come to place p of its plan. The commands it has waited for have ended with one of
      their first calls failing, or without any, and nothing has been touched. */
  ghost predicate Walked(w: World, cmds: seq<Command>, s0: Store, p: nat, run: seq<State>, s: State) {
    && p <= |Plan(cmds)| && EndsIn(Plan(cmds), ShellProcesses(w, cmds), s0, run, s)
    && s.pc == p && s.trace == [] && s.store == s0
    && (forall c: nat :: c in s.forked <==> Fork(c) in Plan(cmds)[..p])
    && (forall c: nat :: c in s.finished <==> Wait(c) in Plan(cmds)[..p])
  }

  lemma PrefixMember(plan: seq<Action>, p: nat, a: Action)
    requires 0 < p <= |plan|
    ensures a in plan[..p] <==> a in plan[..p - 1] || a == plan[p - 1]
  {
    assert plan[..p] == plan[..p - 1] + [plan[p - 1]];
  }

  lemma WalkFork(w: World, cmds: seq<Command>, s0: Store, p: nat, run: seq<State>, a: State) returns (run': seq<State>, s: State)
    requires p < |Plan(cmds)| && Plan(cmds)[p].Fork? && Walked(w, cmds, s0, p, run, a)
    ensures Walked(w, cmds, s0, p + 1, run', s)
  {
    hide Plan, ShellProcesses, IsRun, Next;
    var plan, ps := Plan(cmds), ShellProcesses(w, cmds);
    s := a.(pc := p + 1, forked := a.forked + {plan[p].cmd});
    StepIsNext(plan, ps, a, s);
    Extend(plan, ps, s0, run, a, s);
    run' := run + [s];
    forall b
      ensures b in plan[..p + 1] <==> b in plan[..p] || b == plan[p]
    {
      PrefixMember(plan, p + 1, b);
    }
  }

  lemma IdleIsDone(w: World, cmds: seq<Command>, c: nat)
    requires c < |cmds|
    ensures ShellProcesses(w, cmds).done(c, History([], c))
  {
    hide Exec;
    var o := Idle(w, cmds[c], TERMINAL);
    MayExit(w, cmds, c, [], o);
  }

  lemma WalkWait(w: World, cmds: seq<Command>, s0: Store, p: nat, run: seq<State>, a: State) returns (run': seq<State>, s: State)
    requires p < |Plan(cmds)| && Plan(cmds)[p].Wait? && Walked(w, cmds, s0, p, run, a)
    ensures Walked(w, cmds, s0, p + 1, run', s)
  {
    hide Plan, ShellProcesses, IsRun, Next, Safe, History;
    var plan, ps, c := Plan(cmds), ShellProcesses(w, cmds), Plan(cmds)[p].cmd;
    assert c < |cmds| && Fork(c) in plan[..p] by { WaitAfterFork(cmds, p); }
    var run1, b := run, a;
    if c !in a.finished {
      b := a.(finished := a.finished + {c});
      IdleIsDone(w, cmds, c);
      ExitIsStep(plan, ps, a, c, b);
      Extend(plan, ps, s0, run, a, b);
      run1 := run + [b];
    }
    s := b.(pc := p + 1);
    assert Next(plan, ps, b, s) by { StepIsNext(plan, ps, b, s); }
    Extend(plan, ps, s0, run1, b, s);
    run' := run1 + [s];
    forall x
      ensures x in plan[..p + 1] <==> x in plan[..p] || x == plan[p]
    {
      PrefixMember(plan, p + 1, x);
    }
  }

  lemma WaitAfterFork(cmds: seq<Command>, p: nat)
    requires p < |Plan(cmds)| && Plan(cmds)[p].Wait?
    ensures Plan(cmds)[p].cmd < |cmds| && Fork(Plan(cmds)[p].cmd) in Plan(cmds)[..p]
  {
    hide Plan;
    PlanIsSafe(cmds);
  }

  lemma {:induction false} Walk(w: World, cmds: seq<Command>, s0: Store, p: nat) returns (run: seq<State>, s: State)
    requires p <= |Plan(cmds)|
    ensures Walked(w, cmds, s0, p, run, s)
  {
    hide Plan, ShellProcesses, IsRun, Next;
    if p == 0 {
      s := State(0, {}, {}, s0, []);
      run := StartRun(Plan(cmds), ShellProcesses(w, cmds), s0);
    } else {
      hide Walked;
      run, s := Walk(w, cmds, s0, p - 1);
      if Plan(cmds)[p - 1].Fork? {
        run, s := WalkFork(w, cmds, s0, p - 1, run, s);
      } else {
        run, s := WalkWait(w, cmds, s0, p - 1, run, s);
      }
    }
  }

  // ---------------------------------------------------------------- a place where two commands run

  lemma {:induction false} BoundWaits(cmds: seq<Command>, ks: seq<nat>)
    requires AllBelow(ks, |cmds|) && Increasing(ks)
    ensures forall j: nat :: Wait(j) in BoundPlan(cmds, ks) ==> ks != [] && j < ks[|ks| - 1]
    ensures forall q, i: nat, j: nat :: 0 <= q < |BoundPlan(cmds, ks)| && BoundPlan(cmds, ks)[q] == Fork(i) && Wait(j) in BoundPlan(cmds, ks)[..q] ==> j < i
    decreases |ks|
  {
    if ks != [] {
      var k, front := ks[|ks| - 1], ks[..|ks| - 1];
      BoundWaits(cmds, front);
      var plan0, chunk := BoundPlan(cmds, front), Waits(Before(cmds, k)) + [Fork(k)];
      assert BoundPlan(cmds, ks) == plan0 + chunk;
      assert front != [] ==> front[|front| - 1] < k;
      forall j: nat | Wait(j) in chunk
        ensures j < k
      {
        BeforeMembers(cmds, k, j);
        var at :| 0 <= at < |chunk| && chunk[at] == Wait(j);
        assert Before(cmds, k)[at] == j;
      }
      hide BoundPlan, Before;
      forall q, i: nat, j: nat | 0 <= q < |plan0 + chunk| && (plan0 + chunk)[q] == Fork(i) && Wait(j) in (plan0 + chunk)[..q]
        ensures j < i
      {
        if q < |plan0| {
          assert (plan0 + chunk)[..q] == plan0[..q];
        } else {
          assert (plan0 + chunk)[q] == chunk[q - |plan0|];
          assert i == k;
          assert Wait(j) in plan0 || Wait(j) in chunk;
        }
      }
    }
  }

  lemma InSecond(first: seq<Action>, second: seq<Action>, q: nat, i: nat, j: nat)
    requires forall p :: 0 <= p < |first| ==> first[p].Fork?
    requires q < |first + second| && (first + second)[q] == Fork(i) && Wait(j) in (first + second)[..q]
    ensures q >= |first| && second[q - |first|] == Fork(i) && Wait(j) in second[..q - |first|]
  {
    var at :| 0 <= at < q && (first + second)[..q][at] == Wait(j);
    assert (first + second)[at] == Wait(j);
    assert at >= |first|;
    assert second[..q - |first|][at - |first|] == Wait(j);
  }

  /** Before a command is forked the shell waits for earlier commands only. */
  lemma WaitsBelow(cmds: seq<Command>, q: nat, i: nat, j: nat)
    requires q < |Plan(cmds)| && Plan(cmds)[q] == Fork(i) && Wait(j) in Plan(cmds)[..q]
    ensures j < i
  {
    var free, bs := Positions(cmds, |cmds|, false), Positions(cmds, |cmds|, true);
    PositionsBelow(cmds, |cmds|, true);
    PositionsSound(cmds, |cmds|, true);
    BoundWaits(cmds, bs);
    hide Positions, BoundPlan;
    var first, second := Forks(free), BoundPlan(cmds, bs);
    assert Plan(cmds) == first + second;
    hide Plan;
    InSecond(first, second, q, i, j);
  }

  lemma ForkPlace(cmds: seq<Command>, i: nat) returns (q: nat)
    requires i < |cmds|
    ensures q < |Plan(cmds)| && Plan(cmds)[q] == Fork(i)
  {
    hide Plan, ForksOf;
    ForkedExactlyOnce(cmds);
    ForksOfMembers(Plan(cmds), i);
    q :| 0 <= q < |Plan(cmds)| && Plan(cmds)[q] == Fork(i);
  }

  lemma ForkedEarly(cmds: seq<Command>, i: nat, k: nat) returns (pk: nat)
    requires !WaitsFirst(Plan(cmds), i, k)
    ensures pk < |Plan(cmds)| && Plan(cmds)[pk] == Fork(k) && Wait(i) !in Plan(cmds)[..pk]
  {
    hide Plan;
    pk :| 0 <= pk < |Plan(cmds)| && Plan(cmds)[pk] == Fork(k) && Wait(i) !in Plan(cmds)[..pk];
  }

  /** A place in the plan at which both commands run and neither has been waited for. */
  lemma Meet(cmds: seq<Command>, i: nat, k: nat) returns (p: nat)
    requires i < k < |cmds| && !WaitsFirst(Plan(cmds), i, k)
    ensures p <= |Plan(cmds)| && Fork(i) in Plan(cmds)[..p] && Fork(k) in Plan(cmds)[..p]
    ensures Wait(i) !in Plan(cmds)[..p] && Wait(k) !in Plan(cmds)[..p]
  {
    hide Plan;
    var plan := Plan(cmds);
    var pk := ForkedEarly(cmds, i, k);
    var pi := ForkPlace(cmds, i);
    var last, c := if pi < pk then pk else pi, if pi < pk then k else i;
    p := last + 1;
    assert plan[..p][pi] == Fork(i) && plan[..p][pk] == Fork(k);
    forall j: nat | Wait(j) in plan[..p]
      ensures j < c && Wait(j) in plan[..last]
    {
      PrefixMember(plan, p, Wait(j));
      WaitsBelow(cmds, last, c, j);
    }
  }

  // ---------------------------------------------------------------- what two commands do

  /** A command that has done nothing yet begins one of its executions. */
  lemma Perform(w: World, cmds: seq<Command>, s0: Store, run: seq<State>, s: State, c: nat, h: seq<Access>, s1: Store)
    returns (run': seq<State>, s': State)
    requires EndsIn(Plan(cmds), ShellProcesses(w, cmds), s0, run, s) && c < |cmds|
    requires c in s.forked && c !in s.finished && History(s.trace, c) == []
    requires Leads(w, cmds[c], TERMINAL, h) && Executes(s.store, Tagged(c, h), s1)
    ensures EndsIn(Plan(cmds), ShellProcesses(w, cmds), s0, run', s')
    ensures s' == s.(store := s1, trace := s.trace + Tagged(c, h))
  {
    LeadsLegal(w, cmds, c, h);
    hide Exec, ShellProcesses, Plan, History;
    assert h[..|h|] == h;
    run', s' := PlayCommand(Plan(cmds), ShellProcesses(w, cmds), s0, run, s, c, h, |h|, s1);
  }

  lemma LeadsLegal(w: World, cmds: seq<Command>, c: nat, h: seq<Access>)
    requires c < |cmds| && Leads(w, cmds[c], TERMINAL, h)
    ensures Legal(ShellProcesses(w, cmds), c, h)
  {
    var all, o :| Exec(w, cmds[c], TERMINAL, all, o) && h <= all;
    hide Exec, ShellProcesses;
    forall i | 0 <= i < |h|
      ensures ShellProcesses(w, cmds).may(c, h[..i], h[i])
    {
      assert h[..i] + [h[i]] == h[..i + 1];
      MayFollow(w, cmds, c, h[..i], h[i], all, o);
    }
  }

  lemma NoHistory(t: seq<Event>, c: nat)
    requires forall e :: e in t ==> e.cmd != c
    ensures History(t, c) == []
  {
    if History(t, c) != [] {
      HistoryMembers(t, c, History(t, c)[0]);
    }
  }

  /** The order of the script when only commands i and k have done anything. */
  lemma ScriptOrder(t: seq<Event>, n: nat, i: nat, hi: seq<Access>, k: nat, hk: seq<Access>)
    requires i < k < n && t == Tagged(k, hk) + Tagged(i, hi)
    ensures Block(t, 0, n) == Tagged(i, hi) + Tagged(k, hk)
  {
    hide History, Tagged, Block;
    forall c: nat
      ensures History(t, c) == if c == i then hi else if c == k then hk else []
    {
      HistoryConcat(Tagged(k, hk), Tagged(i, hi), c);
      HistoryTagged(k, hk, c);
      HistoryTagged(i, hi, c);
    }
    OneBlock(t, 0, i, k);
    OneBlock(t, k, k, n);
    BlockSplit(t, 0, k, n);
  }

  /** A stretch of commands of which only one has done anything. */
  lemma OneBlock(t: seq<Event>, lo: nat, c: nat, hi: nat)
    requires lo <= c < hi && forall d: nat :: lo <= d < hi && d != c ==> History(t, d) == []
    ensures Block(t, lo, hi) == Tagged(c, History(t, c))
  {
    hide History, Tagged, Block;
    BlockSplit(t, lo, c, hi);
    BlockSplit(t, c, c + 1, hi);
    NoBlock(t, lo, c);
    NoBlock(t, c + 1, hi);
    OwnBlock(t, c);
  }

  lemma {:induction false} NoBlock(t: seq<Event>, lo: nat, hi: nat)
    requires lo <= hi && forall c: nat :: lo <= c < hi ==> History(t, c) == []
    ensures Block(t, lo, hi) == []
    decreases hi
  {
    if lo < hi {
      NoBlock(t, lo, hi - 1);
    }
  }

  /** First command k begins, then command i. */
  lemma KThenI(w: World, cmds: seq<Command>, s0: Store, p: nat, run: seq<State>, a: State,
               i: nat, hi: seq<Access>, k: nat, hk: seq<Access>, mid: Store, s1: Store)
    returns (run': seq<State>, s': State)
    requires i < k < |cmds| && Walked(w, cmds, s0, p, run, a) && i in a.forked && k in a.forked && i !in a.finished && k !in a.finished
    requires Leads(w, cmds[k], TERMINAL, hk) && Executes(s0, Tagged(k, hk), mid)
    requires Leads(w, cmds[i], TERMINAL, hi) && Executes(mid, Tagged(i, hi), s1)
    ensures EndsIn(Plan(cmds), ShellProcesses(w, cmds), s0, run', s')
    ensures InOrder(cmds, s0, s') <==> Executes(s0, Tagged(i, hi) + Tagged(k, hk), s1)
  {
    hide Plan, ShellProcesses, IsRun, Leads, Executes;
    NoHistory([], k);
    var run1, b := Perform(w, cmds, s0, run, a, k, hk, mid);
    HistoryTagged(k, hk, i);
    assert [] + Tagged(k, hk) == Tagged(k, hk);
    run', s' := Perform(w, cmds, s0, run1, b, i, hi, s1);
    ScriptOrder(s'.trace, |cmds|, i, hi, k, hk);
  }

  /** The way of a command to a touch can be gone if the files it opens on it are there. */
  lemma Approach(w: World, c: nat, cmd: Command, x: Touch, avoid: set<Touch>, s: Store) returns (front: seq<Access>, s1: Store)
    requires x in Reach(w, cmd, TERMINAL, avoid)
    requires forall y :: y in Reach(w, cmd, TERMINAL, {}) && y.Opened? && y !in avoid ==> y.file in s
    ensures Executes(s, Tagged(c, front), s1) && Quiet(front, avoid)
    ensures forall a :: Does(a, x) ==> Leads(w, cmd, TERMINAL, front + [a])
  {
    hide Exec, Reach;
    front := ReachFront(w, cmd, TERMINAL, x, avoid);
    forall f | Open(f, true) in front
      ensures f in s
    {
      var n :| 0 <= n < |front| && front[n] == Open(f, true);
      var p := front + [SomeAccess(x)];
      assert Leads(w, cmd, TERMINAL, p);
      var h, o :| Exec(w, cmd, TERMINAL, h, o) && p <= h;
      NothingAvoided(h[..n]);
      ExecInReach(w, cmd, TERMINAL, h, o, {}, n);
      assert h[n] == front[n];
      var y :| y in Reach(w, cmd, TERMINAL, {}) && Does(h[n], y);
    }
    hide Leads, Does;
    s1 := QuietRuns(c, front, avoid, s);
  }

  lemma {:induction false} QuietRuns(c: nat, h: seq<Access>, avoid: set<Touch>, s: Store) returns (s1: Store)
    requires Quiet(h, avoid) && forall f :: Open(f, true) in h ==> f in s
    ensures Executes(s, Tagged(c, h), s1)
    decreases |h|
  {
    if h == [] {
      s1 := s;
    } else {
      assert h[0] in h && forall a :: a in h[1..] ==> a in h;
      assert Fits(h[0], s);
      s1 := QuietRuns(c, h[1..], avoid, After(h[0], s));
      assert Tagged(c, h)[1..] == Tagged(c, h[1..]);
    }
  }

  /** One more access after the way to it. */
  lemma LastStep(c: nat, front: seq<Access>, a: Access, s: Store, m: Store)
    requires Executes(s, Tagged(c, front), m) && Fits(a, m)
    ensures Executes(s, Tagged(c, front + [a]), After(a, m))
  {
    hide Executes;
    assert Tagged(c, front + [a]) == Tagged(c, front) + [Event(c, a)];
    ExecutesConcat(s, Tagged(c, front), m, [Event(c, a)], After(a, m));
    AccessFirst(m, Event(c, a), [], After(a, m)) by { EmptyExecutes(After(a, m)); }
    assert [Event(c, a)] + [] == [Event(c, a)];
  }

  /** What a command sees of a file that it has not written is what was there before. */
  lemma SeesStart(c: nat, front: seq<Access>, a: Access, s: Store, s1: Store)
    requires Executes(s, Tagged(c, front + [a]), s1) && !WroteTo(front, a.file) && !a.Write?
    ensures Fits(a, s)
  {
    hide Executes;
    assert Tagged(c, front + [a]) == Tagged(c, front) + [Event(c, a)];
    var m := LastAccess(s, Tagged(c, front), Event(c, a), s1);
    forall e | e in Tagged(c, front) && e.access.Write?
      ensures e.access.file != a.file
    {
      var n :| 0 <= n < |front| && front[n] == e.access;
    }
    Untouched(s, Tagged(c, front), m, a.file);
  }

  lemma WritesLast(c: nat, front: seq<Access>, f: string, v: string, s: Store, s1: Store)
    requires Executes(s, Tagged(c, front + [Write(f, v)]), s1)
    ensures Lookup(s1, f) == Some(v)
  {
    hide Executes;
    assert Tagged(c, front + [Write(f, v)]) == Tagged(c, front) + [Event(c, Write(f, v))];
    var m := LastAccess(s, Tagged(c, front), Event(c, Write(f, v)), s1);
  }

  lemma QuietTruncates(front: seq<Access>, a: Access, avoid: set<Touch>, f: string)
    requires Quiet(front, avoid) && (a.Write? ==> a.content == "")
    ensures OnlyTruncates(front + [a], f)
    ensures Out(f) in avoid ==> !WroteTo(front, f)
  {
  }

  // ---------------------------------------------------------------- the races

  const OLD := "old"
  const NEW := "new"

  /** What one command does when its turn comes to do something about f. */
  datatype Deed = Deed(front: seq<Access>, last: Access)

  function Done(d: Deed): seq<Access> {
    d.front + [d.last]
  }

  /** The command fills f. */
  lemma DoFill(w: World, c: nat, cmd: Command, f: string, s: Store) returns (d: Deed, s1: Store)
    requires Fills(w, cmd, f) && forall y :: y in Reach(w, cmd, TERMINAL, {}) ==> y.file in s
    ensures Leads(w, cmd, TERMINAL, Done(d)) && Executes(s, Tagged(c, Done(d)), s1) && d.last == Write(f, NEW) && Lookup(s1, f) == Some(NEW)
  {
    hide Reach, Leads, Executes;
    var front, m := Approach(w, c, cmd, Out(f), {}, s);
    d := Deed(front, Write(f, NEW));
    LastStep(c, front, d.last, s, m);
    s1 := After(d.last, m);
  }

  /** The command reads f or truncates it, or writes nothing into it. */
  lemma DoOther(w: World, c: nat, cmd: Command, f: string, s: Store) returns (d: Deed, s1: Store)
    requires (Gets(w, cmd, f) || Rewrites(w, cmd, f)) && forall y :: y in Reach(w, cmd, TERMINAL, {}) ==> y.file in s
    ensures Leads(w, cmd, TERMINAL, Done(d)) && Executes(s, Tagged(c, Done(d)), s1)
    ensures OnlyTruncates(Done(d), f) && d.last.file == f && (WroteTo(Done(d), f) || (d.last.Read? && !WroteTo(d.front, f)))
    ensures Rewrites(w, cmd, f) ==> WroteTo(Done(d), f)
  {
    hide Reach, Leads, Executes;
    var x := if Out(f) in Reach(w, cmd, TERMINAL, {}) then Out(f) else if Emptied(f) in Reach(w, cmd, TERMINAL, {}) then Emptied(f) else In(f);
    var front, m := Approach(w, c, cmd, x, {}, s);
    d := Deed(front, if x.In? then Read(f, Lookup(m, f)) else Write(f, ""));
    assert Does(d.last, x);
    LastStep(c, front, d.last, s, m);
    QuietTruncates(front, d.last, {}, f);
    s1 := After(d.last, m);
    assert d.last in Done(d);
    if WroteTo(front, f) {
      var a :| a in front && a.Write? && a.file == f;
      assert a in Done(d);
    }
  }

  /** The command reads f and has not written it. */
  lemma DoPeek(w: World, c: nat, cmd: Command, f: string, s: Store) returns (d: Deed, s1: Store)
    requires Peeks(w, cmd, f) && forall y :: y in Reach(w, cmd, TERMINAL, {}) ==> y.file in s
    ensures Leads(w, cmd, TERMINAL, Done(d)) && Executes(s, Tagged(c, Done(d)), s1)
    ensures d.last.Read? && d.last.file == f && !WroteTo(d.front, f)
  {
    hide Reach, Leads, Executes;
    var front, m := Approach(w, c, cmd, In(f), Writing(f), s);
    d := Deed(front, Read(f, Lookup(m, f)));
    LastStep(c, front, d.last, s, m);
    QuietTruncates(front, d.last, Writing(f), f);
    s1 := After(d.last, m);
  }

  /** The command opens f, as the first thing it does to it. */
  lemma DoLook(w: World, c: nat, cmd: Command, f: string, s: Store) returns (d: Deed, s1: Store)
    requires Looks(w, cmd, f) && forall y :: y in Reach(w, cmd, TERMINAL, {}) && y.file != f ==> y.file in s
    ensures Leads(w, cmd, TERMINAL, Done(d)) && Executes(s, Tagged(c, Done(d)), s1)
    ensures d.last.Open? && d.last.file == f && !WroteTo(d.front, f)
  {
    hide Reach, Leads, Executes;
    var front, m := Approach(w, c, cmd, Opened(f), Marking(f), s);
    d := Deed(front, Open(f, f in m));
    LastStep(c, front, d.last, s, m);
    QuietTruncates(front, d.last, Marking(f), f);
    s1 := After(d.last, m);
  }

  /** The command writes f without having opened it. */
  lemma DoCreate(w: World, c: nat, cmd: Command, f: string, s: Store) returns (d: Deed, s1: Store)
    requires Creates(w, cmd, f) && forall y :: y in Reach(w, cmd, TERMINAL, {}) && y.file != f ==> y.file in s
    ensures Leads(w, cmd, TERMINAL, Done(d)) && Executes(s, Tagged(c, Done(d)), s1)
    ensures d.last.Write? && d.last.file == f
  {
    hide Reach, Leads, Executes;
    var x := if Out(f) in Reach(w, cmd, TERMINAL, {Opened(f)}) then Out(f) else Emptied(f);
    var front, m := Approach(w, c, cmd, x, {Opened(f)}, s);
    d := Deed(front, Write(f, ""));
    LastStep(c, front, d.last, s, m);
    s1 := After(d.last, m);
  }

  /** Both commands have something to do with f, and in script order it would not come out the same. */
  ghost predicate Race(w: World, cmds: seq<Command>, s0: Store, i: nat, k: nat, di: Deed, dk: Deed) {
    i < k < |cmds| && Leads(w, cmds[i], TERMINAL, Done(di)) && Leads(w, cmds[k], TERMINAL, Done(dk)) &&
    exists mid, s1 :: Executes(s0, Tagged(k, Done(dk)), mid) && Executes(mid, Tagged(i, Done(di)), s1) &&
      !Executes(s0, Tagged(i, Done(di)) + Tagged(k, Done(dk)), s1)
  }

  /** Contents: either of two commands fills f, or truncates what the other one reads. */
  lemma ContentRace(w: World, cmds: seq<Command>, s0: Store, i: nat, k: nat, f: string) returns (di: Deed, dk: Deed)
    requires i < k < |cmds| && Lookup(s0, f) == Some(OLD)
    requires forall c, y :: (c == i || c == k) && y in Reach(w, cmds[c], TERMINAL, {}) ==> y.file in s0
    requires (Fills(w, cmds[i], f) && (Gets(w, cmds[k], f) || Rewrites(w, cmds[k], f))) ||
             (Fills(w, cmds[k], f) && (Gets(w, cmds[i], f) || Rewrites(w, cmds[i], f))) ||
             (Rewrites(w, cmds[i], f) && Peeks(w, cmds[k], f)) || (Rewrites(w, cmds[k], f) && Peeks(w, cmds[i], f))
    ensures Race(w, cmds, s0, i, k, di, dk)
  {
    hide Reach, Leads, Executes, Fills, Gets, Rewrites, Peeks;
    var mid, s1;
    if Fills(w, cmds[i], f) && (Gets(w, cmds[k], f) || Rewrites(w, cmds[k], f)) {
      dk, mid := DoOther(w, k, cmds[k], f, s0);
      Remain(w, cmds[i], s0, k, Done(dk), mid);
      di, s1 := DoFill(w, i, cmds[i], f, mid);
    } else if Fills(w, cmds[k], f) && (Gets(w, cmds[i], f) || Rewrites(w, cmds[i], f)) {
      dk, mid := DoFill(w, k, cmds[k], f, s0);
      Remain(w, cmds[i], s0, k, Done(dk), mid);
      di, s1 := DoOther(w, i, cmds[i], f, mid);
    } else if Rewrites(w, cmds[i], f) && Peeks(w, cmds[k], f) {
      dk, mid := DoPeek(w, k, cmds[k], f, s0);
      Remain(w, cmds[i], s0, k, Done(dk), mid);
      di, s1 := DoOther(w, i, cmds[i], f, mid);
    } else {
      dk, mid := DoOther(w, k, cmds[k], f, s0);
      Remain(w, cmds[i], s0, k, Done(dk), mid);
      di, s1 := DoPeek(w, i, cmds[i], f, mid);
    }
    if Executes(s0, Tagged(i, Done(di)) + Tagged(k, Done(dk)), s1) {
      var m := ExecutesSplit(s0, Tagged(i, Done(di)), Tagged(k, Done(dk)), s1);
      NotBoth(s0, i, di, k, dk, f, mid, m, s1);
    }
  }

  /** All files stay. */
  lemma Remain(w: World, cmd: Command, s: Store, c: nat, h: seq<Access>, s1: Store)
    requires Executes(s, Tagged(c, h), s1) && forall y :: y in Reach(w, cmd, TERMINAL, {}) ==> y.file in s
    ensures forall y :: y in Reach(w, cmd, TERMINAL, {}) ==> y.file in s1
  {
    hide Executes, Reach;
    forall f | f in s
      ensures f in s1
    {
      StaysThere(s, Tagged(c, h), s1, f);
    }
  }

  /** Of two commands of which one fills f, or truncates it, and the other has read or truncated it, not
      both orders are possible with the same outcome. */
  lemma NotBoth(s0: Store, i: nat, di: Deed, k: nat, dk: Deed, f: string, mid: Store, m: Store, s1: Store)
    requires Lookup(s0, f) == Some(OLD) && di.last.file == dk.last.file == f
    requires Executes(s0, Tagged(k, Done(dk)), mid) && Executes(mid, Tagged(i, Done(di)), s1)
    requires Truncator(di, f) || Peeker(di, f) || di.last == Write(f, NEW)
    requires Truncator(dk, f) || Peeker(dk, f) || dk.last == Write(f, NEW)
    requires (di.last == Write(f, NEW) && dk.last != Write(f, NEW)) || (dk.last == Write(f, NEW) && di.last != Write(f, NEW)) ||
             (Truncator(di, f) && Peeker(dk, f)) || (Truncator(dk, f) && Peeker(di, f))
    ensures !(Executes(s0, Tagged(i, Done(di)), m) && Executes(m, Tagged(k, Done(dk)), s1))
  {
    hide Executes;
    Outcome(s0, k, dk, f, mid);
    Outcome(mid, i, di, f, s1);
    if Executes(s0, Tagged(i, Done(di)), m) && Executes(m, Tagged(k, Done(dk)), s1) {
      Outcome(s0, i, di, f, m);
      Outcome(m, k, dk, f, s1);
    }
  }

  predicate Truncator(d: Deed, f: string) {
    OnlyTruncates(Done(d), f) && WroteTo(Done(d), f)
  }

  predicate Peeker(d: Deed, f: string) {
    d.last.Read? && d.last.file == f && !WroteTo(d.front, f)
  }

  lemma Outcome(s: Store, c: nat, d: Deed, f: string, s1: Store)
    requires Executes(s, Tagged(c, Done(d)), s1)
    ensures Truncator(d, f) ==> Lookup(s1, f) == Some("")
    ensures d.last == Write(f, NEW) ==> Lookup(s1, f) == Some(NEW)
    ensures Peeker(d, f) ==> d.last.seen == Lookup(s, f) == Lookup(s1, f)
  {
    hide Executes;
    if Truncator(d, f) {
      EmptiedAfter(c, Done(d), f, s, s1);
    }
    if d.last == Write(f, NEW) {
      WritesLast(c, d.front, f, NEW, s, s1);
    }
    if Peeker(d, f) {
      SeesStart(c, d.front, d.last, s, s1);
      forall e | e in Tagged(c, Done(d)) && e.access.Write?
        ensures e.access.file != f
      {
        var n :| 0 <= n < |Done(d)| && Done(d)[n] == e.access;
        assert n < |d.front| && e.access in d.front;
      }
      Untouched(s, Tagged(c, Done(d)), s1, f);
    }
  }

  /** Existence: either of two commands creates a file that the other one opens. */
  lemma CreationRace(w: World, cmds: seq<Command>, s0: Store, i: nat, k: nat, f: string) returns (di: Deed, dk: Deed)
    requires i < k < |cmds| && f !in s0
    requires forall c, y :: (c == i || c == k) && y in Reach(w, cmds[c], TERMINAL, {}) && y.file != f ==> y.file in s0
    requires (Creates(w, cmds[i], f) && Looks(w, cmds[k], f)) || (Creates(w, cmds[k], f) && Looks(w, cmds[i], f))
    ensures Race(w, cmds, s0, i, k, di, dk)
  {
    hide Reach, Leads, Executes, Creates, Looks;
    var mid, s1;
    if Creates(w, cmds[i], f) && Looks(w, cmds[k], f) {
      dk, mid := DoLook(w, k, cmds[k], f, s0);
      RemainBut(w, cmds[i], s0, k, Done(dk), mid, f);
      di, s1 := DoCreate(w, i, cmds[i], f, mid);
      SeesStart(k, dk.front, dk.last, s0, mid);
    } else {
      dk, mid := DoCreate(w, k, cmds[k], f, s0);
      RemainBut(w, cmds[i], s0, k, Done(dk), mid, f);
      di, s1 := DoLook(w, i, cmds[i], f, mid);
      SeesStart(i, di.front, di.last, mid, s1);
      ThereAfter(k, Done(dk), f, s0, mid) by { assert dk.last in Done(dk); }
    }
    if Executes(s0, Tagged(i, Done(di)) + Tagged(k, Done(dk)), s1) {
      var m := ExecutesSplit(s0, Tagged(i, Done(di)), Tagged(k, Done(dk)), s1);
      if di.last.Write? {
        ThereAfter(i, Done(di), f, s0, m) by { assert di.last in Done(di); }
        SeesStart(k, dk.front, dk.last, m, s1);
      } else {
        SeesStart(i, di.front, di.last, s0, m);
      }
      assert false;
    }
  }

  lemma RemainBut(w: World, cmd: Command, s: Store, c: nat, h: seq<Access>, s1: Store, f: string)
    requires Executes(s, Tagged(c, h), s1) && forall y :: y in Reach(w, cmd, TERMINAL, {}) && y.file != f ==> y.file in s
    ensures forall y :: y in Reach(w, cmd, TERMINAL, {}) && y.file != f ==> y.file in s1
  {
    hide Executes, Reach;
    forall g | g in s
      ensures g in s1
    {
      StaysThere(s, Tagged(c, h), s1, g);
    }
  }

  // ---------------------------------------------------------------- exactly the guarded scripts

  function Files(w: World, cmds: seq<Command>): set<string> {
    set c, x | 0 <= c < |cmds| && x in Reach(w, cmds[c], TERMINAL, {}) :: x.file
  }

  /** All files that the script can touch are there, but for one that is looked for. */
  function Furnished(w: World, cmds: seq<Command>, absent: set<string>): (s: Store)
    ensures forall c, x :: 0 <= c < |cmds| && x in Reach(w, cmds[c], TERMINAL, {}) && x.file !in absent ==> Lookup(s, x.file) == Some(OLD)
    ensures forall f :: f in absent ==> f !in s
  {
    map f | f in Files(w, cmds) && f !in absent :: OLD
  }

  /** The file over which two commands clash, and whether it is to be missing. */
  lemma ClashRaces(w: World, cmds: seq<Command>, i: nat, k: nat) returns (absent: set<string>, di: Deed, dk: Deed)
    requires i < k < |cmds| && Clash(w, cmds[i], cmds[k])
    ensures |absent| <= 1 && Race(w, cmds, Furnished(w, cmds, absent), i, k, di, dk)
  {
    var f :| Harms(w, cmds[i], cmds[k], f) || Harms(w, cmds[k], cmds[i], f);
    if (Creates(w, cmds[i], f) && Looks(w, cmds[k], f)) || (Creates(w, cmds[k], f) && Looks(w, cmds[i], f)) {
      absent := {f};
      hide Reach, Race, Creates, Looks;
      di, dk := CreationRace(w, cmds, Furnished(w, cmds, absent), i, k, f);
    } else {
      absent := {};
      TouchedByOne(w, cmds, i, k, f);
      hide Reach, Race, Fills, Gets, Rewrites, Peeks;
      di, dk := ContentRace(w, cmds, Furnished(w, cmds, absent), i, k, f);
    }
  }

  lemma TouchedByOne(w: World, cmds: seq<Command>, i: nat, k: nat, f: string)
    requires i < k < |cmds|
    requires Fills(w, cmds[i], f) || Fills(w, cmds[k], f) || Rewrites(w, cmds[i], f) || Rewrites(w, cmds[k], f)
    ensures Lookup(Furnished(w, cmds, {}), f) == Some(OLD)
  {
    hide Reach;
    forall c, x | 0 <= c < |cmds| && x in Reach(w, cmds[c], TERMINAL, {})
      ensures Lookup(Furnished(w, cmds, {}), x.file) == Some(OLD)
    {
    }
    assert exists c, x :: 0 <= c < |cmds| && x in Reach(w, cmds[c], TERMINAL, {}) && x.file == f by {
      var c := if Fills(w, cmds[i], f) || Rewrites(w, cmds[i], f) then i else k;
      assert Out(f) in Reach(w, cmds[c], TERMINAL, {}) || Emptied(f) in Reach(w, cmds[c], TERMINAL, {});
    }
  }

  /** A script that is not guarded has a run whose accesses do not have the effect of the script order.
      It starts with all files there that the script can touch, but for one at most. */
  lemma UnguardedRaces(w: World, cmds: seq<Command>) returns (absent: set<string>, run: seq<State>, s: State)
    requires !Guarded(w, cmds)
    ensures |absent| <= 1 && EndsIn(Plan(cmds), ShellProcesses(w, cmds), Furnished(w, cmds, absent), run, s)
    ensures !InOrder(cmds, Furnished(w, cmds, absent), s)
  {
    hide Plan, ShellProcesses, Reach, IsRun, InOrder, WaitsFirst, Leads;
    var i: nat, k: nat :| i < k < |cmds| && Clash(w, cmds[i], cmds[k]) && !WaitsFirst(Plan(cmds), i, k);
    hide Clash;
    var p := Meet(cmds, i, k);
    var di, dk;
    absent, di, dk := ClashRaces(w, cmds, i, k);
    var s0 := Furnished(w, cmds, absent);
    var mid, s1 :| Executes(s0, Tagged(k, Done(dk)), mid) && Executes(mid, Tagged(i, Done(di)), s1) &&
      !Executes(s0, Tagged(i, Done(di)) + Tagged(k, Done(dk)), s1);
    hide Executes;
    var a;
    run, a := Walk(w, cmds, s0, p);
    run, s := KThenI(w, cmds, s0, p, run, a, i, Done(di), k, Done(dk), mid, s1);
  }

  lemma LastState(plan: seq<Action>, ps: Processes, s0: Store, run: seq<State>, s: State)
    requires EndsIn(plan, ps, s0, run, s)
    ensures run != [] && run[|run| - 1] == s && IsRun(plan, ps, s0, run)
  {
  }

  /** Time travel keeps the meaning of a script, at every moment of every run, if and only if it is
      guarded. */
  lemma RaceExact(w: World, cmds: seq<Command>)
    ensures AlwaysSerializable(w, cmds) <==> Guarded(w, cmds)
  {
    hide Guarded, Plan, ShellProcesses, IsRun, Ordered;
    if Guarded(w, cmds) {
      GuardedIsOrdered(w, cmds);
      forall s0, run, i | IsRun(Plan(cmds), ShellProcesses(w, cmds), s0, run) && 0 <= i < |run|
        ensures InOrder(cmds, s0, run[i])
      {
        OrderedRuns(cmds, ShellProcesses(w, cmds), s0, run, i);
      }
    } else {
      var absent, run, s := UnguardedRaces(w, cmds);
      var s0 := Furnished(w, cmds, absent);
      LastState(Plan(cmds), ShellProcesses(w, cmds), s0, run, s);
      assert !InOrder(cmds, s0, run[|run| - 1]);
    }
  }

  /** The complete runs of a guarded script have outcomes of running its commands one after the other. */
  lemma GuardedScripts(w: World, cmds: seq<Command>, s0: Store, run: seq<State>) returns (script: seq<State>)
    requires Guarded(w, cmds)
    requires IsRun(Plan(cmds), ShellProcesses(w, cmds), s0, run) && Complete(Plan(cmds), run[|run| - 1])
    ensures IsRun(SequentialPlan(|cmds|), ShellProcesses(w, cmds), s0, script)
    ensures Complete(SequentialPlan(|cmds|), script[|script| - 1])
    ensures script[|script| - 1].store == run[|run| - 1].store
    ensures SameHistories(script[|script| - 1].trace, run[|run| - 1].trace)
  {
    hide Guarded, Plan, ShellProcesses, Ordered;
    GuardedIsOrdered(w, cmds);
    script := OrderedScript(cmds, ShellProcesses(w, cmds), s0, run);
  }

  // ---------------------------------------------------------------- a program that writes an argument

  /** cp a b and then cat < b. The shell takes both arguments of cp for files that it reads. */
  const COPY := Simple(["cp", "a", "b"], None, None)
  const SHOW := Simple(["cat"], Some("b"), None)

  lemma CopyEscapes(w: World)
    requires "b" in w.targets(COPY.words)
    ensures Plan([COPY, SHOW]) == [Fork(0), Fork(1)] && !Covered(w, COPY) && !AlwaysSerializable(w, [COPY, SHOW])
  {
    var cmds := [COPY, SHOW];
    assert Reads(COPY) == ["a", "b"] && Reads(SHOW) == ["b"] by {
      assert Arguments(COPY.words) == ["a", "b"] && FileWords(["b"]) == ["b"] && FileWords(["a", "b"]) == ["a"] + ["b"];
    }
    FreePair(COPY, SHOW);
    assert Out("b") in Reach(w, COPY, TERMINAL, {}) && In("b") in Reach(w, SHOW, TERMINAL, {});
    assert !Listing(COPY, Out("b"));
    hide Reach, Plan, AlwaysSerializable;
    assert Harms(w, cmds[0], cmds[1], "b");
    assert Clash(w, cmds[0], cmds[1]);
    assert Plan(cmds)[1] == Fork(1) && Wait(0) !in Plan(cmds)[..1];
    assert !WaitsFirst(Plan(cmds), 0, 1);
    RaceExact(w, cmds);
  }
}
