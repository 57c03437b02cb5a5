/** The concurrent execution of a script in time-travel mode: the parent works through its
    plan while every forked command reads and writes files at its own pace. */
module TimeTravel {
  import opened ShellCommand
  import opened DependencyGraph
  import opened PlanSafety

  type Store = map<string, string>

  /** One atomic access: opening a file for input shows whether it is there, reading shows what is
      in it, None if it is missing. */
  datatype Access = Open(file: string, found: bool) | Read(file: string, seen: Option<string>) | Write(file: string, content: string)
  datatype Event = Event(cmd: nat, access: Access)

  function Lookup(s: Store, f: string): Option<string> {
    if f in s then Some(s[f]) else None
  }

  predicate Fits(a: Access, s: Store) {
    (a.Read? ==> a.seen == Lookup(s, a.file)) && (a.Open? ==> a.found == (a.file in s))
  }

  function After(a: Access, s: Store): Store {
    if a.Write? then s[a.file := a.content] else s
  }

  /** The trace can be executed from s0 and leaves s1: every read sees what is stored. */
  predicate Executes(s0: Store, t: seq<Event>, s1: Store)
    decreases |t|
  {
    if t == [] then s0 == s1
    else Fits(t[0].access, s0) && Executes(After(t[0].access, s0), t[1..], s1)
  }

  /** What command c itself did and saw in a trace. */
  function History(t: seq<Event>, c: nat): seq<Access> {
    if t == [] then []
    else History(t[..|t| - 1], c) + (if t[|t| - 1].cmd == c then [t[|t| - 1].access] else [])
  }

  /** The commands as nondeterministic processes: may(c, h, a) says that command c can do a
      after its own history h, done(c, h) that it can exit after h. */
  datatype Processes = Processes(may: (nat, seq<Access>, Access) -> bool, done: (nat, seq<Access>) -> bool)

  predicate InFootprint(c: Command, a: Access) {
    a.file in Writes(c) || (!a.Write? && a.file in Reads(c))
  }

  /** Every command stays inside the two lists recorded for it. */
  ghost predicate Disciplined(cmds: seq<Command>, ps: Processes) {
    forall c: nat, h, a :: c < |cmds| && ps.may(c, h, a) ==> InFootprint(cmds[c], a)
  }

  /** Command c can do this at some point. */
  ghost predicate May(ps: Processes, c: nat, a: Access) {
    exists h :: ps.may(c, h, a)
  }

  ghost predicate MayWrite(ps: Processes, c: nat, f: string) {
    exists v :: May(ps, c, Write(f, v))
  }

  /** Command c can give the file contents. */
  ghost predicate MayFill(ps: Processes, c: nat, f: string) {
    exists v :: v != "" && May(ps, c, Write(f, v))
  }

  ghost predicate MayRead(ps: Processes, c: nat, f: string) {
    exists v :: May(ps, c, Read(f, v))
  }

  predicate WroteTo(h: seq<Access>, f: string) {
    exists a :: a in h && a.Write? && a.file == f
  }

  /** Command c can read, or open, a file that it has not written itself. */
  ghost predicate MayPeek(ps: Processes, c: nat, f: string) {
    exists h, v :: ps.may(c, h, Read(f, v)) && !WroteTo(h, f)
  }

  ghost predicate MayLook(ps: Processes, c: nat, f: string) {
    exists h, found :: ps.may(c, h, Open(f, found)) && !WroteTo(h, f)
  }

  /** Command c can write a file that it has not found before. */
  ghost predicate MayCreate(ps: Processes, c: nat, f: string) {
    exists h, v :: ps.may(c, h, Write(f, v)) && Open(f, true) !in h
  }

  /** What one of two commands does to a file can matter to the other: contents to a reader or another
      writer, truncation to one that has not truncated the file itself, creation to one that opens it. */
  ghost predicate Disturbs(ps: Processes, c: nat, k: nat, f: string) {
    || (MayFill(ps, c, f) && (MayRead(ps, k, f) || MayWrite(ps, k, f)))
    || (MayWrite(ps, c, f) && MayPeek(ps, k, f))
    || (MayCreate(ps, c, f) && MayLook(ps, k, f))
  }

  /** The plan waits for command c before it forks command k. */
  ghost predicate WaitsFirst(plan: seq<Action>, c: nat, k: nat) {
    forall p :: 0 <= p < |plan| && plan[p] == Fork(k) ==> Wait(c) in plan[..p]
  }

  /** Of two commands that can disturb each other the plan waits for the earlier one. */
  ghost predicate Ordered(cmds: seq<Command>, ps: Processes) {
    forall c: nat, k: nat, f :: c < k < |cmds| && (Disturbs(ps, c, k, f) || Disturbs(ps, k, c, f)) ==> WaitsFirst(Plan(cmds), c, k)
  }

  datatype State = State(pc: nat, forked: set<nat>, finished: set<nat>, store: Store, trace: seq<Event>)

  const START := (s0: Store) => State(0, {}, {}, s0, [])

  ghost predicate ForkStep(plan: seq<Action>, s: State, s': State) {
    s.pc < |plan| && plan[s.pc].Fork? &&
    s' == s.(pc := s.pc + 1, forked := s.forked + {plan[s.pc].cmd})
  }

  ghost predicate WaitStep(plan: seq<Action>, s: State, s': State) {
    s.pc < |plan| && plan[s.pc].Wait? && plan[s.pc].cmd in s.finished &&
    s' == s.(pc := s.pc + 1)
  }

  ghost predicate AccessStep(ps: Processes, s: State, s': State) {
    exists e: Event {:trigger s.trace + [e]} ::
      e.cmd in s.forked - s.finished && ps.may(e.cmd, History(s.trace, e.cmd), e.access) &&
      Fits(e.access, s.store) &&
      s' == s.(store := After(e.access, s.store), trace := s.trace + [e])
  }

  ghost predicate ExitStep(ps: Processes, s: State, s': State) {
    exists c: nat :: c in s.forked - s.finished && ps.done(c, History(s.trace, c)) &&
      s' == s.(finished := s.finished + {c})
  }

  ghost predicate Next(plan: seq<Action>, ps: Processes, s: State, s': State) {
    ForkStep(plan, s, s') || WaitStep(plan, s, s') || AccessStep(ps, s, s') || ExitStep(ps, s, s')
  }

  ghost predicate IsRun(plan: seq<Action>, ps: Processes, s0: Store, run: seq<State>) {
    run != [] && run[0] == START(s0) &&
    forall i :: 0 <= i < |run| - 1 ==> Next(plan, ps, run[i], run[i + 1])
  }

  /** The parent has run to the end of its plan and every command has exited. */
  ghost predicate Complete(plan: seq<Action>, s: State) {
    s.pc == |plan| && s.finished == s.forked
  }

  // ---------------------------------------------------------------- script order

  /** The events of commands lo .. hi-1, command by command. */
  function Block(t: seq<Event>, lo: nat, hi: nat): seq<Event>
    requires lo <= hi
    decreases hi - lo
  {
    if lo == hi then [] else Block(t, lo, hi - 1) + Tagged(hi - 1, History(t, hi - 1))
  }

  function Tagged(c: nat, h: seq<Access>): seq<Event> {
    seq(|h|, i requires 0 <= i < |h| => Event(c, h[i]))
  }

  lemma {:induction false} BlockSplit(t: seq<Event>, lo: nat, mid: nat, hi: nat)
    requires lo <= mid <= hi
    ensures Block(t, lo, hi) == Block(t, lo, mid) + Block(t, mid, hi)
    decreases hi
  {
    if mid < hi {
      BlockSplit(t, lo, mid, hi - 1);
    }
  }

  lemma HistoryExtend(t: seq<Event>, e: Event, c: nat)
    ensures History(t + [e], c) == History(t, c) + (if e.cmd == c then [e.access] else [])
  {
    assert (t + [e])[..|t|] == t;
  }

  lemma {:induction false} BlockUntouched(t: seq<Event>, e: Event, lo: nat, hi: nat)
    requires lo <= hi && (e.cmd < lo || hi <= e.cmd)
    ensures Block(t + [e], lo, hi) == Block(t, lo, hi)
    decreases hi
  {
    if lo < hi {
      BlockUntouched(t, e, lo, hi - 1);
      HistoryExtend(t, e, hi - 1);
    }
  }

  /** Adding an event to a trace inserts it, in script order, right after its command. */
  lemma BlockInsert(t: seq<Event>, e: Event, n: nat)
    requires e.cmd < n
    ensures Block(t, 0, n) == Block(t, 0, e.cmd + 1) + Block(t, e.cmd + 1, n)
    ensures Block(t + [e], 0, n) == Block(t, 0, e.cmd + 1) + [e] + Block(t, e.cmd + 1, n)
  {
    var c := e.cmd;
    BlockSplit(t, 0, c + 1, n);
    BlockSplit(t + [e], 0, c + 1, n);
    BlockUntouched(t, e, 0, c);
    BlockUntouched(t, e, c + 1, n);
    HistoryExtend(t, e, c);
    assert Tagged(c, History(t, c) + [e.access]) == Tagged(c, History(t, c)) + [e];
    assert Block(t + [e], 0, c + 1) == Block(t, 0, c) + (Tagged(c, History(t, c)) + [e]);
    assert Block(t, 0, c) + (Tagged(c, History(t, c)) + [e]) == Block(t, 0, c + 1) + [e];
  }

  // ---------------------------------------------------------------- commuting accesses

  lemma {:induction false} ExecutesConcat(s0: Store, a: seq<Event>, s1: Store, b: seq<Event>, s2: Store)
    requires Executes(s0, a, s1)
    ensures Executes(s0, a + b, s2) <==> Executes(s1, b, s2)
    decreases |a|
  {
    if a == [] {
      assert a + b == b;
    } else {
      assert (a + b)[1..] == a[1..] + b;
      ExecutesConcat(After(a[0].access, s0), a[1..], s1, b, s2);
    }
  }

  lemma {:induction false} ExecutesSplit(s0: Store, a: seq<Event>, b: seq<Event>, s2: Store) returns (s1: Store)
    requires Executes(s0, a + b, s2)
    ensures Executes(s0, a, s1) && Executes(s1, b, s2)
    decreases |a|
  {
    if a == [] {
      assert a + b == b;
      s1 := s0;
    } else {
      assert (a + b)[1..] == a[1..] + b;
      s1 := ExecutesSplit(After(a[0].access, s0), a[1..], b, s2);
    }
  }

  lemma {:induction false} Untouched(s: Store, t: seq<Event>, s1: Store, f: string)
    requires Executes(s, t, s1) && forall e :: e in t && e.access.Write? ==> e.access.file != f
    ensures Lookup(s1, f) == Lookup(s, f)
    decreases |t|
  {
    if t != [] {
      assert t == [t[0]] + t[1..] && t[0] in t;
      Untouched(After(t[0].access, s), t[1..], s1, f);
    }
  }

  /** Files do not vanish. */
  lemma {:induction false} StaysThere(s: Store, t: seq<Event>, s1: Store, f: string)
    requires Executes(s, t, s1) && f in s
    ensures f in s1 && forall e :: e in t ==> e.access != Open(f, false)
    decreases |t|
  {
    if t != [] {
      assert t == [t[0]] + t[1..];
      StaysThere(After(t[0].access, s), t[1..], s1, f);
    }
  }

  /** What the last access of a trace does. */
  lemma LastAccess(s: Store, t: seq<Event>, e: Event, s1: Store) returns (mid: Store)
    requires Executes(s, t + [e], s1)
    ensures Executes(s, t, mid) && Fits(e.access, mid) && s1 == After(e.access, mid)
  {
    mid := ExecutesSplit(s, t, [e], s1);
    assert [e][1..] == [];
  }

  predicate IsWrite(t: seq<Event>, k: int, f: string) {
    0 <= k < |t| && t[k].access.Write? && t[k].access.file == f
  }

  /** What a file holds in the end is what was written to it last, at k, or what it held if nothing was. */
  lemma {:induction false} StoreExact(s0: Store, t: seq<Event>, s1: Store, f: string, k: int)
    requires Executes(s0, t, s1) && (k == -1 || IsWrite(t, k, f)) && forall j :: k < j < |t| ==> !IsWrite(t, j, f)
    ensures k == -1 ==> (f in s1 <==> f in s0) && (f in s0 ==> s1[f] == s0[f])
    ensures k >= 0 ==> f in s1 && s1[f] == t[k].access.content
    decreases |t|
  {
    if t != [] {
      var front, n := t[..|t| - 1], |t| - 1;
      assert t == front + [t[n]];
      var mid := LastAccess(s0, front, t[n], s1);
      hide Executes;
      if k < n {
        assert !IsWrite(t, n, f);
        assert forall j :: k < j < n ==> !IsWrite(t, j, f) && front[j] == t[j];
        StoreExact(s0, front, mid, f, k);
      }
    }
  }

  /** An access sees the files as those before it have left them. */
  lemma SeenExact(s0: Store, t: seq<Event>, s1: Store, i: nat) returns (mid: Store)
    requires Executes(s0, t, s1) && i < |t|
    ensures Executes(s0, t[..i], mid)
    ensures t[i].access.Open? ==> (t[i].access.found <==> t[i].access.file in mid)
    ensures t[i].access.Read? ==> t[i].access.seen == if t[i].access.file in mid then Some(mid[t[i].access.file]) else None
  {
    assert t == t[..i + 1] + t[i + 1..] && t[..i + 1] == t[..i] + [t[i]];
    var m := ExecutesSplit(s0, t[..i + 1], t[i + 1..], s1);
    mid := LastAccess(s0, t[..i], t[i], m);
    hide Executes;
  }

  predicate WritesNothingTo(t: seq<Event>, f: string) {
    forall e :: e in t ==> !(e.access.Write? && e.access.file == f)
  }

  /** If every write to a missing file comes after finding it, nobody writes it. */
  lemma {:induction false} NoCreation(s: Store, t: seq<Event>, s1: Store, f: string)
    requires Executes(s, t, s1) && f !in s
    requires forall n :: 0 <= n < |t| && t[n].access.Write? && t[n].access.file == f ==> exists e :: e in t[..n] && e.access == Open(f, true)
    ensures f !in s1 && WritesNothingTo(t, f) && forall e :: e in t ==> e.access != Open(f, true)
    decreases |t|
  {
    if t != [] {
      var front, x := t[..|t| - 1], t[|t| - 1];
      assert t == front + [x];
      var mid := LastAccess(s, front, x, s1);
      forall n | 0 <= n < |front| && front[n].access.Write? && front[n].access.file == f
        ensures exists e :: e in front[..n] && e.access == Open(f, true)
      {
        assert front[n] == t[n] && t[..n] == front[..n];
      }
      NoCreation(s, front, mid, f);
      assert t[..|t| - 1] == front;
    }
  }

  predicate AllEmpty(t: seq<Event>, f: string) {
    forall e :: e in t && e.access.Write? && e.access.file == f ==> e.access.content == ""
  }

  /** A file that is only truncated is empty after it has been truncated. */
  lemma {:induction false} Emptied(s: Store, t: seq<Event>, s1: Store, f: string)
    requires Executes(s, t, s1) && AllEmpty(t, f) && (Lookup(s, f) == Some("") || !WritesNothingTo(t, f))
    ensures Lookup(s1, f) == Some("")
    decreases |t|
  {
    if t != [] {
      assert t == [t[0]] + t[1..];
      var m := After(t[0].access, s);
      assert AllEmpty(t[1..], f);
      Emptied(m, t[1..], s1, f);
    }
  }

  predicate Agrees(a: Access, f: string, v: string) {
    a.file == f ==> a == Open(f, true) || a == Read(f, Some(v)) || a == Write(f, v)
  }

  /** Accesses that would be the same with these contents of a file do not mind a write of them. */
  lemma {:induction false} Shifted(s: Store, t: seq<Event>, s1: Store, f: string, v: string)
    requires Executes(s, t, s1) && forall e :: e in t ==> Agrees(e.access, f, v)
    ensures Executes(s[f := v], t, s1[f := v])
    decreases |t|
  {
    if t != [] {
      var a := t[0].access;
      assert t == [t[0]] + t[1..] && Agrees(a, f, v);
      Shifted(After(a, s), t[1..], s1, f, v);
      assert After(a, s[f := v]) == After(a, s)[f := v];
    }
  }

  lemma {:induction false} HistoryMembers(t: seq<Event>, c: nat, a: Access)
    requires a in History(t, c)
    ensures Event(c, a) in t
    decreases |t|
  {
    var last := t[|t| - 1];
    if a in History(t[..|t| - 1], c) {
      HistoryMembers(t[..|t| - 1], c, a);
    } else {
      assert last == Event(c, a);
    }
  }

  lemma {:induction false} BlockMembers(t: seq<Event>, lo: nat, hi: nat, e: Event)
    requires lo <= hi && e in Block(t, lo, hi)
    ensures e in t && lo <= e.cmd < hi
    decreases hi
  {
    if e in Block(t, lo, hi - 1) {
      BlockMembers(t, lo, hi - 1, e);
    } else {
      HistoryMembers(t, hi - 1, e.access);
    }
  }

  // ---------------------------------------------------------------- the invariant

  ghost predicate Legal(ps: Processes, c: nat, h: seq<Access>) {
    forall i :: 0 <= i < |h| ==> ps.may(c, h[..i], h[i])
  }

  ghost predicate ParentInv(plan: seq<Action>, s: State) {
    && s.pc <= |plan|
    && (forall c: nat :: c in s.forked <==> Fork(c) in plan[..s.pc])
    && (forall c: nat :: Wait(c) in plan[..s.pc] ==> c in s.finished)
    && s.finished <= s.forked
  }

  ghost predicate TraceInv(cmds: seq<Command>, ps: Processes, s: State) {
    forall e :: e in s.trace ==> e.cmd in s.forked && e.cmd < |cmds| && May(ps, e.cmd, e.access)
  }

  ghost predicate HistoryInv(ps: Processes, s: State) {
    && (forall c: nat :: Legal(ps, c, History(s.trace, c)))
    && (forall c: nat :: c in s.finished ==> ps.done(c, History(s.trace, c)))
  }

  ghost predicate OrderInv(cmds: seq<Command>, s0: Store, s: State) {
    Executes(s0, s.trace, s.store) && Executes(s0, Block(s.trace, 0, |cmds|), s.store)
  }

  ghost predicate Inv(cmds: seq<Command>, ps: Processes, s0: Store, s: State) {
    ParentInv(Plan(cmds), s) && TraceInv(cmds, ps, s) && HistoryInv(ps, s) && OrderInv(cmds, s0, s)
  }

  /** A command is only ever running when every earlier command it conflicts with is over. */
  lemma RunningAlone(cmds: seq<Command>, s: State, c: nat, k: nat)
    requires ParentInv(Plan(cmds), s) && k in s.forked
    requires c < k && k < |cmds| && Dependent(cmds[c], cmds[k])
    ensures c in s.finished
  {
    hide Plan, Dependent;
    var plan := Plan(cmds);
    PlanIsSafe(cmds);
    var p :| 0 <= p < s.pc && plan[..s.pc][p] == Fork(k);
    assert plan[p] == Fork(k);
    BeforeMembers(cmds, k, c);
    assert Wait(c) in plan[..p];
    assert plan[..s.pc][..p] == plan[..p];
  }

  lemma FinishedFirst(plan: seq<Action>, s: State, c: nat, k: nat)
    requires ParentInv(plan, s) && k in s.forked && WaitsFirst(plan, c, k)
    ensures c in s.finished
  {
    var p :| 0 <= p < s.pc && plan[..s.pc][p] == Fork(k);
    assert plan[p] == Fork(k);
    assert Wait(c) in plan[..p];
    assert plan[..s.pc][..p] == plan[..p];
  }

  lemma ParentStep(plan: seq<Action>, s: State, s': State)
    requires ParentInv(plan, s) && (ForkStep(plan, s, s') || WaitStep(plan, s, s'))
    ensures ParentInv(plan, s')
  {
    assert plan[..s'.pc] == plan[..s.pc] + [plan[s.pc]];
  }

  lemma AccessKeepsHistory(ps: Processes, s: State, e: Event, s': State)
    requires HistoryInv(ps, s) && e.cmd !in s.finished && ps.may(e.cmd, History(s.trace, e.cmd), e.access)
    requires s'.trace == s.trace + [e] && s'.finished == s.finished
    ensures HistoryInv(ps, s')
  {
    hide History;
    forall c: nat
      ensures Legal(ps, c, History(s'.trace, c))
      ensures c in s'.finished ==> History(s'.trace, c) == History(s.trace, c)
    {
      HistoryExtend(s.trace, e, c);
      var h := History(s.trace, c);
      assert Legal(ps, c, h);
      if c == e.cmd {
        var h' := History(s'.trace, c);
        assert h' == h + [e.access];
        forall i | 0 <= i < |h'|
          ensures ps.may(c, h'[..i], h'[i])
        {
          if i < |h| {
            assert h'[..i] == h[..i];
          } else {
            assert h'[..i] == h;
          }
        }
      } else {
        assert History(s'.trace, c) == h;
      }
    }
  }

  // ---------------------------------------------------------------- an access moves into script order

  /** No command after c that has done anything can disturb it or be disturbed by it. */
  ghost predicate Calm(ps: Processes, t: seq<Event>, c: nat, n: nat) {
    forall k: nat, f :: c < k < n && History(t, k) != [] ==> !Disturbs(ps, c, k, f) && !Disturbs(ps, k, c, f)
  }

  ghost predicate AllLegal(ps: Processes, t: seq<Event>) {
    forall k: nat :: Legal(ps, k, History(t, k))
  }

  lemma {:induction false} EventInHistory(t: seq<Event>, e: Event)
    requires e in t
    ensures e.access in History(t, e.cmd)
    decreases |t|
  {
    var last := t[|t| - 1];
    assert t == t[..|t| - 1] + [last];
    if e != last {
      EventInHistory(t[..|t| - 1], e);
    }
  }

  /** Each command's part of the script order is executed from some store. */
  lemma BlockPart(t: seq<Event>, lo: nat, k: nat, hi: nat, s: Store, s1: Store) returns (m: Store, m1: Store)
    requires lo <= k < hi && Executes(s, Block(t, lo, hi), s1)
    ensures Executes(m, Tagged(k, History(t, k)), m1)
  {
    hide History, Executes, Tagged;
    BlockSplit(t, lo, k + 1, hi);
    var x := ExecutesSplit(s, Block(t, lo, k + 1), Block(t, k + 1, hi), s1);
    m := ExecutesSplit(s, Block(t, lo, k), Tagged(k, History(t, k)), x);
    m1 := x;
  }

  lemma TaggedSplit(k: nat, h: seq<Access>, i: nat)
    requires i < |h|
    ensures Tagged(k, h) == Tagged(k, h[..i]) + [Event(k, h[i])] + Tagged(k, h[i + 1..])
  {
  }

  /** What a command does at one place of its history, between what comes before and after. */
  lemma AccessAt(k: nat, h: seq<Access>, i: nat, m: Store, m1: Store) returns (y: Store)
    requires Executes(m, Tagged(k, h), m1) && i < |h|
    ensures Executes(m, Tagged(k, h[..i]), y) && Fits(h[i], y) && Executes(After(h[i], y), Tagged(k, h[i + 1..]), m1)
  {
    hide Executes, Tagged;
    TaggedSplit(k, h, i);
    var front, e, back := Tagged(k, h[..i]), Event(k, h[i]), Tagged(k, h[i + 1..]);
    var x := ExecutesSplit(m, front + [e], back, m1);
    y := LastAccess(m, front, e, x);
  }

  /** Files that a command has found or written are there. */
  lemma ThereAfter(k: nat, h: seq<Access>, f: string, m: Store, m1: Store)
    requires Executes(m, Tagged(k, h), m1) && (WroteTo(h, f) || Open(f, true) in h)
    ensures f in m1
  {
    hide Executes, Tagged;
    var a :| a in h && ((a.Write? && a.file == f) || a == Open(f, true));
    var j :| 0 <= j < |h| && h[j] == a;
    var y := AccessAt(k, h, j, m, m1);
    StaysThere(After(a, y), Tagged(k, h[j + 1..]), m1, f);
  }

  predicate OnlyTruncates(h: seq<Access>, f: string) {
    forall a :: a in h && a.Write? && a.file == f ==> a.content == ""
  }

  /** A command that only truncates a file, and has done so, leaves it empty. */
  lemma EmptiedAfter(k: nat, h: seq<Access>, f: string, m: Store, m1: Store)
    requires Executes(m, Tagged(k, h), m1) && WroteTo(h, f) && OnlyTruncates(h, f)
    ensures Lookup(m1, f) == Some("")
  {
    hide Executes;
    var t := Tagged(k, h);
    var a :| a in h && a.Write? && a.file == f;
    var j :| 0 <= j < |h| && h[j] == a;
    assert t[j].access == a && t[j] in t;
    Emptied(m, t, m1, f);
  }

  /** After its own write a command finds a file, and finds it empty if it only truncates it. */
  lemma AfterOwnWrite(k: nat, h: seq<Access>, i: nat, f: string, m: Store, m1: Store)
    requires Executes(m, Tagged(k, h), m1) && i < |h| && WroteTo(h[..i], f) && h[i].file == f
    ensures h[i].Open? ==> h[i].found
    ensures h[i].Read? && OnlyTruncates(h, f) ==> h[i].seen == Some("")
  {
    hide Executes, Tagged, WroteTo;
    var y := AccessAt(k, h, i, m, m1);
    ThereAfter(k, h[..i], f, m, y);
    if OnlyTruncates(h, f) {
      EmptiedAfter(k, h[..i], f, m, y);
    }
  }

  /** What a later command has done to a file that c writes. */
  lemma LaterAgrees(ps: Processes, t: seq<Event>, c: nat, n: nat, mid: Store, s: Store, f: string, v: string, x: Event)
    requires Calm(ps, t, c, n) && AllLegal(ps, t) && c < n && Executes(mid, Block(t, c + 1, n), s)
    requires ps.may(c, History(t, c), Write(f, v)) && (Open(f, true) in History(t, c) ==> f in mid)
    requires x in Block(t, c + 1, n)
    ensures Agrees(x.access, f, v)
  {
    hide Executes, Tagged, Block, History;
    BlockMembers(t, c + 1, n, x);
    EventInHistory(t, x);
    var k, h := x.cmd, History(t, x.cmd);
    var i :| 0 <= i < |h| && h[i] == x.access;
    var m, m1 := BlockPart(t, c + 1, k, n, mid, s);
    if x.access.file == f {
      assert May(ps, c, Write(f, v)) && ps.may(k, h[..i], h[i]);
      assert !Disturbs(ps, c, k, f) && !Disturbs(ps, k, c, f);
      forall a | a in h && a.Write? && a.file == f
        ensures a.content == ""
      {
        var j :| 0 <= j < |h| && h[j] == a;
        assert ps.may(k, h[..j], h[j]) && May(ps, k, Write(f, a.content));
      }
      if WroteTo(h[..i], f) {
        AfterOwnWrite(k, h, i, f, m, m1);
      }
      if x.access.Open? && f in mid {
        StaysThere(mid, Block(t, c + 1, n), s, f);
      }
      if x.access.Open? {
        assert !WroteTo(h[..i], f) ==> MayLook(ps, k, f);
        assert Open(f, true) !in History(t, c) ==> MayCreate(ps, c, f);
      } else if x.access.Read? {
        assert May(ps, k, Read(f, x.access.seen));
        assert !WroteTo(h[..i], f) ==> MayPeek(ps, k, f);
      } else {
        assert May(ps, k, Write(f, x.access.content));
      }
    }
  }

  /** Files that command k does not find it does not create. */
  lemma {:induction false} NoneCreates(ps: Processes, t: seq<Event>, lo: nat, hi: nat, s: Store, s1: Store, f: string)
    requires lo <= hi && AllLegal(ps, t) && Executes(s, Block(t, lo, hi), s1) && f !in s
    requires forall k: nat :: lo <= k < hi && History(t, k) != [] ==> !MayCreate(ps, k, f)
    ensures f !in s1
    decreases hi
  {
    hide Executes, History;
    if lo == hi {
      assert Block(t, lo, hi) == [];
      ExecutesEmpty(s, s1);
    } else {
      var k, h := hi - 1, History(t, hi - 1);
      var mid := ExecutesSplit(s, Block(t, lo, k), Tagged(k, h), s1);
      NoneCreates(ps, t, lo, k, s, mid, f);
      forall n | 0 <= n < |Tagged(k, h)| && Tagged(k, h)[n].access.Write? && Tagged(k, h)[n].access.file == f
        ensures exists e :: e in Tagged(k, h)[..n] && e.access == Open(f, true)
      {
        assert h[n] == Write(f, h[n].content) && ps.may(k, h[..n], h[n]) && !MayCreate(ps, k, f);
        assert Open(f, true) in h[..n];
        var j :| 0 <= j < n && h[..n][j] == Open(f, true);
        assert Tagged(k, h)[..n][j].access == Open(f, true);
      }
      NoCreation(mid, Tagged(k, h), s1, f);
    }
  }

  lemma FoundAlready(ps: Processes, t: seq<Event>, c: nat, n: nat, m0: Store, mid: Store, s: Store, f: string, found: bool)
    requires Calm(ps, t, c, n) && AllLegal(ps, t) && c < n && Executes(mid, Block(t, c + 1, n), s)
    requires Executes(m0, Tagged(c, History(t, c)), mid)
    requires ps.may(c, History(t, c), Open(f, found))
    ensures f in mid <==> f in s
  {
    hide Executes, Block, History;
    if f in mid {
      StaysThere(mid, Block(t, c + 1, n), s, f);
    } else if !WroteTo(History(t, c), f) {
      assert MayLook(ps, c, f);
      forall k: nat | c + 1 <= k < n && History(t, k) != []
        ensures !MayCreate(ps, k, f)
      {
        assert !Disturbs(ps, k, c, f);
      }
      NoneCreates(ps, t, c + 1, n, mid, s, f);
    } else {
      ThereAfter(c, History(t, c), f, m0, mid);
    }
  }

  lemma ReadAlready(ps: Processes, t: seq<Event>, c: nat, n: nat, m0: Store, mid: Store, s: Store, f: string, seen: Option<string>)
    requires Calm(ps, t, c, n) && AllLegal(ps, t) && c < n && Executes(mid, Block(t, c + 1, n), s)
    requires Executes(m0, Tagged(c, History(t, c)), mid)
    requires ps.may(c, History(t, c), Read(f, seen))
    ensures Lookup(mid, f) == Lookup(s, f)
  {
    hide Executes, Block, History;
    var back, hc := Block(t, c + 1, n), History(t, c);
    assert May(ps, c, Read(f, seen));
    if WritesNothingTo(back, f) {
      Untouched(mid, back, s, f);
    } else {
      forall x | x in back && x.access.Write? && x.access.file == f
        ensures x.access.content == "" && !MayFill(ps, c, f) && !MayPeek(ps, c, f)
      {
        BlockMembers(t, c + 1, n, x);
        EventInHistory(t, x);
        var h := History(t, x.cmd);
        var i :| 0 <= i < |h| && h[i] == x.access;
        assert May(ps, x.cmd, Write(f, x.access.content));
        assert !Disturbs(ps, c, x.cmd, f) && !Disturbs(ps, x.cmd, c, f);
      }
      assert WroteTo(hc, f);
      forall a | a in hc && a.Write? && a.file == f
        ensures a.content == ""
      {
        var i :| 0 <= i < |hc| && hc[i] == a;
        assert ps.may(c, hc[..i], hc[i]) && May(ps, c, Write(f, a.content));
      }
      EmptiedAfter(c, hc, f, m0, mid);
      Emptied(mid, back, s, f);
    }
  }

  /** The next access of command c might as well have come before all that later commands have done. */
  lemma MoveForward(ps: Processes, t: seq<Event>, c: nat, n: nat, m0: Store, mid: Store, s: Store, a: Access)
    requires Calm(ps, t, c, n) && AllLegal(ps, t) && c < n
    requires Executes(m0, Tagged(c, History(t, c)), mid) && Executes(mid, Block(t, c + 1, n), s)
    requires ps.may(c, History(t, c), a) && Fits(a, s)
    ensures Executes(mid, [Event(c, a)] + Block(t, c + 1, n), After(a, s))
  {
    hide Executes, Block, History;
    var back := Block(t, c + 1, n);
    if a.Write? {
      if Open(a.file, true) in History(t, c) {
        ThereAfter(c, History(t, c), a.file, m0, mid);
      }
      forall x | x in back
        ensures Agrees(x.access, a.file, a.content)
      {
        LaterAgrees(ps, t, c, n, mid, s, a.file, a.content, x);
      }
      Shifted(mid, back, s, a.file, a.content);
    } else if a.Open? {
      FoundAlready(ps, t, c, n, m0, mid, s, a.file, a.found);
    } else {
      ReadAlready(ps, t, c, n, m0, mid, s, a.file, a.seen);
    }
    AccessFirst(mid, Event(c, a), back, After(a, s));
  }

  lemma AccessFirst(s: Store, e: Event, t: seq<Event>, s1: Store)
    requires Fits(e.access, s) && Executes(After(e.access, s), t, s1)
    ensures Executes(s, [e] + t, s1)
  {
    assert ([e] + t)[1..] == t;
  }

  lemma CalmNow(cmds: seq<Command>, ps: Processes, s: State, c: nat)
    requires ParentInv(Plan(cmds), s) && TraceInv(cmds, ps, s) && Ordered(cmds, ps) && c !in s.finished && c < |cmds|
    ensures Calm(ps, s.trace, c, |cmds|)
  {
    hide Plan, WaitsFirst, History, Disturbs;
    forall k: nat, f | c < k < |cmds| && History(s.trace, k) != []
      ensures !Disturbs(ps, c, k, f) && !Disturbs(ps, k, c, f)
    {
      HistoryMembers(s.trace, k, History(s.trace, k)[0]);
      if WaitsFirst(Plan(cmds), c, k) {
        FinishedFirst(Plan(cmds), s, c, k);
      }
    }
  }

  lemma AccessKeepsOrder(cmds: seq<Command>, ps: Processes, s0: Store, s: State, e: Event, s': State)
    requires Inv(cmds, ps, s0, s) && e.cmd in s.forked && e.cmd !in s.finished && e.cmd < |cmds|
    requires Ordered(cmds, ps) && ps.may(e.cmd, History(s.trace, e.cmd), e.access) && Fits(e.access, s.store)
    requires s'.trace == s.trace + [e] && s'.store == After(e.access, s.store)
    ensures OrderInv(cmds, s0, s')
  {
    hide Block, Plan, History, Executes, Tagged;
    var n, c, h := |cmds|, e.cmd, History(s.trace, e.cmd);
    BlockInsert(s.trace, e, n);
    var front, back := Block(s.trace, 0, c + 1), Block(s.trace, c + 1, n);
    AccessFirst(s.store, e, [], s'.store) by { EmptyExecutes(s'.store); }
    assert [e] + [] == [e];
    ExecutesConcat(s0, s.trace, s.store, [e], s'.store);
    var mid := ExecutesSplit(s0, front, back, s.store);
    OwnBlock(s.trace, c);
    BlockSplit(s.trace, 0, c, c + 1);
    var m0 := ExecutesSplit(s0, Block(s.trace, 0, c), Tagged(c, h), mid);
    CalmNow(cmds, ps, s, c);
    MoveForward(ps, s.trace, c, n, m0, mid, s.store, e.access);
    ExecutesConcat(s0, front, mid, [e] + back, s'.store);
    assert front + ([e] + back) == Block(s'.trace, 0, n);
  }

  lemma EmptyExecutes(s: Store)
    ensures Executes(s, [], s)
  {
  }

  lemma ExecutesEmpty(s0: Store, s1: Store)
    requires Executes(s0, [], s1)
    ensures s0 == s1
  {
  }

  lemma OwnBlock(t: seq<Event>, c: nat)
    ensures Block(t, c, c + 1) == Tagged(c, History(t, c))
  {
    hide History, Tagged;
    assert Block(t, c, c) == [];
  }

  lemma InvInit(cmds: seq<Command>, ps: Processes, s0: Store)
    ensures Inv(cmds, ps, s0, START(s0))
  {
    var s := START(s0);
    EmptyBlock(|cmds|);
    hide Plan;
  }

  lemma {:induction false} EmptyBlock(n: nat)
    ensures Block([], 0, n) == []
  {
    if n != 0 {
      EmptyBlock(n - 1);
    }
  }

  lemma InvNext(cmds: seq<Command>, ps: Processes, s0: Store, s: State, s': State)
    requires Ordered(cmds, ps) && Inv(cmds, ps, s0, s) && Next(Plan(cmds), ps, s, s')
    ensures Inv(cmds, ps, s0, s')
  {
    hide Plan, Block, Ordered, History, Executes;
    if ForkStep(Plan(cmds), s, s') || WaitStep(Plan(cmds), s, s') {
      ParentStep(Plan(cmds), s, s');
    } else if AccessStep(ps, s, s') {
      var e: Event :| e.cmd in s.forked - s.finished && ps.may(e.cmd, History(s.trace, e.cmd), e.access) &&
        Fits(e.access, s.store) && s' == s.(store := After(e.access, s.store), trace := s.trace + [e]);
      ForkedInScript(cmds, s, e.cmd);
      AccessKeepsHistory(ps, s, e, s');
      AccessKeepsOrder(cmds, ps, s0, s, e, s');
    }
  }

  lemma ForkedInScript(cmds: seq<Command>, s: State, c: nat)
    requires ParentInv(Plan(cmds), s) && c in s.forked
    ensures c < |cmds|
  {
    hide Plan;
    PlanIsSafe(cmds);
    var p :| 0 <= p < s.pc && Plan(cmds)[..s.pc][p] == Fork(c);
    assert Plan(cmds)[p].cmd == c;
  }

  /** Every state of every run satisfies the invariant. */
  lemma {:induction false} InvRun(cmds: seq<Command>, ps: Processes, s0: Store, run: seq<State>, i: nat)
    requires Ordered(cmds, ps) && IsRun(Plan(cmds), ps, s0, run) && i < |run|
    ensures Inv(cmds, ps, s0, run[i])
  {
    hide Plan, Inv, Ordered;
    if i == 0 {
      InvInit(cmds, ps, s0);
    } else {
      InvRun(cmds, ps, s0, run, i - 1);
      InvNext(cmds, ps, s0, run[i - 1], run[i]);
    }
  }

  // ---------------------------------------------------------------- one command after the other

  /** The commands one at a time, in script order, each still in a process of its own. */
  function SequentialPlan(n: nat): seq<Action> {
    if n == 0 then [] else SequentialPlan(n - 1) + [Fork(n - 1), Wait(n - 1)]
  }

  lemma {:induction false} SequentialPlanAt(n: nat, c: nat)
    requires c < n
    ensures |SequentialPlan(n)| == 2 * n
    ensures SequentialPlan(n)[2 * c] == Fork(c) && SequentialPlan(n)[2 * c + 1] == Wait(c)
  {
    if c < n - 1 {
      SequentialPlanAt(n - 1, c);
    } else if n > 1 {
      SequentialPlanAt(n - 1, 0);
    }
  }

  lemma {:induction false} HistoryConcat(a: seq<Event>, b: seq<Event>, c: nat)
    ensures History(a + b, c) == History(a, c) + History(b, c)
    decreases |b|
  {
    if b == [] {
      assert a + b == a;
    } else {
      assert (a + b)[..|a + b| - 1] == a + b[..|b| - 1];
      HistoryConcat(a, b[..|b| - 1], c);
    }
  }

  lemma {:induction false} HistoryTagged(c: nat, h: seq<Access>, k: nat)
    ensures History(Tagged(c, h), k) == if k == c then h else []
    decreases |h|
  {
    if h != [] {
      var front := h[..|h| - 1];
      assert Tagged(c, h)[..|h| - 1] == Tagged(c, front);
      HistoryTagged(c, front, k);
      assert h == front + [h[|h| - 1]];
    }
  }

  /** Reordering into script order keeps what every command did and saw. */
  lemma {:induction false} BlockHistory(t: seq<Event>, n: nat, k: nat)
    ensures History(Block(t, 0, n), k) == if k < n then History(t, k) else []
  {
    if n != 0 {
      BlockHistory(t, n - 1, k);
      HistoryConcat(Block(t, 0, n - 1), Tagged(n - 1, History(t, n - 1)), k);
      HistoryTagged(n - 1, History(t, n - 1), k);
    }
  }

  function Below(n: nat): (s: set<nat>)
    ensures forall k: nat :: k in s <==> k < n
  {
    if n == 0 then {} else Below(n - 1) + {n - 1}
  }

  ghost predicate EndsIn(plan: seq<Action>, ps: Processes, s0: Store, run: seq<State>, s: State) {
    IsRun(plan, ps, s0, run) && run[|run| - 1] == s
  }

  lemma Extend(plan: seq<Action>, ps: Processes, s0: Store, run: seq<State>, s: State, s': State)
    requires EndsIn(plan, ps, s0, run, s) && Next(plan, ps, s, s')
    ensures EndsIn(plan, ps, s0, run + [s'], s')
  {
  }

  /** Command c, running alone, repeats the first i accesses of its history. */
  lemma {:induction false} PlayCommand(plan: seq<Action>, ps: Processes, s0: Store, run: seq<State>, s: State,
                                       c: nat, h: seq<Access>, i: nat, s1: Store)
    returns (run': seq<State>, s': State)
    requires EndsIn(plan, ps, s0, run, s) && c in s.forked && c !in s.finished && i <= |h|
    requires Legal(ps, c, h) && History(s.trace, c) == []
    requires Executes(s.store, Tagged(c, h[..i]), s1)
    ensures EndsIn(plan, ps, s0, run', s')
    ensures s' == s.(store := s1, trace := s.trace + Tagged(c, h[..i]))
    decreases i
  {
    hide History, IsRun, Next;
    if i == 0 {
      run', s' := run, s;
    } else {
      var front, e := Tagged(c, h[..i - 1]), Event(c, h[i - 1]);
      assert Tagged(c, h[..i]) == front + [e];
      var mid := ExecutesSplit(s.store, front, [e], s1);
      var run1, s2 := PlayCommand(plan, ps, s0, run, s, c, h, i - 1, mid);
      HistoryConcat(s.trace, front, c);
      HistoryTagged(c, h[..i - 1], c);
      assert History(s2.trace, c) == [] + h[..i - 1] == h[..i - 1];
      s' := s2.(store := s1, trace := s2.trace + [e]);
      assert s1 == After(e.access, mid) && Fits(e.access, mid) by {
        assert [e][1..] == [];
      }
      AccessIsStep(plan, ps, s2, e, s');
      Extend(plan, ps, s0, run1, s2, s');
      run' := run1 + [s'];
      assert s.trace + (front + [e]) == s2.trace + [e];
    }
  }

  lemma AccessIsStep(plan: seq<Action>, ps: Processes, s: State, e: Event, s': State)
    requires e.cmd in s.forked - s.finished && ps.may(e.cmd, History(s.trace, e.cmd), e.access)
    requires Fits(e.access, s.store)
    requires s' == s.(store := After(e.access, s.store), trace := s.trace + [e])
    ensures Next(plan, ps, s, s')
  {
  }

  lemma StepIsNext(plan: seq<Action>, ps: Processes, s: State, s': State)
    requires ForkStep(plan, s, s') || WaitStep(plan, s, s')
    ensures Next(plan, ps, s, s')
  {
  }

  lemma ExitIsStep(plan: seq<Action>, ps: Processes, s: State, c: nat, s': State)
    requires c in s.forked - s.finished && ps.done(c, History(s.trace, c)) && s' == s.(finished := s.finished + {c})
    ensures Next(plan, ps, s, s')
  {
    assert ExitStep(ps, s, s');
  }

  lemma StartRun(plan: seq<Action>, ps: Processes, s0: Store) returns (run: seq<State>)
    ensures EndsIn(plan, ps, s0, run, State(0, {}, {}, s0, []))
  {
    run := [START(s0)];
  }

  ghost predicate Finished(ps: Processes, t: seq<Event>, c: nat) {
    Legal(ps, c, History(t, c)) && ps.done(c, History(t, c))
  }

  /** The first n commands can run one after the other, each with its history from t. */
  lemma {:induction false} PlayScript(all: nat, ps: Processes, s0: Store, t: seq<Event>, n: nat, s1: Store)
    returns (run: seq<State>)
    requires n <= all && forall c: nat :: c < n ==> Finished(ps, t, c)
    requires Executes(s0, Block(t, 0, n), s1)
    ensures EndsIn(SequentialPlan(all), ps, s0, run, State(2 * n, Below(n), Below(n), s1, Block(t, 0, n)))
    decreases n
  {
    hide SequentialPlan, History, Legal, Executes;
    var plan := SequentialPlan(all);
    if n == 0 {
      run := [START(s0)];
      assert s0 == s1 by { ExecutesEmpty(s0, s1); }
    } else {
      var c := n - 1;
      var h := History(t, c);
      var mid := ExecutesSplit(s0, Block(t, 0, c), Tagged(c, h), s1);
      var run0 := PlayScript(all, ps, s0, t, c, mid);
      SequentialPlanAt(all, c);
      var a := State(2 * c, Below(c), Below(c), mid, Block(t, 0, c));
      var b := a.(pc := 2 * c + 1, forked := Below(c) + {c});
      Extend(plan, ps, s0, run0, a, b);
      BlockHistory(t, c, c);
      assert h[..|h|] == h;
      assert Finished(ps, t, c);
      var run1, d := PlayCommand(plan, ps, s0, run0 + [b], b, c, h, |h|, s1);
      BlockHistory(t, n, c);
      var e := d.(finished := Below(c) + {c});
      Extend(plan, ps, s0, run1, d, e);
      var f := e.(pc := 2 * n);
      Extend(plan, ps, s0, run1 + [e], e, f);
      assert Below(c) + {c} == Below(n);
      run := run1 + [e] + [f];
    }
  }

  // ---------------------------------------------------------------- serializability

  /** Every command did and saw the same in both traces. */
  ghost predicate SameHistories(t: seq<Event>, t': seq<Event>) {
    forall c: nat :: History(t, c) == History(t', c)
  }

  lemma MayIsListed(cmds: seq<Command>, ps: Processes, c: nat, h: seq<Access>, a: Access)
    requires Disciplined(cmds, ps) && c < |cmds| && ps.may(c, h, a)
    ensures a.file in Writes(cmds[c]) || (!a.Write? && a.file in Reads(cmds[c]))
  {
    assert InFootprint(cmds[c], a);
  }

  lemma DisturbingIsDependent(cmds: seq<Command>, ps: Processes, c: nat, k: nat, f: string)
    requires Disciplined(cmds, ps) && c < |cmds| && k < |cmds| && Disturbs(ps, c, k, f)
    ensures f in Writes(cmds[c]) && (f in Writes(cmds[k]) || f in Reads(cmds[k]))
  {
    hide Disciplined;
    forall h, a | ps.may(c, h, a) || ps.may(k, h, a)
      ensures ps.may(c, h, a) ==> a.file in Writes(cmds[c]) || (!a.Write? && a.file in Reads(cmds[c]))
      ensures ps.may(k, h, a) ==> a.file in Writes(cmds[k]) || (!a.Write? && a.file in Reads(cmds[k]))
    {
      if ps.may(c, h, a) {
        MayIsListed(cmds, ps, c, h, a);
      }
      if ps.may(k, h, a) {
        MayIsListed(cmds, ps, k, h, a);
      }
    }
  }

  lemma DisciplinedIsOrdered(cmds: seq<Command>, ps: Processes)
    requires Disciplined(cmds, ps)
    ensures Ordered(cmds, ps)
  {
    hide Plan, Disciplined, Disturbs;
    PlanIsSafe(cmds);
    forall c: nat, k: nat, f | c < k < |cmds| && (Disturbs(ps, c, k, f) || Disturbs(ps, k, c, f))
      ensures WaitsFirst(Plan(cmds), c, k)
    {
      if Disturbs(ps, c, k, f) {
        DisturbingIsDependent(cmds, ps, c, k, f);
      } else {
        DisturbingIsDependent(cmds, ps, k, c, f);
      }
      BeforeMembers(cmds, k, c);
    }
  }

  /** At every moment of every run of ordered commands the accesses so far can be reordered into
      script order. */
  lemma OrderedRuns(cmds: seq<Command>, ps: Processes, s0: Store, run: seq<State>, i: nat)
    requires Ordered(cmds, ps) && IsRun(Plan(cmds), ps, s0, run) && i < |run|
    ensures Executes(s0, Block(run[i].trace, 0, |cmds|), run[i].store)
    ensures SameHistories(Block(run[i].trace, 0, |cmds|), run[i].trace)
  {
    hide Plan, Block, History, Ordered;
    InvRun(cmds, ps, s0, run, i);
    var t := run[i].trace;
    forall c: nat
      ensures History(Block(t, 0, |cmds|), c) == History(t, c)
    {
      BlockHistory(t, |cmds|, c);
      if |cmds| <= c && History(t, c) != [] {
        HistoryMembers(t, c, History(t, c)[0]);
        assert false;
      }
    }
  }

  /** Every complete run of ordered commands has the outcome of running them one after the other. */
  lemma OrderedScript(cmds: seq<Command>, ps: Processes, s0: Store, run: seq<State>) returns (script: seq<State>)
    requires Ordered(cmds, ps) && IsRun(Plan(cmds), ps, s0, run)
    requires Complete(Plan(cmds), run[|run| - 1])
    ensures IsRun(SequentialPlan(|cmds|), ps, s0, script)
    ensures Complete(SequentialPlan(|cmds|), script[|script| - 1])
    ensures script[|script| - 1].store == run[|run| - 1].store
    ensures SameHistories(script[|script| - 1].trace, run[|run| - 1].trace)
  {
    hide Plan, Block, History, Ordered;
    var last := run[|run| - 1];
    OrderedRuns(cmds, ps, s0, run, |run| - 1);
    InvRun(cmds, ps, s0, run, |run| - 1);
    ForkedExactlyOnce(cmds);
    forall c: nat | c < |cmds|
      ensures Finished(ps, last.trace, c)
    {
      ForksOfMembers(Plan(cmds), c);
      assert Plan(cmds)[..last.pc] == Plan(cmds);
    }
    script := PlayScript(|cmds|, ps, s0, last.trace, |cmds|, last.store);
    SequentialLength(|cmds|);
  }

  /** At every moment of every time-travel run the accesses so far can be reordered into
      script order: the same reads, the same store, the same history of each command. */
  lemma Serializable(cmds: seq<Command>, ps: Processes, s0: Store, run: seq<State>, i: nat)
    requires Disciplined(cmds, ps) && IsRun(Plan(cmds), ps, s0, run) && i < |run|
    ensures Executes(s0, Block(run[i].trace, 0, |cmds|), run[i].store)
    ensures SameHistories(Block(run[i].trace, 0, |cmds|), run[i].trace)
  {
    hide Plan, Ordered, SameHistories, Executes, Block;
    DisciplinedIsOrdered(cmds, ps);
    OrderedRuns(cmds, ps, s0, run, i);
  }

  /** Every complete time-travel run has the outcome of a complete run of the same processes one
      after the other: the same final files, and every command did and saw the same. */
  lemma SameAsSequential(cmds: seq<Command>, ps: Processes, s0: Store, run: seq<State>) returns (script: seq<State>)
    requires Disciplined(cmds, ps) && IsRun(Plan(cmds), ps, s0, run)
    requires Complete(Plan(cmds), run[|run| - 1])
    ensures IsRun(SequentialPlan(|cmds|), ps, s0, script)
    ensures Complete(SequentialPlan(|cmds|), script[|script| - 1])
    ensures script[|script| - 1].store == run[|run| - 1].store
    ensures SameHistories(script[|script| - 1].trace, run[|run| - 1].trace)
  {
    hide Plan, Ordered, SameHistories;
    DisciplinedIsOrdered(cmds, ps);
    script := OrderedScript(cmds, ps, s0, run);
  }

  lemma SequentialLength(n: nat)
    ensures |SequentialPlan(n)| == 2 * n
  {
    if n != 0 {
      SequentialPlanAt(n, 0);
    }
  }

  lemma {:induction false} ForksOfMembers(plan: seq<Action>, c: nat)
    ensures c in ForksOf(plan) <==> Fork(c) in plan
    decreases |plan|
  {
    if plan != [] {
      ForksOfMembers(plan[..|plan| - 1], c);
      assert plan == plan[..|plan| - 1] + [plan[|plan| - 1]];
    }
  }

  /** No run gets stuck in the parent: where it cannot step, it is waiting for a command
      that has been forked and is still running. */
  lemma ParentProgress(cmds: seq<Command>, ps: Processes, s0: Store, run: seq<State>, i: nat)
    requires Disciplined(cmds, ps) && IsRun(Plan(cmds), ps, s0, run) && i < |run|
    requires run[i].pc < |Plan(cmds)|
    ensures (exists s' :: ForkStep(Plan(cmds), run[i], s') || WaitStep(Plan(cmds), run[i], s')) ||
            Plan(cmds)[run[i].pc] in set c | c in run[i].forked - run[i].finished :: Wait(c)
  {
    hide Plan, Ordered;
    DisciplinedIsOrdered(cmds, ps);
    var s, plan := run[i], Plan(cmds);
    InvRun(cmds, ps, s0, run, i);
    PlanIsSafe(cmds);
    var a := plan[s.pc];
    if a.Fork? {
      assert ForkStep(plan, s, s.(pc := s.pc + 1, forked := s.forked + {a.cmd}));
    } else if a.cmd in s.finished {
      assert WaitStep(plan, s, s.(pc := s.pc + 1));
    } else {
      var p :| 0 <= p < s.pc && plan[..s.pc][p] == Fork(a.cmd);
    }
  }
}
