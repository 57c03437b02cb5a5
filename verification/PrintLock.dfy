/** The locked print loop of the SchedOS applications (weensyos2/schedos-1.c), which may be
    preempted at any instruction, with atomic_swap (weensyos2/x86sync.h) as one step. The lock is
    zero to begin with. */
module PrintLock {

  const RUNCOUNT := 320
  const CELLS := 2000

  /** Where a process is in its loop. Between the two swaps the cursor is loaded, and then the
      character and the new cursor are stored in either order. */
  datatype Place =
    | Trying
    | Inside
    | Loaded(cell: nat, put: bool, moved: bool)
    | Unlocked
    | Exited

  datatype Process = Process(place: Place, i: nat)

  /** Iteration i of process p has written to a cell. */
  datatype Print = Print(p: nat, i: nat, cell: nat)

  datatype Machine = Machine(lock: int, cursor: nat, screen: seq<int>, procs: seq<Process>, prints: seq<Print>)

  /** The characters of the four applications with their colours. */
  const PRINTCHARS := [0x0C31, 0x0A32, 0x0933, 0x0E34]

  /** The character that a process prints. A fifth process and further ones get some other characters. */
  function Char(p: nat): int {
    if p < 4 then PRINTCHARS[p] else 0x10000 + p
  }

  function Start(n: nat, screen: seq<int>): Machine {
    Machine(0, 0, screen, seq(n, _ => Process(Trying, 0)), [])
  }

  predicate Critical(x: Process) {
    x.place.Inside? || x.place.Loaded?
  }

  function At(m: Machine, p: nat, place: Place): Machine
    requires p < |m.procs|
  {
    m.(procs := m.procs[p := m.procs[p].(place := place)])
  }

  /** One instruction of process p; cursorFirst says in which order the two stores are done. */
  function Step(m: Machine, p: nat, cursorFirst: bool): Machine
    requires p < |m.procs|
  {
    var x := m.procs[p];
    match x.place
    case Trying => At(m, p, if m.lock == 0 then Inside else Trying).(lock := 1)
    case Inside => At(m, p, Loaded(m.cursor, false, false))
    case Loaded(cell, put, moved) =>
      if put && moved then At(m, p, Unlocked).(lock := 0)
      else if put || (cursorFirst && !moved) then At(m, p, Loaded(cell, put, true)).(cursor := cell + 1)
      else
        At(m, p, Loaded(cell, true, moved)).(screen := if cell < |m.screen| then m.screen[cell := Char(p)] else m.screen,
                                             prints := m.prints + [Print(p, x.i, cell)])
    case Unlocked => m.(procs := m.procs[p := Process(if x.i + 1 < RUNCOUNT then Trying else Exited, x.i + 1)])
    case Exited => m
  }

  // ---------------------------------------------------------------- the invariant

  /** The number of iterations of a process that have written their character. */
  function Puts(x: Process): nat {
    x.i + (if x.place.Unlocked? || (x.place.Loaded? && x.place.put) then 1 else 0)
  }

  function SumPuts(procs: seq<Process>): nat {
    if procs == [] then 0 else SumPuts(procs[..|procs| - 1]) + Puts(procs[|procs| - 1])
  }

  /** At most one process is between the two swaps, and then the lock is set. */
  ghost predicate Exclusive(m: Machine) {
    && (forall p, q :: 0 <= p < |m.procs| && 0 <= q < |m.procs| && Critical(m.procs[p]) && Critical(m.procs[q]) ==> p == q)
    && (m.lock == 0 <==> forall p :: 0 <= p < |m.procs| ==> !Critical(m.procs[p]))
  }

  /** How far the cursor is behind the characters, while somebody is between the two swaps. */
  function Lag(x: Process): int {
    if !x.place.Loaded? then 0
    else (if x.place.put then 1 else 0) - (if x.place.moved then 1 else 0)
  }

  ghost predicate CursorOk(m: Machine) {
    && (m.lock == 0 ==> |m.prints| == m.cursor)
    && (forall p :: 0 <= p < |m.procs| && Critical(m.procs[p]) ==> |m.prints| == m.cursor + Lag(m.procs[p]))
    && (forall p :: 0 <= p < |m.procs| && m.procs[p].place.Loaded? ==>
          m.procs[p].place.cell == if m.procs[p].place.moved then m.cursor - 1 else m.cursor)
  }

  /** The k-th character went to cell k, and no iteration has printed twice. */
  ghost predicate PrintsOk(m: Machine) {
    && (forall k :: 0 <= k < |m.prints| ==> m.prints[k].cell == k && m.prints[k].p < |m.procs| && m.prints[k].i < Puts(m.procs[m.prints[k].p]))
    && (forall j, k :: 0 <= j < k < |m.prints| ==> (m.prints[j].p, m.prints[j].i) != (m.prints[k].p, m.prints[k].i))
    && (forall k :: 0 <= k < |m.prints| && k < |m.screen| ==> m.screen[k] == Char(m.prints[k].p))
    && |m.prints| == SumPuts(m.procs)
  }

  ghost predicate CountsOk(m: Machine) {
    forall p :: 0 <= p < |m.procs| ==>
      m.procs[p].i <= RUNCOUNT && (m.procs[p].place.Exited? <==> m.procs[p].i == RUNCOUNT)
  }

  ghost predicate Inv(m: Machine) {
    Exclusive(m) && CursorOk(m) && PrintsOk(m) && CountsOk(m)
  }

  lemma {:induction false} SumAfter(procs: seq<Process>, p: nat, x: Process)
    requires p < |procs|
    ensures SumPuts(procs[p := x]) == SumPuts(procs) - Puts(procs[p]) + Puts(x)
  {
    var n := |procs| - 1;
    if p < n {
      SumAfter(procs[..n], p, x);
      assert procs[p := x][..n] == procs[..n][p := x];
    } else {
      assert procs[p := x][..n] == procs[..n];
    }
  }

  lemma {:induction false} SumBound(procs: seq<Process>)
    requires forall p :: 0 <= p < |procs| ==> Puts(procs[p]) <= RUNCOUNT
    ensures SumPuts(procs) <= RUNCOUNT * |procs|
  {
    if procs != [] {
      SumBound(procs[..|procs| - 1]);
    }
  }

  lemma {:induction false} StartInv(n: nat, screen: seq<int>)
    ensures Inv(Start(n, screen))
  {
    NoPuts(Start(n, screen).procs);
  }

  lemma {:induction false} NoPuts(procs: seq<Process>)
    requires forall p :: 0 <= p < |procs| ==> procs[p] == Process(Trying, 0)
    ensures SumPuts(procs) == 0
  {
    if procs != [] {
      NoPuts(procs[..|procs| - 1]);
    }
  }

  lemma StepExclusive(m: Machine, p: nat, cursorFirst: bool)
    requires Exclusive(m) && p < |m.procs|
    ensures Exclusive(Step(m, p, cursorFirst))
  {
    var m' := Step(m, p, cursorFirst);
    assert forall q :: 0 <= q < |m.procs| && q != p ==> m'.procs[q] == m.procs[q];
    if m.procs[p].place.Loaded? || m.procs[p].place.Inside? {
      assert Critical(m.procs[p]);
      assert Critical(m'.procs[p]) || m'.lock == 0;
    } else if m.procs[p].place.Trying? {
      assert m.lock == 0 ==> Critical(m'.procs[p]);
    }
  }

  lemma StepCursor(m: Machine, p: nat, cursorFirst: bool)
    requires Exclusive(m) && CursorOk(m) && p < |m.procs|
    ensures CursorOk(Step(m, p, cursorFirst))
  {
    var m' := Step(m, p, cursorFirst);
    assert forall q :: 0 <= q < |m.procs| && q != p ==> m'.procs[q] == m.procs[q];
  }

  /** Puts of the stepping process, and which cell it writes to. */
  lemma StepPuts(m: Machine, p: nat, cursorFirst: bool)
    requires CursorOk(m) && p < |m.procs|
    ensures Step(m, p, cursorFirst).procs == m.procs[p := Step(m, p, cursorFirst).procs[p]]
    ensures Puts(Step(m, p, cursorFirst).procs[p]) == Puts(m.procs[p]) + |Step(m, p, cursorFirst).prints| - |m.prints|
    ensures Step(m, p, cursorFirst).prints == m.prints || Step(m, p, cursorFirst).prints == m.prints + [Print(p, Puts(m.procs[p]), |m.prints|)]
    ensures Step(m, p, cursorFirst).prints == m.prints ==> Step(m, p, cursorFirst).screen == m.screen
    ensures Step(m, p, cursorFirst).prints != m.prints && |m.prints| < |m.screen| ==> Step(m, p, cursorFirst).screen == m.screen[|m.prints| := Char(p)]
    ensures Step(m, p, cursorFirst).prints != m.prints && |m.prints| >= |m.screen| ==> Step(m, p, cursorFirst).screen == m.screen
  {
    if m.procs[p].place.Loaded? {
      assert Critical(m.procs[p]);
    }
  }

  lemma StepPrints(m: Machine, p: nat, cursorFirst: bool)
    requires CursorOk(m) && PrintsOk(m) && p < |m.procs|
    ensures PrintsOk(Step(m, p, cursorFirst))
  {
    var m' := Step(m, p, cursorFirst);
    SumAfter(m.procs, p, m'.procs[p]);
    StepPuts(m, p, cursorFirst);
    hide SumPuts, CursorOk, Step, Puts, Char;
  }

  lemma StepCounts(m: Machine, p: nat, cursorFirst: bool)
    requires CountsOk(m) && p < |m.procs|
    ensures CountsOk(Step(m, p, cursorFirst))
  {
    var m' := Step(m, p, cursorFirst);
    assert forall q :: 0 <= q < |m.procs| && q != p ==> m'.procs[q] == m.procs[q];
  }

  lemma StepInv(m: Machine, p: nat, cursorFirst: bool)
    requires Inv(m) && p < |m.procs|
    ensures Inv(Step(m, p, cursorFirst))
  {
    StepExclusive(m, p, cursorFirst);
    StepCursor(m, p, cursorFirst);
    StepPrints(m, p, cursorFirst);
    StepCounts(m, p, cursorFirst);
    hide Exclusive, CursorOk, PrintsOk, CountsOk, Step;
  }

  // ---------------------------------------------------------------- runs

  /** A run of n processes: at every instruction any process may be the one that goes on. */
  ghost predicate IsRun(n: nat, who: seq<(nat, bool)>, ms: seq<Machine>) {
    && |ms| == |who| + 1 && |ms[0].screen| == CELLS && ms[0] == Start(n, ms[0].screen)
    && forall k :: 0 <= k < |who| ==> who[k].0 < |ms[k].procs| && ms[k + 1] == Step(ms[k], who[k].0, who[k].1)
  }

  lemma StepSizes(m: Machine, p: nat, cursorFirst: bool)
    requires p < |m.procs|
    ensures |Step(m, p, cursorFirst).procs| == |m.procs| && |Step(m, p, cursorFirst).screen| == |m.screen|
  {
  }

  lemma {:induction false} RunInv(n: nat, who: seq<(nat, bool)>, ms: seq<Machine>, t: nat)
    requires IsRun(n, who, ms) && t < |ms|
    ensures Inv(ms[t]) && |ms[t].procs| == n && |ms[t].screen| == CELLS
  {
    hide Inv, Step;
    if t == 0 {
      StartInv(n, ms[0].screen);
    } else {
      RunInv(n, who, ms, t - 1);
      assert ms[t - 1 + 1] == Step(ms[t - 1], who[t - 1].0, who[t - 1].1);
      StepInv(ms[t - 1], who[t - 1].0, who[t - 1].1);
      StepSizes(ms[t - 1], who[t - 1].0, who[t - 1].1);
    }
  }

  /** No print is lost: at every instruction of every run at most one process is between the two
      swaps, and while none is, the cells up to the cursor are exactly those that have been written,
      each by one iteration and with its character, one for each iteration so far. */
  lemma NoLostPrints(n: nat, who: seq<(nat, bool)>, ms: seq<Machine>, t: nat)
    requires IsRun(n, who, ms) && t < |ms|
    ensures Exclusive(ms[t]) && |ms[t].screen| == CELLS
    ensures ms[t].lock == 0 ==> ms[t].cursor == |ms[t].prints| == SumPuts(ms[t].procs)
    ensures forall k :: 0 <= k < |ms[t].prints| && k < CELLS ==> ms[t].prints[k].cell == k && ms[t].screen[k] == Char(ms[t].prints[k].p)
    ensures forall j, k :: 0 <= j < k < |ms[t].prints| ==> (ms[t].prints[j].p, ms[t].prints[j].i) != (ms[t].prints[k].p, ms[t].prints[k].i)
  {
    RunInv(n, who, ms, t);
    hide IsRun, CountsOk, SumPuts;
  }

  lemma PutsBounded(x: Process)
    requires x.i <= RUNCOUNT && (x.place.Exited? <==> x.i == RUNCOUNT)
    ensures Puts(x) <= RUNCOUNT
  {
  }

  /** Four processes stay within the screen. */
  lemma WithinScreen(who: seq<(nat, bool)>, ms: seq<Machine>, t: nat)
    requires IsRun(4, who, ms) && t < |ms|
    ensures |ms[t].prints| <= 4 * 320 && ms[t].cursor <= 4 * 320 && |ms[t].screen| == 2000
  {
    RunInv(4, who, ms, t);
    hide IsRun, PrintsOk, SumPuts;
    var m := ms[t];
    forall p | 0 <= p < |m.procs|
      ensures Puts(m.procs[p]) <= RUNCOUNT
    {
      PutsBounded(m.procs[p]);
    }
    SumBound(m.procs);
    assert |m.prints| == SumPuts(m.procs) by { PrintsCount(m); }
    if m.lock != 0 {
      var p :| 0 <= p < |m.procs| && Critical(m.procs[p]);
      assert |m.prints| == m.cursor + Lag(m.procs[p]);
      if Lag(m.procs[p]) < 0 {
        MoreToCome(m.procs, p);
      }
    }
  }

  /** A process that has moved the cursor but not written yet has an iteration to finish. */
  lemma MoreToCome(procs: seq<Process>, p: nat)
    requires p < |procs| && Lag(procs[p]) < 0 && procs[p].i < RUNCOUNT
    requires forall q :: 0 <= q < |procs| ==> Puts(procs[q]) <= RUNCOUNT
    ensures SumPuts(procs) + 1 <= RUNCOUNT * |procs|
  {
    var done := procs[p].(place := Unlocked);
    SumAfter(procs, p, done);
    SumBound(procs[p := done]);
  }

  lemma PrintsCount(m: Machine)
    requires PrintsOk(m)
    ensures |m.prints| == SumPuts(m.procs)
  {
  }

  lemma {:induction false} AllDone(procs: seq<Process>)
    requires forall p :: 0 <= p < |procs| ==> procs[p].place.Exited? && procs[p].i == RUNCOUNT
    ensures SumPuts(procs) == RUNCOUNT * |procs|
  {
    if procs != [] {
      AllDone(procs[..|procs| - 1]);
    }
  }

  /** When all processes have exited the cursor is behind exactly as many characters as there were
      iterations. */
  lemma FinalCursor(n: nat, who: seq<(nat, bool)>, ms: seq<Machine>, t: nat)
    requires IsRun(n, who, ms) && t < |ms| && forall p :: 0 <= p < |ms[t].procs| ==> ms[t].procs[p].place.Exited?
    ensures ms[t].lock == 0 && ms[t].cursor == n * 320 == |ms[t].prints|
  {
    RunInv(n, who, ms, t);
    AllDone(ms[t].procs);
    hide IsRun, SumPuts;
  }

  // ---------------------------------------------------------------- what the screen shows at the end

  /** How often a process has printed. */
  function Written(prints: seq<Print>, p: nat): nat {
    if prints == [] then 0 else Written(prints[..|prints| - 1], p) + (if prints[|prints| - 1].p == p then 1 else 0)
  }

  lemma StepWritten(m: Machine, q: nat, cursorFirst: bool, p: nat)
    requires CursorOk(m) && q < |m.procs| && p < |m.procs| && Written(m.prints, p) == Puts(m.procs[p])
    ensures Written(Step(m, q, cursorFirst).prints, p) == Puts(Step(m, q, cursorFirst).procs[p])
  {
    StepPuts(m, q, cursorFirst);
    hide Step, Puts, CursorOk;
    var prints := Step(m, q, cursorFirst).prints;
    if prints != m.prints {
      assert prints[..|m.prints|] == m.prints;
    }
  }

  lemma CursorFine(m: Machine)
    requires Inv(m)
    ensures CursorOk(m)
  {
  }

  lemma {:induction false} RunWritten(n: nat, who: seq<(nat, bool)>, ms: seq<Machine>, t: nat, p: nat)
    requires IsRun(n, who, ms) && t < |ms| && p < n
    ensures |ms[t].procs| == n && Written(ms[t].prints, p) == Puts(ms[t].procs[p])
  {
    hide Inv, Step, Puts, CursorOk, Written;
    RunInv(n, who, ms, t);
    if t == 0 {
      NothingWritten(n, ms[0].screen, p);
    } else {
      RunWritten(n, who, ms, t - 1, p);
      RunInv(n, who, ms, t - 1);
      CursorFine(ms[t - 1]);
      assert ms[t - 1 + 1] == Step(ms[t - 1], who[t - 1].0, who[t - 1].1);
      StepWritten(ms[t - 1], who[t - 1].0, who[t - 1].1, p);
    }
  }

  lemma NothingWritten(n: nat, screen: seq<int>, p: nat)
    requires p < n
    ensures Written(Start(n, screen).prints, p) == Puts(Start(n, screen).procs[p])
  {
  }

  lemma {:induction false} ShownAsWritten(prints: seq<Print>, screen: seq<int>, p: nat)
    requires |screen| == |prints| && p < 4 && forall k :: 0 <= k < |prints| ==> prints[k].p < 4 && screen[k] == Char(prints[k].p)
    ensures multiset(screen)[Char(p)] == Written(prints, p)
    decreases |prints|
  {
    if prints != [] {
      var n := |prints| - 1;
      ShownAsWritten(prints[..n], screen[..n], p);
      assert screen == screen[..n] + [screen[n]];
    }
  }

  /** When the four applications have exited, each has its character on the screen 320 times, one behind the
      other without a gap, whatever the order. */
  lemma EachPrinted(who: seq<(nat, bool)>, ms: seq<Machine>, t: nat)
    requires IsRun(4, who, ms) && t < |ms| && forall p :: 0 <= p < |ms[t].procs| ==> ms[t].procs[p].place.Exited?
    ensures |ms[t].screen| == 2000
    ensures var shown := multiset(ms[t].screen[..1280]);
            shown['1' as int + 0x0C00] == 320 && shown['2' as int + 0x0A00] == 320 &&
            shown['3' as int + 0x0900] == 320 && shown['4' as int + 0x0E00] == 320
  {
    var m := ms[t];
    FinalCursor(4, who, ms, t);
    RunInv(4, who, ms, t);
    NoLostPrints(4, who, ms, t);
    var shown := m.screen[..1280];
    hide Exclusive, CursorOk;
    forall p | 0 <= p < 4
      ensures multiset(shown)[Char(p)] == 320
    {
      RunWritten(4, who, ms, t, p);
      ShownAsWritten(m.prints, shown, p);
    }
    assert Char(0) == 0x0C31 && Char(1) == 0x0A32 && Char(2) == 0x0933 && Char(3) == 0x0E34;
  }

  // ---------------------------------------------------------------- nobody is stuck

  predicate AllExited(m: Machine) {
    forall p :: 0 <= p < |m.procs| ==> m.procs[p].place.Exited?
  }

  /** What a process still has to do. */
  function Left(x: Process): nat {
    if x.place.Exited? || x.i >= RUNCOUNT then 0
    else
      10 * (RUNCOUNT - x.i) - (match x.place
                               case Inside => 1
                               case Loaded(_, put, moved) => 2 + (if put then 1 else 0) + (if moved then 1 else 0)
                               case Unlocked => 5
                               case _ => 0)
  }

  function AllLeft(procs: seq<Process>): nat {
    if procs == [] then 0 else AllLeft(procs[..|procs| - 1]) + Left(procs[|procs| - 1])
  }

  lemma {:induction false} LeftAfter(procs: seq<Process>, p: nat, x: Process)
    requires p < |procs|
    ensures AllLeft(procs[p := x]) == AllLeft(procs) - Left(procs[p]) + Left(x)
  {
    var n := |procs| - 1;
    if p < n {
      LeftAfter(procs[..n], p, x);
      assert procs[p := x][..n] == procs[..n][p := x];
    } else {
      assert procs[p := x][..n] == procs[..n];
    }
  }

  lemma GetsOn(m: Machine, p: nat, cursorFirst: bool)
    requires p < |m.procs| && !m.procs[p].place.Exited? && m.procs[p].i < RUNCOUNT && (m.lock == 0 || !m.procs[p].place.Trying?)
    ensures AllLeft(Step(m, p, cursorFirst).procs) < AllLeft(m.procs)
  {
    var x := Step(m, p, cursorFirst).procs[p];
    assert Step(m, p, cursorFirst).procs == m.procs[p := x];
    assert Left(x) < Left(m.procs[p]);
    hide AllLeft, Step, Left;
    LeftAfter(m.procs, p, x);
  }

  /** Unless all have exited some process gets on: the one between the two swaps, or any other one if none is. */
  lemma SomeGetsOn(m: Machine) returns (p: nat)
    requires Inv(m) && !AllExited(m)
    ensures p < |m.procs| && AllLeft(Step(m, p, false).procs) < AllLeft(m.procs)
  {
    hide PrintsOk, CursorOk, Step, AllLeft;
    if m.lock == 0 {
      p :| 0 <= p < |m.procs| && !m.procs[p].place.Exited?;
    } else {
      p :| 0 <= p < |m.procs| && Critical(m.procs[p]);
    }
    GetsOn(m, p, false);
  }

  ghost predicate Continues(m: Machine, who: seq<(nat, bool)>, m': Machine)
    decreases |who|
  {
    if who == [] then m' == m else who[0].0 < |m.procs| && Continues(Step(m, who[0].0, who[0].1), who[1..], m')
  }

  /** From every state of every run all processes can still come to their end. */
  lemma {:induction false} CanFinish(m: Machine) returns (who: seq<(nat, bool)>, m': Machine)
    requires Inv(m)
    ensures Continues(m, who, m') && AllExited(m')
    decreases AllLeft(m.procs)
  {
    hide Inv, Step, AllExited;
    if AllExited(m) {
      return [], m;
    }
    var p := SomeGetsOn(m);
    StepInv(m, p, false);
    who, m' := CanFinish(Step(m, p, false));
    assert ([(p, false)] + who)[1..] == who;
    who := [(p, false)] + who;
  }

  lemma NeverStuck(n: nat, who: seq<(nat, bool)>, ms: seq<Machine>, t: nat) returns (more: seq<(nat, bool)>, m': Machine)
    requires IsRun(n, who, ms) && t < |ms|
    ensures Continues(ms[t], more, m') && AllExited(m')
  {
    RunInv(n, who, ms, t);
    more, m' := CanFinish(ms[t]);
  }
}
