/** The SchedOS kernel's process table and schedulers (weensyos2/schedos-kern.c: start, interrupt,
    schedule). run never returns, so that the choice of a process ends the function. */
module Scheduler {

  datatype State = Empty | Runnable | Blocked | Zombie
  datatype Process = Process(pid: nat, state: State, priority: int, exitStatus: int)

  type Table = seq<Process>

  /** Slot 0 is never used; processes know their slots. */
  predicate ValidTable(t: Table) {
    |t| >= 2 && t[0].state == Empty && forall i :: 0 <= i < |t| ==> t[i].pid == i
  }

  predicate Runs(t: Table, i: nat) {
    i < |t| && t[i].state == Runnable
  }

  ghost predicate SomeRuns(t: Table) {
    exists i: nat :: Runs(t, i)
  }

  /** The slot k places behind a slot, going round. */
  function Around(n: nat, from: nat, k: nat): nat {
    if from + k < n then from + k else if from + k < 2 * n then from + k - n else from
  }

  // ---------------------------------------------------------------- what the schedulers choose

  /** The first runnable process behind a slot, going round; the slot itself comes last. */
  ghost predicate NextRunnable(t: Table, from: nat, to: nat) {
    |t| > 0 && exists k: nat :: 1 <= k <= |t| && to == Around(|t|, from, k) && Runs(t, to) && forall j: nat :: 1 <= j < k ==> !Runs(t, Around(|t|, from, j))
  }

  /** The lowest runnable process. */
  predicate Lowest(t: Table, to: nat) {
    Runs(t, to) && forall j: nat :: j < to ==> !Runs(t, j)
  }

  /** A runnable process of the smallest priority value. */
  ghost predicate MinPriority(t: Table, to: nat) {
    Runs(t, to) && forall j: nat :: Runs(t, j) ==> t[to].priority <= t[j].priority
  }

  /** The first process behind a slot, going round, that runs with a given priority. */
  ghost predicate NextEqual(t: Table, from: nat, to: nat, priority: int) {
    |t| > 0 && RunsWith(t, to, priority) &&
    exists k: nat :: 1 <= k <= |t| && to == Around(|t|, from, k) && forall j: nat :: 1 <= j < k ==> !RunsWith(t, Around(|t|, from, j), priority)
  }

  predicate RunsWith(t: Table, i: nat, priority: int) {
    Runs(t, i) && t[i].priority == priority
  }

  /** Algorithm 2 when it comes to slot pid: a runnable process of smaller priority value than the
      one of this slot, the lowest of the smallest; else the next of the same value; else the
      process in the next slot; else the search goes on from there. */
  ghost predicate Chooses(t: Table, pid: nat, to: nat) {
    |t| > 0 && pid < |t| && (
      if exists j: nat :: Runs(t, j) && t[j].priority < t[pid].priority then
        MinPriority(t, to) && forall j: nat :: j < to && Runs(t, j) ==> t[j].priority > t[to].priority
      else if exists j: nat :: Runs(t, j) && t[j].priority == t[pid].priority then NextEqual(t, pid, to, t[pid].priority)
      else NextRunnable(t, pid, to))
  }

  /** Some process runs with no greater priority value than the one of this slot. */
  ghost predicate Decides(t: Table, pid: nat) {
    pid < |t| && exists j: nat :: Runs(t, j) && t[j].priority <= t[pid].priority
  }

  /** None of the k slots behind a slot is runnable. */
  ghost predicate Idle(t: Table, from: nat, k: nat) {
    forall j: nat :: 1 <= j <= k ==> !Runs(t, Around(|t|, from, j))
  }

  /** Algorithm 2 goes k slots on, over idle slots none of which decides, before it chooses. */
  ghost predicate EndsAt(t: Table, from: nat, k: nat, to: nat) {
    && k < |t| && Idle(t, from, k) && (forall j: nat :: j < k ==> !Decides(t, Around(|t|, from, j)))
    && if Decides(t, Around(|t|, from, k)) then Chooses(t, Around(|t|, from, k), to)
       else to == Around(|t|, from, k + 1) && Runs(t, to)
  }

  /** What algorithm 2 ends with when it starts from a slot. */
  ghost predicate Ends(t: Table, from: nat, to: nat) {
    exists k: nat :: EndsAt(t, from, k, to)
  }

  /** A slot from this one up to the next runnable process decides. */
  ghost predicate SomeDecides(t: Table, from: nat) {
    exists k: nat :: k < |t| && Idle(t, from, k) && Decides(t, Around(|t|, from, k))
  }

  // ---------------------------------------------------------------- the kernel

  /** The table of processes after start. */
  const STARTED: Table := [Process(0, Empty, 0, 0), Process(1, Runnable, 3, 0), Process(2, Runnable, 2, 0),
                           Process(3, Runnable, 1, 0), Process(4, Runnable, 3, 0)]

  class Kernel {
    var procs: Table
    var current: nat

    ghost predicate Valid()
      reads this
    {
      ValidTable(procs) && current < |procs|
    }

    /** start: four processes with their priorities; the first one runs. */
    constructor ()
      ensures Valid() && procs == STARTED && current == 1
      ensures |procs| == 5 && (forall i :: 1 <= i < 5 ==> procs[i].state == Runnable)
      ensures procs[1].priority == 3 && procs[2].priority == 2 && procs[3].priority == 1 && procs[4].priority == 3
    {
      var table: Table := [];
      var i := 0;
      while i < 5
        invariant i == |table| <= 5 && forall k :: 0 <= k < i ==> table[k] == Process(k, Empty, 0, 0)
      {
        table := table + [Process(i, Empty, 0, 0)];
        i := i + 1;
      }
      i := 1;
      while i < 5
        invariant 1 <= i <= 5 == |table|
        invariant forall k :: 0 <= k < 5 ==> table[k] == Process(k, if 1 <= k < i then Runnable else Empty, 0, 0)
      {
        table := table[i := table[i].(state := Runnable)];
        i := i + 1;
      }
      table := table[1 := table[1].(priority := 3)][2 := table[2].(priority := 2)];
      table := table[3 := table[3].(priority := 1)][4 := table[4].(priority := 3)];
      procs, current := table, 1;
    }

    method Run(pid: nat)
      requires Valid() && Runs(procs, pid)
      modifies this`current
      ensures Valid() && current == pid
    {
      current := pid;
    }

    /** Algorithm 0. */
    method RoundRobin()
      requires Valid() && SomeRuns(procs)
      modifies this`current
      ensures Valid() && NextRunnable(procs, old(current), current)
    {
      current := Search(current);
    }

    /** The loop of algorithms 0 and 1: the next runnable process, which it reaches in at most one
        round. */
    method Search(from: nat) returns (pid: nat)
      requires Valid() && SomeRuns(procs) && from < |procs|
      ensures pid < |procs| && NextRunnable(procs, from, pid)
    {
      ghost var k := 1;
      AroundIsMod(|procs|, from, 1);
      pid := (from + 1) % |procs|;
      while procs[pid].state != Runnable
        invariant 1 <= k <= |procs| && pid == Around(|procs|, from, k) && pid < |procs|
        invariant forall j: nat :: 1 <= j < k ==> !Runs(procs, Around(|procs|, from, j))
        decreases |procs| - k
      {
        if k == |procs| {
          AllSeen(procs, from);
        }
        NextAround(|procs|, from, k);
        pid := (pid + 1) % |procs|;
        k := k + 1;
      }
    }

    /** Algorithm 1 starts its search behind slot 0. */
    method LowestFirst()
      requires Valid() && SomeRuns(procs)
      modifies this`current
      ensures Valid() && Lowest(procs, current)
    {
      current := Search(0);
      FromZero(procs, current);
    }

    /** The first loop of algorithm 2. */
    method FindBetter(pid: nat) returns (found: nat, min: int)
      requires Valid() && pid < |procs|
      ensures found == 0 ==> min == procs[pid].priority && forall j: nat :: Runs(procs, j) ==> procs[j].priority >= min
      ensures found != 0 ==> Runs(procs, found) && MinPriority(procs, found) && procs[found].priority < procs[pid].priority
      ensures found != 0 ==> forall j: nat :: j < found && Runs(procs, j) ==> procs[j].priority > procs[found].priority
    {
      found, min := 0, procs[pid].priority;
      var i := 0;
      while i < |procs|
        invariant i <= |procs|
        invariant found == 0 ==> min == procs[pid].priority
        invariant found != 0 ==> Runs(procs, found) && min == procs[found].priority < procs[pid].priority
        invariant found != 0 ==> found < i
        invariant forall j: nat :: j < i && Runs(procs, j) ==> procs[j].priority >= min
        invariant forall j: nat :: j < found && Runs(procs, j) ==> procs[j].priority > min
      {
        if procs[i].state == Runnable && procs[i].priority < min {
          min, found := procs[i].priority, i;
        }
        i := i + 1;
      }
    }

    /** The second loop of algorithm 2. */
    method FindEqual(pid: nat, min: int) returns (found: bool, to: nat)
      requires Valid() && pid < |procs|
      ensures found ==> Runs(procs, to) && NextEqual(procs, pid, to, min)
      ensures !found ==> forall j: nat :: !(Runs(procs, j) && procs[j].priority == min)
    {
      to := 0;
      var i := 1;
      while i <= |procs|
        invariant 1 <= i <= |procs| + 1
        invariant forall j: nat :: 1 <= j < i ==> !RunsWith(procs, Around(|procs|, pid, j), min)
      {
        AroundIsMod(|procs|, pid, i);
        to := (pid + i) % |procs|;
        if procs[to].state == Runnable && procs[to].priority == min {
          assert to == Around(|procs|, pid, i);
          return true, to;
        }
        i := i + 1;
      }
      forall j: nat | Runs(procs, j)
        ensures procs[j].priority != min
      {
        var k := AroundTo(|procs|, pid, j);
      }
      found := false;
    }

    /** Algorithm 2: its loop comes to an end whenever some process is runnable. */
    method Priorities()
      requires Valid() && SomeRuns(procs)
      modifies this`current
      ensures Valid() && Runs(procs, current) && Ends(procs, old(current), current)
    {
      hide Chooses, NextEqual, MinPriority, NextRunnable, Decides;
      var pid := current;
      ghost var k := 0;
      while true
        invariant Valid() && current == old(current) && k < |procs| && pid == Around(|procs|, old(current), k) && pid < |procs|
        invariant Idle(procs, old(current), k)
        invariant forall j: nat :: j < k ==> !Decides(procs, Around(|procs|, old(current), j))
        decreases |procs| - k
      {
        AroundIsMod(|procs|, pid, 1);
        var found, min := FindBetter(pid);
        if found != 0 {
          BetterChosen(procs, pid, found);
          assert EndsAt(procs, old(current), k, found);
          Run(found);
          return;
        }
        var equal, to := FindEqual(pid, min);
        if equal {
          EqualChosen(procs, pid, to);
          assert EndsAt(procs, old(current), k, to);
          Run(to);
          return;
        }
        NextAround(|procs|, old(current), k);
        NoneDecides(procs, pid);
        if procs[(pid + 1) % |procs|].state == Runnable {
          assert EndsAt(procs, old(current), k, (pid + 1) % |procs|);
          Run((pid + 1) % |procs|);
          return;
        }
        if k == |procs| - 1 {
          AllSeen(procs, old(current));
        }
        pid := (pid + 1) % |procs|;
        k := k + 1;
      }
    }

    /** schedule. */
    method Schedule(algorithm: nat)
      requires Valid() && SomeRuns(procs) && algorithm < 3
      modifies this`current
      ensures Valid() && Runs(procs, current)
      ensures algorithm == 0 ==> NextRunnable(procs, old(current), current)
      ensures algorithm == 1 ==> Lowest(procs, current)
      ensures algorithm == 2 ==> Ends(procs, old(current), current)
    {
      if algorithm == 0 {
        RoundRobin();
      } else if algorithm == 1 {
        LowestFirst();
      } else {
        Priorities();
      }
    }

    /** INT_SYS_EXIT: the current process becomes a zombie before the next one is chosen. */
    method Exit(algorithm: nat, status: int)
      requires Valid() && algorithm < 3 && Runs(procs, current)
      requires exists i: nat :: i != current && Runs(procs, i)
      modifies this
      ensures Valid() && procs == old(procs)[old(current) := old(procs[current]).(state := Zombie, exitStatus := status)]
      ensures current != old(current) && Runs(old(procs), current)
      ensures algorithm == 0 ==> NextRunnable(procs, old(current), current)
      ensures algorithm == 1 ==> Lowest(procs, current)
      ensures algorithm == 2 ==> Ends(procs, old(current), current)
    {
      var i: nat :| i != current && Runs(procs, i);
      procs := procs[current := procs[current].(state := Zombie, exitStatus := status)];
      assert Runs(procs, i);
      Schedule(algorithm);
    }

    /** INT_SYS_USER1 sets the priority of the current process and goes on with it. INT_SYS_USER2,
        which is what sys_set_priority raises, goes on with it and changes nothing. */
    method User1(priority: int)
      requires Valid() && Runs(procs, current)
      modifies this
      ensures Valid() && current == old(current) && procs == old(procs)[current := old(procs[current]).(priority := priority)]
    {
      procs := procs[current := procs[current].(priority := priority)];
      Run(current);
    }
  }

  // ---------------------------------------------------------------- going round

  lemma ModSmall(x: nat, n: nat)
    requires x < n
    ensures x % n == x
  {
  }

  lemma ModOnce(x: nat, n: nat)
    requires x < n
    ensures (x + n) % n == x
  {
  }

  /** The remainder by which the loops go round. */
  lemma AroundIsMod(n: nat, from: nat, k: nat)
    requires from < n && k <= n
    ensures (from + k) % n == Around(n, from, k)
  {
    if from + k < n {
      ModSmall(from + k, n);
    } else {
      ModOnce(from + k - n, n);
    }
  }

  lemma NextAround(n: nat, from: nat, k: nat)
    requires from < n && k < n
    ensures (Around(n, from, k) + 1) % n == Around(n, from, k + 1)
  {
    AroundIsMod(n, Around(n, from, k), 1);
  }

  /** Every slot is some places behind any other one. */
  lemma AroundTo(n: nat, from: nat, to: nat) returns (k: nat)
    requires from < n && to < n
    ensures 1 <= k <= n && Around(n, from, k) == to
    ensures k == if to > from then to - from else n - from + to
  {
    if to > from {
      k := to - from;
    } else {
      k := n - from + to;
    }
  }

  /** If no slot that is passed in a round is runnable, none is. */
  lemma AllSeen(t: Table, from: nat)
    requires ValidTable(t) && from < |t| && SomeRuns(t)
    ensures exists k: nat :: 1 <= k <= |t| && Runs(t, Around(|t|, from, k))
  {
    var i: nat :| Runs(t, i);
    var k := AroundTo(|t|, from, i);
  }

  lemma FromZero(t: Table, to: nat)
    requires ValidTable(t) && NextRunnable(t, 0, to)
    ensures Lowest(t, to)
  {
    var k: nat :| 1 <= k <= |t| && to == Around(|t|, 0, k) && Runs(t, to) && forall j: nat :: 1 <= j < k ==> !Runs(t, Around(|t|, 0, j));
    forall j: nat | j < to
      ensures !Runs(t, j)
    {
      if j > 0 {
        assert Around(|t|, 0, j) == j;
      }
    }
  }

  // ---------------------------------------------------------------- algorithm 2

  lemma BetterChosen(t: Table, pid: nat, to: nat)
    requires ValidTable(t) && pid < |t| && to < |t| && t[to].priority < t[pid].priority && MinPriority(t, to)
    requires forall j: nat :: j < to && Runs(t, j) ==> t[j].priority > t[to].priority
    ensures Chooses(t, pid, to) && Decides(t, pid)
  {
    assert Runs(t, to);
  }

  lemma EqualChosen(t: Table, pid: nat, to: nat)
    requires ValidTable(t) && pid < |t| && NextEqual(t, pid, to, t[pid].priority)
    requires forall j: nat :: Runs(t, j) ==> t[j].priority >= t[pid].priority
    ensures Chooses(t, pid, to) && Runs(t, to) && Decides(t, pid)
  {
    assert Runs(t, to) && t[to].priority == t[pid].priority;
  }

  lemma NoneDecides(t: Table, pid: nat)
    requires forall j: nat :: Runs(t, j) ==> pid < |t| && t[j].priority > t[pid].priority
    ensures !Decides(t, pid)
  {
  }

  lemma ChoosesUnique(t: Table, pid: nat, to: nat, to': nat)
    requires Decides(t, pid) && Chooses(t, pid, to) && Chooses(t, pid, to')
    ensures to == to'
  {
    if j: nat :| Runs(t, j) && t[j].priority < t[pid].priority {
    } else {
      assert NextEqual(t, pid, to, t[pid].priority) && NextEqual(t, pid, to', t[pid].priority);
    }
  }

  /** Algorithm 2 has one outcome. */
  lemma EndsUnique(t: Table, from: nat, to: nat, to': nat)
    requires from < |t| && Ends(t, from, to) && Ends(t, from, to')
    ensures to == to'
  {
    var k: nat :| EndsAt(t, from, k, to);
    var k': nat :| EndsAt(t, from, k', to');
    hide Decides, Chooses;
    if k == k' && Decides(t, Around(|t|, from, k)) {
      ChoosesUnique(t, Around(|t|, from, k), to, to');
    }
  }

  lemma ChosenIsLeast(t: Table, pid: nat, to: nat)
    requires Decides(t, pid) && Chooses(t, pid, to)
    ensures MinPriority(t, to)
  {
    if j: nat :| Runs(t, j) && t[j].priority < t[pid].priority {
    } else {
      assert NextEqual(t, pid, to, t[pid].priority);
    }
  }

  lemma NextIsFirst(t: Table, from: nat, next: nat, k: nat)
    requires NextRunnable(t, from, next) && k < |t| && Idle(t, from, k) && Runs(t, Around(|t|, from, k + 1))
    ensures next == Around(|t|, from, k + 1)
  {
  }

  lemma NoneOnTheWay(t: Table, from: nat, k: nat, to: nat)
    requires from < |t| && EndsAt(t, from, k, to) && !Decides(t, Around(|t|, from, k))
    ensures !SomeDecides(t, from)
  {
    hide Decides;
    assert Runs(t, Around(|t|, from, k + 1));
  }

  /** Algorithm 2 takes a process with the smallest priority value exactly if, on the way from the
      process that is scheduled away to the next runnable one, some slot carries a priority that a
      runnable process does not exceed, or if that next process has the smallest value itself. */
  lemma MinimumTaken(t: Table, from: nat, next: nat, to: nat)
    requires ValidTable(t) && from < |t| && NextRunnable(t, from, next) && Ends(t, from, to)
    ensures MinPriority(t, to) <==> SomeDecides(t, from) || MinPriority(t, next)
  {
    var k: nat :| EndsAt(t, from, k, to);
    hide Decides, Chooses, MinPriority, NextRunnable;
    if Decides(t, Around(|t|, from, k)) {
      ChosenIsLeast(t, Around(|t|, from, k), to);
    } else {
      NextIsFirst(t, from, next, k);
      NoneOnTheWay(t, from, k, to);
    }
  }

  /** If the process that is scheduled away is runnable itself, that is so, and the next one in turn
      is taken among those that equal it. */
  lemma RunningDecides(t: Table, from: nat, to: nat)
    requires ValidTable(t) && Runs(t, from) && Ends(t, from, to)
    ensures MinPriority(t, to) && SomeDecides(t, from)
    ensures t[to].priority == t[from].priority ==> NextEqual(t, from, to, t[from].priority)
  {
    assert t[from].priority <= t[from].priority;
    assert Decides(t, from) && Around(|t|, from, 0) == from && Idle(t, from, 0);
    var k: nat :| EndsAt(t, from, k, to);
    assert k == 0;
    ChosenIsLeast(t, from, to);
  }

  /** Process 3, which has the smallest value at the start, is the first to exit. Algorithm 2 then takes its
      neighbour 4 and nothing else, although process 2 has a smaller value. */
  lemma NeighbourTaken()
    ensures var t := STARTED[3 := Process(3, Zombie, 1, 0)];
            ValidTable(t) && Ends(t, 3, 4) && (forall to :: Ends(t, 3, to) ==> to == 4) && !MinPriority(t, 4)
  {
    var t := STARTED[3 := Process(3, Zombie, 1, 0)];
    assert Runs(t, 2) && Runs(t, 4) && t[2].priority < t[4].priority;
    assert 4 == Around(5, 3, 1) && 3 == Around(5, 3, 0);
    assert EndsAt(t, 3, 0, 4);
    forall to | Ends(t, 3, to)
      ensures to == 4
    {
      EndsUnique(t, 3, to, 4);
    }
  }

  // ---------------------------------------------------------------- algorithm 0 is fair

  /** How many slots other than 0 lie between two slots, going round. */
  function Between(n: nat, from: nat, q: nat): int {
    if from < q then q - from - 1 else n - 1 - from + (q - 1)
  }

  /** A call of schedule that does not choose process q comes closer to it. */
  lemma Closer(t: Table, from: nat, to: nat, q: nat)
    requires ValidTable(t) && from < |t| && Runs(t, q) && NextRunnable(t, from, to) && to != q
    ensures 0 < to < |t| && 0 <= Between(|t|, to, q) < Between(|t|, from, q)
  {
    var k: nat :| 1 <= k <= |t| && to == Around(|t|, from, k) && Runs(t, to) && forall j: nat :: 1 <= j < k ==> !Runs(t, Around(|t|, from, j));
    var d := AroundTo(|t|, from, q);
    assert k < d;
    var e := AroundTo(|t|, from, to);
    assert e == k;
  }

  /** A run of algorithm 0: whatever happens to the other processes in between, the next one is
      chosen from the table as it is at the call. */
  ghost predicate RoundRobinRun(ts: seq<Table>, cs: seq<nat>) {
    && |cs| == |ts| + 1
    && (forall k :: 0 <= k < |ts| ==> ValidTable(ts[k]) && |ts[k]| == |ts[0]| && cs[k] < |ts[k]|)
    && (forall k :: 0 <= k < |ts| ==> NextRunnable(ts[k], cs[k], cs[k + 1]))
  }

  lemma {:induction false} StillWaiting(ts: seq<Table>, cs: seq<nat>, q: nat, m: nat)
    requires RoundRobinRun(ts, cs) && m <= |ts| && ts != []
    requires forall k :: 0 <= k < |ts| ==> Runs(ts[k], q)
    requires forall k :: 1 <= k <= m ==> cs[k] != q
    ensures m > 0 ==> cs[m] < |ts[0]| && 0 <= Between(|ts[0]|, cs[m], q) <= Between(|ts[0]|, cs[0], q) - m
  {
    if m > 0 {
      StillWaiting(ts, cs, q, m - 1);
      Closer(ts[m - 1], cs[m - 1], cs[m], q);
      hide NextRunnable, Runs, ValidTable;
    }
  }

  /** A process that stays runnable is dispatched within NPROCS - 1 calls of schedule. */
  lemma Fair(ts: seq<Table>, cs: seq<nat>, q: nat)
    requires RoundRobinRun(ts, cs) && ts != [] && |ts| >= |ts[0]| - 1
    requires forall k :: 0 <= k < |ts| ==> Runs(ts[k], q)
    ensures exists k :: 1 <= k <= |ts[0]| - 1 && cs[k] == q
  {
    var m := |ts[0]| - 1;
    if forall k :: 1 <= k <= m ==> cs[k] != q {
      StillWaiting(ts, cs, q, m);
      assert false;
    }
  }
}
