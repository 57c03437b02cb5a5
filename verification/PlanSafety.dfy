/** What the parent's plan guarantees, whatever the script. */
module PlanSafety {
  import opened ShellCommand
  import opened DependencyGraph

  lemma {:induction false} BeforeUpToMembers(cmds: seq<Command>, k: nat, bound: nat, i: nat)
    requires k < |cmds| && bound <= k
    ensures i in BeforeUpTo(cmds, k, bound) <==> i < bound && Dependent(cmds[i], cmds[k])
  {
    hide Dependent;
    if bound != 0 {
      BeforeUpToMembers(cmds, k, bound - 1, i);
    }
  }

  /** The predecessors of command k are exactly the earlier commands it conflicts with: a file that one of
      the two writes is read or written by the other. */
  lemma BeforeExact(cmds: seq<Command>, k: nat, i: nat)
    requires k < |cmds|
    ensures i in Before(cmds, k) <==>
              i < k && exists f :: (f in Writes(cmds[i]) && (f in Reads(cmds[k]) || f in Writes(cmds[k]))) || (f in Reads(cmds[i]) && f in Writes(cmds[k]))
  {
    BeforeMembers(cmds, k, i);
    hide Before, Reads, Writes;
  }

  lemma BeforeMembers(cmds: seq<Command>, k: nat, i: nat)
    requires k < |cmds|
    ensures i in Before(cmds, k) <==> i < k && Dependent(cmds[i], cmds[k])
  {
    hide Dependent;
    BeforeUpToMembers(cmds, k, k, i);
  }

  /** Every fork comes after a wait for each earlier conflicting command, and every wait
      after the fork of the command it names. */
  ghost predicate Safe(cmds: seq<Command>, plan: seq<Action>) {
    && (forall p, i :: 0 <= p < |plan| && plan[p].Fork? && plan[p].cmd < |cmds| && i in Before(cmds, plan[p].cmd)
          ==> Wait(i) in plan[..p])
    && (forall p :: 0 <= p < |plan| ==> plan[p].cmd < |cmds|)
    && (forall p :: 0 <= p < |plan| && plan[p].Wait? ==> Fork(plan[p].cmd) in plan[..p])
  }

  lemma SafeForks(cmds: seq<Command>, ks: seq<nat>)
    requires AllBelow(ks, |cmds|) && forall i :: 0 <= i < |ks| ==> Before(cmds, ks[i]) == []
    ensures Safe(cmds, Forks(ks))
  {
    hide Before;
  }

  /** One more action at the end of a plan. */
  lemma SafeOne(cmds: seq<Command>, plan: seq<Action>, a: Action)
    requires Safe(cmds, plan) && a.cmd < |cmds|
    requires a.Fork? ==> forall i :: i in Before(cmds, a.cmd) ==> Wait(i) in plan
    requires a.Wait? ==> Fork(a.cmd) in plan
    ensures Safe(cmds, plan + [a])
  {
    hide Before;
    var all := plan + [a];
    forall p | 0 <= p < |all|
      ensures all[p] == (if p < |plan| then plan[p] else a) && all[..p] == plan[..p]
    {
    }
    assert plan[..|plan|] == plan;
  }

  lemma {:induction false} SafeWaits(cmds: seq<Command>, plan: seq<Action>, ks: seq<nat>)
    requires Safe(cmds, plan) && forall i :: i in ks ==> i < |cmds| && Fork(i) in plan
    ensures Safe(cmds, plan + Waits(ks))
  {
    hide Safe;
    if ks == [] {
      assert plan + Waits(ks) == plan;
    } else {
      var front, k := ks[..|ks| - 1], ks[|ks| - 1];
      assert k in ks && forall i :: i in front ==> i in ks;
      SafeWaits(cmds, plan, front);
      SafeOne(cmds, plan + Waits(front), Wait(k));
      assert plan + Waits(ks) == plan + Waits(front) + [Wait(k)];
    }
  }

  lemma SafeExtend(cmds: seq<Command>, plan: seq<Action>, k: nat)
    requires Safe(cmds, plan) && k < |cmds|
    requires forall i :: i in Before(cmds, k) ==> i < k && Fork(i) in plan
    ensures Safe(cmds, plan + (Waits(Before(cmds, k)) + [Fork(k)]))
  {
    hide Before, Safe;
    var waits := Waits(Before(cmds, k));
    SafeWaits(cmds, plan, Before(cmds, k));
    forall i | i in Before(cmds, k)
      ensures Wait(i) in plan + waits
    {
      var at :| 0 <= at < |Before(cmds, k)| && Before(cmds, k)[at] == i;
      assert waits[at] == Wait(i);
    }
    SafeOne(cmds, plan + waits, Fork(k));
    assert plan + (waits + [Fork(k)]) == plan + waits + [Fork(k)];
  }

  lemma ForkedSoFar(cmds: seq<Command>, free: seq<nat>, ks: seq<nat>, i: nat)
    requires AllBelow(ks, |cmds|)
    requires i in free || i in ks
    ensures Fork(i) in Forks(free) + BoundPlan(cmds, ks)
    decreases |ks|
  {
    hide Before;
    if i in free {
      var at :| 0 <= at < |free| && free[at] == i;
      assert (Forks(free) + BoundPlan(cmds, ks))[at] == Fork(i);
    } else {
      var plan := BoundPlan(cmds, ks);
      var last := ks[|ks| - 1];
      if i == last {
        assert plan[|plan| - 1] == Fork(i);
      } else {
        assert i in ks[..|ks| - 1];
        ForkedSoFar(cmds, [], ks[..|ks| - 1], i);
        assert Forks([]) + BoundPlan(cmds, ks[..|ks| - 1]) == BoundPlan(cmds, ks[..|ks| - 1]);
      }
    }
  }

  lemma BeforeForked(cmds: seq<Command>, cur: nat)
    requires cur < |Positions(cmds, |cmds|, true)| && AllBelow(Positions(cmds, |cmds|, true), |cmds|)
    ensures var bs := Positions(cmds, |cmds|, true);
            forall i :: i in Before(cmds, bs[cur]) ==>
              i < bs[cur] && Fork(i) in Forks(Positions(cmds, |cmds|, false)) + BoundPlan(cmds, bs[..cur])
  {
    hide Before, Positions, BoundPlan;
    var free, bs := Positions(cmds, |cmds|, false), Positions(cmds, |cmds|, true);
    forall i | i in Before(cmds, bs[cur])
      ensures i < bs[cur] && Fork(i) in Forks(free) + BoundPlan(cmds, bs[..cur])
    {
      BeforeMembers(cmds, bs[cur], i);
      PredecessorsReached(cmds, cur);
      assert i in SetOf(Before(cmds, bs[cur]));
      ForkedSoFar(cmds, free, bs[..cur], i);
    }
  }

  lemma {:induction false} SafeBound(cmds: seq<Command>, cur: nat)
    requires cur <= |Positions(cmds, |cmds|, true)|
    requires AllBelow(Positions(cmds, |cmds|, true), |cmds|)
    ensures Safe(cmds, Forks(Positions(cmds, |cmds|, false)) + BoundPlan(cmds, Positions(cmds, |cmds|, true)[..cur]))
  {
    hide Before, Positions, BoundPlan, Safe;
    var free, bs := Positions(cmds, |cmds|, false), Positions(cmds, |cmds|, true);
    if cur == 0 {
      PositionsSound(cmds, |cmds|, false);
      SafeForks(cmds, free);
      BoundPlanStep(cmds, [], -1);
      assert bs[..0] == [];
      assert Forks(free) + [] == Forks(free);
    } else {
      SafeBound(cmds, cur - 1);
      var k := bs[cur - 1];
      var plan := Forks(free) + BoundPlan(cmds, bs[..cur - 1]);
      BeforeForked(cmds, cur - 1);
      SafeExtend(cmds, plan, k);
      BoundPlanStep(cmds, bs[..cur - 1], k);
      assert bs[..cur] == bs[..cur - 1] + [k];
      var chunk := Waits(Before(cmds, k)) + [Fork(k)];
      assert Forks(free) + (BoundPlan(cmds, bs[..cur - 1]) + chunk) == plan + chunk;
    }
  }

  lemma PlanIsSafe(cmds: seq<Command>)
    ensures Safe(cmds, Plan(cmds))
  {
    hide Before, Positions, BoundPlan, Safe;
    PositionsBelow(cmds, |cmds|, true);
    var bs := Positions(cmds, |cmds|, true);
    SafeBound(cmds, |bs|);
    assert bs[..|bs|] == bs;
  }

  // ---------------------------------------------------------------- no wait that is not needed

  /** The wait at p is one of those that come right before the fork at q, and that command needs it. */
  ghost predicate Needed(cmds: seq<Command>, plan: seq<Action>, p: nat, q: nat) {
    && p < q < |plan| && plan[q].Fork? && plan[q].cmd < |cmds| && plan[p].cmd in Before(cmds, plan[q].cmd)
    && forall r :: p <= r < q ==> plan[r].Wait?
  }

  lemma NeededBehind(cmds: seq<Command>, first: seq<Action>, plan: seq<Action>, p: nat, q: nat)
    requires Needed(cmds, plan, p, q)
    ensures Needed(cmds, first + plan, |first| + p, |first| + q)
  {
    hide Before;
    var n, all := |first|, first + plan;
    assert forall r :: n <= r < |all| ==> all[r] == plan[r - n];
  }

  lemma NeededBefore(cmds: seq<Command>, plan: seq<Action>, last: seq<Action>, p: nat, q: nat)
    requires Needed(cmds, plan, p, q)
    ensures Needed(cmds, plan + last, p, q)
  {
    hide Before;
    var all := plan + last;
    assert forall r :: 0 <= r < |plan| ==> all[r] == plan[r];
  }

  lemma ChunkNeeded(cmds: seq<Command>, k: nat, p: nat)
    requires k < |cmds| && p < |Before(cmds, k)|
    ensures Needed(cmds, Waits(Before(cmds, k)) + [Fork(k)], p, |Before(cmds, k)|)
  {
    hide Before;
  }

  lemma {:induction false} BoundNeeded(cmds: seq<Command>, ks: seq<nat>, p: nat) returns (q: nat)
    requires AllBelow(ks, |cmds|) && p < |BoundPlan(cmds, ks)| && BoundPlan(cmds, ks)[p].Wait?
    ensures Needed(cmds, BoundPlan(cmds, ks), p, q)
    decreases |ks|
  {
    var front, k := ks[..|ks| - 1], ks[|ks| - 1];
    var first, chunk := BoundPlan(cmds, front), Waits(Before(cmds, k)) + [Fork(k)];
    assert BoundPlan(cmds, ks) == first + chunk;
    hide BoundPlan, Before, Needed;
    if p < |first| {
      q := BoundNeeded(cmds, front, p);
      NeededBefore(cmds, first, chunk, p, q);
    } else {
      ChunkNeeded(cmds, k, p - |first|);
      q := |first| + |Before(cmds, k)|;
      NeededBehind(cmds, first, chunk, p - |first|, |Before(cmds, k)|);
    }
  }

  /** The parent waits for a command only on its way to the fork of one that conflicts with it. */
  lemma WaitsNeeded(cmds: seq<Command>, p: nat) returns (q: nat)
    requires p < |Plan(cmds)| && Plan(cmds)[p].Wait?
    ensures p < q < |Plan(cmds)| && Plan(cmds)[q].Fork? && Plan(cmds)[p].cmd < Plan(cmds)[q].cmd < |cmds|
    ensures forall r :: p <= r < q ==> Plan(cmds)[r].Wait?
    ensures var c, d := cmds[Plan(cmds)[p].cmd], cmds[Plan(cmds)[q].cmd];
            exists f :: (f in Writes(c) && (f in Reads(d) || f in Writes(d))) || (f in Reads(c) && f in Writes(d))
  {
    q := PlanNeeded(cmds, p);
    hide Plan, Before, Reads, Writes;
    BeforeExact(cmds, Plan(cmds)[q].cmd, Plan(cmds)[p].cmd);
  }

  lemma PlanNeeded(cmds: seq<Command>, p: nat) returns (q: nat)
    requires p < |Plan(cmds)| && Plan(cmds)[p].Wait?
    ensures Needed(cmds, Plan(cmds), p, q)
  {
    hide Plan, BoundPlan, Before, Needed;
    var first, second, bs := PlanParts(cmds, p);
    var n := |first|;
    var m := BoundNeeded(cmds, bs, p - n);
    NeededBehind(cmds, first, second, p - n, m);
    assert n + (p - n) == p;
    q := n + m;
  }

  lemma PlanParts(cmds: seq<Command>, p: nat) returns (first: seq<Action>, second: seq<Action>, bs: seq<nat>)
    requires p < |Plan(cmds)| && Plan(cmds)[p].Wait?
    ensures AllBelow(bs, |cmds|) && second == BoundPlan(cmds, bs) && Plan(cmds) == first + second
    ensures |first| <= p < |first| + |second| && second[p - |first|].Wait?
  {
    PositionsBelow(cmds, |cmds|, true);
    bs := Positions(cmds, |cmds|, true);
    first, second := Forks(Positions(cmds, |cmds|, false)), BoundPlan(cmds, bs);
    ForksAlone(Positions(cmds, |cmds|, false));
    hide Positions, BoundPlan, Forks;
    InFirstOrSecond(first, second, p);
  }

  lemma ForksAlone(ks: seq<nat>)
    ensures forall r :: 0 <= r < |Forks(ks)| ==> Forks(ks)[r].Fork?
  {
  }

  lemma InFirstOrSecond(first: seq<Action>, second: seq<Action>, p: nat)
    requires p < |first + second| && (first + second)[p].Wait? && forall r :: 0 <= r < |first| ==> first[r].Fork?
    ensures |first| <= p < |first| + |second| && second[p - |first|].Wait?
  {
  }

  /** A command without an earlier one that it conflicts with is forked before any wait. */
  lemma FreeFirst(cmds: seq<Command>, k: nat) returns (q: nat)
    requires k < |cmds|
    requires forall i: nat, f :: i < k ==> !((f in Writes(cmds[i]) && (f in Reads(cmds[k]) || f in Writes(cmds[k]))) || (f in Reads(cmds[i]) && f in Writes(cmds[k])))
    ensures q < |Plan(cmds)| && Plan(cmds)[q] == Fork(k) && forall r :: 0 <= r < q ==> Plan(cmds)[r].Fork?
  {
    PositionsBelow(cmds, |cmds|, true);
    PositionsComplete(cmds, |cmds|, k);
    var free, bs := Positions(cmds, |cmds|, false), Positions(cmds, |cmds|, true);
    assert Plan(cmds) == Forks(free) + BoundPlan(cmds, bs);
    hide Plan, Positions, BoundPlan;
    if Before(cmds, k) != [] {
      hide Before;
      BeforeExact(cmds, k, Before(cmds, k)[0]);
      assert false;
    }
    q :| 0 <= q < |free| && free[q] == k;
  }

  // ---------------------------------------------------------------- every command forked once

  function ForksOf(plan: seq<Action>): seq<nat> {
    if plan == [] then []
    else ForksOf(plan[..|plan| - 1]) +
         (if plan[|plan| - 1].Fork? then [plan[|plan| - 1].cmd] else [])
  }

  lemma {:induction false} ForksOfConcat(a: seq<Action>, b: seq<Action>)
    ensures ForksOf(a + b) == ForksOf(a) + ForksOf(b)
    decreases |b|
  {
    if b == [] {
      assert a + b == a;
    } else {
      assert (a + b)[..|a + b| - 1] == a + b[..|b| - 1];
      ForksOfConcat(a, b[..|b| - 1]);
    }
  }

  lemma {:induction false} ForksOfForks(ks: seq<nat>)
    ensures ForksOf(Forks(ks)) == ks
  {
    if ks != [] {
      ForksOfForks(ks[..|ks| - 1]);
      assert Forks(ks)[..|ks| - 1] == Forks(ks[..|ks| - 1]);
    }
  }

  lemma {:induction false} ForksOfWaits(ks: seq<nat>)
    ensures ForksOf(Waits(ks)) == []
  {
    if ks != [] {
      ForksOfWaits(ks[..|ks| - 1]);
      assert Waits(ks)[..|ks| - 1] == Waits(ks[..|ks| - 1]);
    }
  }

  lemma ForksOfChunk(ws: seq<nat>, k: nat)
    ensures ForksOf(Waits(ws) + [Fork(k)]) == [k]
  {
    var chunk := Waits(ws) + [Fork(k)];
    assert chunk[..|chunk| - 1] == Waits(ws);
    ForksOfWaits(ws);
  }

  lemma {:induction false} ForksOfBound(cmds: seq<Command>, ks: seq<nat>)
    requires AllBelow(ks, |cmds|)
    ensures ForksOf(BoundPlan(cmds, ks)) == ks
  {
    hide Before, ForksOf;
    if ks == [] {
      ForksOfForks([]);
      assert Forks([]) == [];
    } else {
      var k := ks[|ks| - 1];
      ForksOfBound(cmds, ks[..|ks| - 1]);
      ForksOfConcat(BoundPlan(cmds, ks[..|ks| - 1]), Waits(Before(cmds, k)) + [Fork(k)]);
      ForksOfChunk(Before(cmds, k), k);
    }
  }

  /** The plan forks every command of the script, and none of them twice. */
  lemma ForkedExactlyOnce(cmds: seq<Command>)
    ensures forall k: nat :: k in ForksOf(Plan(cmds)) <==> k < |cmds|
    ensures forall i, j :: 0 <= i < j < |ForksOf(Plan(cmds))| ==> ForksOf(Plan(cmds))[i] != ForksOf(Plan(cmds))[j]
  {
    hide Before, Positions, BoundPlan, ForksOf;
    var free, bs := Positions(cmds, |cmds|, false), Positions(cmds, |cmds|, true);
    PositionsSound(cmds, |cmds|, false);
    PositionsSound(cmds, |cmds|, true);
    ForksOfConcat(Forks(free), BoundPlan(cmds, bs));
    ForksOfForks(free);
    ForksOfBound(cmds, bs);
    forall k: nat | k < |cmds|
      ensures k in free + bs
    {
      PositionsComplete(cmds, |cmds|, k);
    }
  }
}
