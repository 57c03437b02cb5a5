/** project1/main.c: recording each command's files, building the dependency graph,
    and the fork and wait loops that execute it. */
module DependencyGraph {
  import opened ShellCommand

  /** What the parent process does, in order, named by script position. */
  datatype Action = Fork(cmd: nat) | Wait(cmd: nat)

  // ---------------------------------------------------------------- specification

  /** The script positions below k whose commands conflict with command k, in order. */
  ghost function BeforeUpTo(cmds: seq<Command>, k: nat, bound: nat): seq<nat>
    requires k < |cmds| && bound <= k
  {
    if bound == 0 then []
    else BeforeUpTo(cmds, k, bound - 1) +
         (if Dependent(cmds[bound - 1], cmds[k]) then [bound - 1] else [])
  }

  ghost function Before(cmds: seq<Command>, k: nat): seq<nat>
    requires k < |cmds|
  {
    BeforeUpTo(cmds, k, k)
  }

  /** Positions below n with (bound) or without (free) an earlier conflicting command. */
  ghost function Positions(cmds: seq<Command>, n: nat, bound: bool): seq<nat>
    requires n <= |cmds|
  {
    if n == 0 then []
    else Positions(cmds, n - 1, bound) +
         (if (Before(cmds, n - 1) != []) == bound then [n - 1] else [])
  }

  function Forks(ks: seq<nat>): seq<Action> {
    seq(|ks|, i requires 0 <= i < |ks| => Fork(ks[i]))
  }

  function Waits(ks: seq<nat>): seq<Action> {
    seq(|ks|, i requires 0 <= i < |ks| => Wait(ks[i]))
  }

  ghost function BoundPlan(cmds: seq<Command>, ks: seq<nat>): seq<Action>
    requires AllBelow(ks, |cmds|)
  {
    if ks == [] then []
    else
      var k := ks[|ks| - 1];
      BoundPlan(cmds, ks[..|ks| - 1]) + (Waits(Before(cmds, k)) + [Fork(k)])
  }

  /** Everything the parent does for a script: fork the free commands, then, for each
      remaining one in script order, wait for its predecessors and fork it. */
  ghost function Plan(cmds: seq<Command>): seq<Action> {
    PositionsBelow(cmds, |cmds|, true);
    Forks(Positions(cmds, |cmds|, false)) + BoundPlan(cmds, Positions(cmds, |cmds|, true))
  }

  // ---------------------------------------------------------------- the graph

  class GraphNode {
    const command: Command
    ghost const index: nat
    var before: seq<GraphNode>
    var pid: int
    var readList: seq<string>
    var writeList: seq<string>

    constructor (command: Command, ghost index: nat)
      ensures this.command == command && this.index == index
      ensures before == [] && pid == -1 && readList == [] && writeList == []
    {
      this.command := command;
      this.index := index;
      before := [];
      pid := -1;
      readList := [];
      writeList := [];
    }
  }

  class Graph {
    var noDependencies: seq<GraphNode>
    var dependencies: seq<GraphNode>

    constructor ()
      ensures noDependencies == [] && dependencies == []
    {
      noDependencies, dependencies := [], [];
    }
  }

  /** Appends the redirection files of a simple or subshell command. */
  method RecordRedirections(input: Option<string>, output: Option<string>, gNode: GraphNode)
    modifies gNode`readList, gNode`writeList
    ensures gNode.readList == old(gNode.readList) + Listed(input)
    ensures gNode.writeList == old(gNode.writeList) + Listed(output)
  {
    if input.Some? {
      gNode.readList := gNode.readList + [input.value];
    }
    if output.Some? {
      gNode.writeList := gNode.writeList + [output.value];
    }
  }

  /** Appends every argument that does not look like an option. */
  method RecordArguments(words: seq<string>, gNode: GraphNode)
    modifies gNode`readList
    ensures gNode.readList == old(gNode.readList) + FileWords(Arguments(words))
    ensures forall f :: f in gNode.readList <==>
              f in old(gNode.readList) || exists i :: 1 <= i < |words| && words[i] == f && (words[i] == "" || words[i][0] != '-')
  {
    ArgumentsListed(words);
    RecordWords(words, gNode);
  }

  method RecordWords(words: seq<string>, gNode: GraphNode)
    modifies gNode`readList
    ensures gNode.readList == old(gNode.readList) + FileWords(Arguments(words))
  {
    if words == [] {
      return;
    }
    ghost var all := old(gNode.readList) + FileWords(Arguments(words));
    var i := 1;
    while i < |words|
      invariant 1 <= i <= |words|
      invariant gNode.readList + FileWords(words[i..]) == all
    {
      assert words[i..][1..] == words[i + 1..];
      if words[i] == "" || words[i][0] != '-' {
        gNode.readList := gNode.readList + [words[i]];
      }
      i := i + 1;
    }
  }

  method ProcessCommand(cmd: Command, gNode: GraphNode)
    modifies gNode`readList, gNode`writeList
    ensures gNode.readList == old(gNode.readList) + Reads(cmd)
    ensures gNode.writeList == old(gNode.writeList) + Writes(cmd)
    ensures forall f :: f in gNode.readList <==>
              f in old(gNode.readList) ||
              exists way :: PartAt(cmd, way).Some? &&
                match PartAt(cmd, way).value
                case Simple(words, input, _) => input == Some(f) || exists i :: 1 <= i < |words| && words[i] == f && (words[i] == "" || words[i][0] != '-')
                case Subshell(_, input, _) => input == Some(f)
                case Compound(_, _, _) => false
    ensures forall f :: f in gNode.writeList <==>
              f in old(gNode.writeList) ||
              exists way :: PartAt(cmd, way).Some? && !PartAt(cmd, way).value.Compound? && PartAt(cmd, way).value.output == Some(f)
    decreases cmd
  {
    Process(cmd, gNode);
    ListedExactly(cmd);
  }

  method Process(cmd: Command, gNode: GraphNode)
    modifies gNode`readList, gNode`writeList
    ensures gNode.readList == old(gNode.readList) + Reads(cmd)
    ensures gNode.writeList == old(gNode.writeList) + Writes(cmd)
    decreases cmd
  {
    if cmd.Simple? {
      RecordRedirections(cmd.input, cmd.output, gNode);
      RecordArguments(cmd.words, gNode);
    } else if cmd.Subshell? {
      RecordRedirections(cmd.input, cmd.output, gNode);
    } else {
      Process(cmd.left, gNode);
      Process(cmd.right, gNode);
    }
  }

  /** The read-only scan over the lists of two nodes; n1 is the earlier one. */
  method IsDependent(n1: GraphNode, n2: GraphNode) returns (dependent: bool)
    ensures dependent <==> Conflict(n1.readList, n1.writeList, n2.readList, n2.writeList)
    ensures dependent <==> exists f :: (f in n1.writeList && (f in n2.readList || f in n2.writeList)) || (f in n1.readList && f in n2.writeList)
  {
    var i := 0;
    while i < |n2.readList|
      invariant 0 <= i <= |n2.readList|
      invariant forall k :: 0 <= k < i ==> n2.readList[k] !in n1.writeList
    {
      var j := 0;
      while j < |n1.writeList|
        invariant 0 <= j <= |n1.writeList|
        invariant forall k :: 0 <= k < j ==> n2.readList[i] != n1.writeList[k]
      {
        if n2.readList[i] == n1.writeList[j] {
          assert n2.readList[i] in n1.writeList;
          return true;
        }
        j := j + 1;
      }
      i := i + 1;
    }
    i := 0;
    while i < |n2.writeList|
      invariant 0 <= i <= |n2.writeList|
      invariant forall k :: 0 <= k < i ==> n2.writeList[k] !in n1.readList && n2.writeList[k] !in n1.writeList
    {
      var j := 0;
      while j < |n1.readList|
        invariant 0 <= j <= |n1.readList|
        invariant forall k :: 0 <= k < j ==> n2.writeList[i] != n1.readList[k]
      {
        if n2.writeList[i] == n1.readList[j] {
          assert n2.writeList[i] in n1.readList;
          return true;
        }
        j := j + 1;
      }
      var k := 0;
      while k < |n1.writeList|
        invariant 0 <= k <= |n1.writeList|
        invariant forall l :: 0 <= l < k ==> n2.writeList[i] != n1.writeList[l]
      {
        if n2.writeList[i] == n1.writeList[k] {
          assert n2.writeList[i] in n1.writeList;
          return true;
        }
        k := k + 1;
      }
      i := i + 1;
    }
    return false;
  }

  ghost predicate AllBelow(ks: seq<nat>, n: nat) {
    forall i :: 0 <= i < |ks| ==> ks[i] < n
  }

  /** The nodes at the given script positions. */
  ghost function NodesAt(nodes: seq<GraphNode>, ks: seq<nat>): seq<GraphNode>
    requires AllBelow(ks, |nodes|)
  {
    seq(|ks|, i requires 0 <= i < |ks| => nodes[ks[i]])
  }

  lemma {:induction false} BeforeUpToBelow(cmds: seq<Command>, k: nat, bound: nat)
    requires k < |cmds| && bound <= k
    ensures AllBelow(BeforeUpTo(cmds, k, bound), bound)
  {
    hide Dependent;
    if bound != 0 {
      BeforeUpToBelow(cmds, k, bound - 1);
    }
  }

  lemma {:induction false} PositionsBelow(cmds: seq<Command>, n: nat, bound: bool)
    requires n <= |cmds|
    ensures AllBelow(Positions(cmds, n, bound), n)
  {
    hide Before;
    if n != 0 {
      PositionsBelow(cmds, n - 1, bound);
    }
  }

  ghost predicate Recorded(nodes: seq<GraphNode>, cmds: seq<Command>)
    reads nodes
  {
    && |nodes| <= |cmds|
    && (forall k :: 0 <= k < |nodes| ==> nodes[k].command == cmds[k] && nodes[k].index == k)
    && (forall k :: 0 <= k < |nodes| ==> nodes[k].readList == Reads(cmds[k]) && nodes[k].writeList == Writes(cmds[k]))
  }

  ghost predicate Linked(nodes: seq<GraphNode>, cmds: seq<Command>)
    reads nodes
  {
    && |nodes| <= |cmds|
    && forall k :: 0 <= k < |nodes| ==>
         AllBelow(Before(cmds, k), k) && nodes[k].before == NodesAt(nodes, Before(cmds, k))
  }

  /** Links the newest node, the last of gnArr, to every earlier node it depends on. */
  method CheckDependency(gnArr: seq<GraphNode>, newest: GraphNode, ghost cmds: seq<Command>)
    requires gnArr != [] && gnArr[|gnArr| - 1] == newest && Recorded(gnArr, cmds)
    requires newest.before == []
    modifies newest`before
    ensures AllBelow(Before(cmds, |gnArr| - 1), |gnArr| - 1)
    ensures newest.before == NodesAt(gnArr, Before(cmds, |gnArr| - 1))
  {
    hide Conflict, Reads, Writes;
    var last := |gnArr| - 1;
    var i := 0;
    while i < last
      invariant 0 <= i <= last
      invariant AllBelow(BeforeUpTo(cmds, last, i), last)
      invariant newest.before == NodesAt(gnArr, BeforeUpTo(cmds, last, i))
    {
      var dependent := IsDependent(gnArr[i], newest);
      assert dependent <==> Dependent(cmds[i], cmds[last]);
      if dependent {
        newest.before := newest.before + [gnArr[i]];
      }
      i := i + 1;
    }
  }

  ghost predicate Queued(graph: Graph, nodes: seq<GraphNode>, cmds: seq<Command>)
    reads graph
  {
    && |nodes| <= |cmds|
    && AllBelow(Positions(cmds, |nodes|, false), |nodes|)
    && AllBelow(Positions(cmds, |nodes|, true), |nodes|)
    && graph.noDependencies == NodesAt(nodes, Positions(cmds, |nodes|, false))
    && graph.dependencies == NodesAt(nodes, Positions(cmds, |nodes|, true))
  }

  lemma NodesAtExtend(nodes: seq<GraphNode>, node: GraphNode, ks: seq<nat>)
    requires AllBelow(ks, |nodes|)
    ensures AllBelow(ks, |nodes| + 1) && NodesAt(nodes + [node], ks) == NodesAt(nodes, ks)
  {
  }

  method Enqueue(graph: Graph, gNode: GraphNode, ghost nodes: seq<GraphNode>, ghost cmds: seq<Command>)
    requires |nodes| < |cmds| && Queued(graph, nodes, cmds)
    requires (gNode.before == []) <==> (Before(cmds, |nodes|) == [])
    modifies graph
    ensures Queued(graph, nodes + [gNode], cmds)
  {
    hide Before;
    NodesAtExtend(nodes, gNode, Positions(cmds, |nodes|, false));
    NodesAtExtend(nodes, gNode, Positions(cmds, |nodes|, true));
    if gNode.before == [] {
      graph.noDependencies := graph.noDependencies + [gNode];
    } else {
      graph.dependencies := graph.dependencies + [gNode];
    }
  }

  /** One command of the stream: a new node with its lists and its links. */
  method AddNode(gnArr: seq<GraphNode>, ghost cmds: seq<Command>, command: Command)
    returns (gNode: GraphNode)
    requires |gnArr| < |cmds| && command == cmds[|gnArr|]
    requires Recorded(gnArr, cmds) && Linked(gnArr, cmds)
    ensures fresh(gNode) && gNode.pid == -1
    ensures gNode.before == [] <==> Before(cmds, |gnArr|) == []
    ensures Recorded(gnArr + [gNode], cmds) && Linked(gnArr + [gNode], cmds)
  {
    hide Before, Dependent, Reads, Writes;
    gNode := new GraphNode(command, |gnArr|);
    ProcessCommand(command, gNode);
    CheckDependency(gnArr + [gNode], gNode, cmds);
    forall k | 0 <= k < |gnArr|
      ensures gnArr[k].before == NodesAt(gnArr + [gNode], Before(cmds, k))
    {
      NodesAtExtend(gnArr, gNode, Before(cmds, k));
    }
  }

  method CreateGraph(cmds: seq<Command>) returns (graph: Graph, ghost nodes: seq<GraphNode>)
    ensures fresh(graph) && fresh(nodes) && |nodes| == |cmds|
    ensures Recorded(nodes, cmds) && Linked(nodes, cmds) && Queued(graph, nodes, cmds)
    ensures forall k :: 0 <= k < |nodes| ==> nodes[k].pid == -1
  {
    hide Before, Dependent, Positions, NodesAt, Recorded, Linked, Queued;
    graph := new Graph();
    var gnArr: seq<GraphNode> := [];
    EmptyQueues(graph, cmds);
    while |gnArr| < |cmds|
      invariant |gnArr| <= |cmds|
      invariant fresh(graph) && fresh(gnArr)
      invariant Recorded(gnArr, cmds) && Linked(gnArr, cmds) && Queued(graph, gnArr, cmds)
      invariant forall k :: 0 <= k < |gnArr| ==> gnArr[k].pid == -1
    {
      var gNode := AddNode(gnArr, cmds, cmds[|gnArr|]);
      Enqueue(graph, gNode, gnArr, cmds);
      gnArr := gnArr + [gNode];
    }
    nodes := gnArr;
  }

  lemma EmptyQueues(graph: Graph, cmds: seq<Command>)
    requires graph.noDependencies == [] && graph.dependencies == []
    ensures Queued(graph, [], cmds) && Recorded([], cmds) && Linked([], cmds)
  {
  }

  // ---------------------------------------------------------------- execution

  /** fork and waitpid as the parent sees them: every fork returns a fresh positive pid. */
  class System {
    var lastPid: nat
    ghost var log: seq<Action>
    ghost var running: map<int, nat>  // script position of the child behind each pid

    constructor ()
      ensures Valid() && log == [] && running == map[]
    {
      lastPid := 0;
      log := [];
      running := map[];
    }

    ghost predicate Valid()
      reads this
    {
      forall pid <- running :: 0 < pid <= lastPid
    }

    method Fork(ghost cmd: nat) returns (pid: int)
      requires Valid()
      modifies this
      ensures Valid()
      ensures pid > 0 && pid !in old(running) && running == old(running)[pid := cmd]
      ensures log == old(log) + [Action.Fork(cmd)]
    {
      lastPid := lastPid + 1;
      pid := lastPid;
      running := running[pid := cmd];
      log := log + [Action.Fork(cmd)];
    }

    /** Only the pid of a child the parent has forked may be waited for. */
    method WaitPid(pid: int)
      requires Valid() && pid in running
      modifies this`log
      ensures log == old(log) + [Wait(running[pid])]
    {
      log := log + [Wait(running[pid])];
    }
  }

  ghost predicate Numbered(nodes: seq<GraphNode>) {
    forall i :: 0 <= i < |nodes| ==> nodes[i].index == i
  }

  ghost predicate IsForked(node: GraphNode, sys: System)
    reads node, sys
  {
    node.pid in sys.running && sys.running[node.pid] == node.index
  }

  /** The nodes at these positions have been forked. */
  ghost predicate Forked(nodes: seq<GraphNode>, done: set<nat>, sys: System)
    reads nodes, sys
  {
    forall i :: 0 <= i < |nodes| && i in done ==> IsForked(nodes[i], sys)
  }

  ghost function SetOf(ks: seq<nat>): set<nat> {
    set k | k in ks
  }

  /** Forks one node and stores the pid in it; nodes forked before stay forked. */
  method ForkNode(node: GraphNode, sys: System, ghost nodes: seq<GraphNode>, ghost done: set<nat>)
    requires sys.Valid() && Numbered(nodes) && Forked(nodes, done, sys)
    requires node in nodes && node.index !in done
    modifies sys, node`pid
    ensures sys.Valid() && sys.log == old(sys.log) + [Action.Fork(node.index)]
    ensures Forked(nodes, done + {node.index}, sys)
  {
    var pid := sys.Fork(node.index);
    node.pid := pid;
  }

  ghost predicate Increasing(ks: seq<nat>) {
    forall i, j :: 0 <= i < j < |ks| ==> ks[i] < ks[j]
  }

  method ExecuteNoDependencies(queue: seq<GraphNode>, sys: System, ghost nodes: seq<GraphNode>, ghost ks: seq<nat>)
    requires sys.Valid() && Numbered(nodes)
    requires AllBelow(ks, |nodes|) && Increasing(ks) && queue == NodesAt(nodes, ks)
    modifies sys, nodes
    ensures sys.Valid() && sys.log == old(sys.log) + Forks(ks)
    ensures Forked(nodes, SetOf(ks), sys)
    ensures forall i :: 0 <= i < |nodes| ==> nodes[i].before == old(nodes[i].before)
  {
    var cur := 0;
    while cur < |queue|
      invariant 0 <= cur <= |queue|
      invariant sys.Valid() && sys.log == old(sys.log) + Forks(ks[..cur])
      invariant Forked(nodes, SetOf(ks[..cur]), sys)
      invariant forall i :: 0 <= i < |nodes| ==> nodes[i].before == old(nodes[i].before)
    {
      ForkNode(queue[cur], sys, nodes, SetOf(ks[..cur]));
      assert ks[..cur + 1] == ks[..cur] + [ks[cur]];
      assert SetOf(ks[..cur + 1]) == SetOf(ks[..cur]) + {ks[cur]};
      cur := cur + 1;
    }
    assert ks[..cur] == ks;
  }

  /** Waits for every predecessor of one node. The first loop is the source's search for a
      predecessor that has no pid yet; the jump it guards is never taken. */
  method WaitForBefore(before: seq<GraphNode>, sys: System, ghost nodes: seq<GraphNode>, ghost ks: seq<nat>)
    requires sys.Valid() && Numbered(nodes) && AllBelow(ks, |nodes|)
    requires before == NodesAt(nodes, ks) && Forked(nodes, SetOf(ks), sys)
    modifies sys`log
    ensures sys.Valid() && sys.log == old(sys.log) + Waits(ks)
  {
    var j := 0;
    while j < |before|
      invariant 0 <= j <= |before|
    {
      assert IsForked(nodes[ks[j]], sys);
      assert before[j].pid != -1;
      j := j + 1;
    }
    j := 0;
    while j < |before|
      invariant 0 <= j <= |before|
      invariant sys.log == old(sys.log) + Waits(ks[..j])
    {
      assert IsForked(nodes[ks[j]], sys);
      sys.WaitPid(before[j].pid);
      assert ks[..j + 1] == ks[..j] + [ks[j]];
      j := j + 1;
    }
    assert ks[..j] == ks;
  }

  lemma {:induction false} PositionsComplete(cmds: seq<Command>, n: nat, k: nat)
    requires n <= |cmds| && k < n
    ensures k in Positions(cmds, n, Before(cmds, k) != [])
  {
    hide Before;
    if k < n - 1 {
      PositionsComplete(cmds, n - 1, k);
    }
  }

  lemma {:induction false} PositionsSound(cmds: seq<Command>, n: nat, bound: bool)
    requires n <= |cmds|
    ensures AllBelow(Positions(cmds, n, bound), n) && Increasing(Positions(cmds, n, bound))
    ensures forall i :: 0 <= i < |Positions(cmds, n, bound)| && Positions(cmds, n, bound)[i] < |cmds| ==>
              (Before(cmds, Positions(cmds, n, bound)[i]) != []) == bound
  {
    hide Before;
    if n != 0 {
      PositionsSound(cmds, n - 1, bound);
    }
  }

  /** When the loop reaches a bound command, every predecessor of it is forked. */
  lemma PredecessorsReached(cmds: seq<Command>, cur: nat)
    requires AllBelow(Positions(cmds, |cmds|, true), |cmds|)
    requires cur < |Positions(cmds, |cmds|, true)|
    ensures SetOf(Before(cmds, Positions(cmds, |cmds|, true)[cur])) <=
            SetOf(Positions(cmds, |cmds|, false)) + SetOf(Positions(cmds, |cmds|, true)[..cur])
  {
    hide Positions, Before;
    var bs := Positions(cmds, |cmds|, true);
    forall i | i in Before(cmds, bs[cur])
      ensures i in Positions(cmds, |cmds|, false) || i in bs[..cur]
    {
      BeforeBelow(cmds, bs[cur]);
      PositionsComplete(cmds, |cmds|, i);
      PositionsSound(cmds, |cmds|, true);
      if Before(cmds, i) != [] {
        var at :| 0 <= at < |bs| && bs[at] == i;
        assert at < cur;
        assert bs[..cur][at] == i;
      }
    }
  }

  lemma BeforeBelow(cmds: seq<Command>, k: nat)
    requires k < |cmds|
    ensures AllBelow(Before(cmds, k), k)
  {
    BeforeUpToBelow(cmds, k, k);
  }

  method ExecuteDependencies(queue: seq<GraphNode>, sys: System, ghost nodes: seq<GraphNode>, ghost cmds: seq<Command>)
    requires sys.Valid() && Numbered(nodes) && |nodes| == |cmds| && Linked(nodes, cmds)
    requires Forked(nodes, SetOf(Positions(cmds, |cmds|, false)), sys)
    requires AllBelow(Positions(cmds, |cmds|, true), |cmds|)
    requires queue == NodesAt(nodes, Positions(cmds, |cmds|, true))
    modifies sys, nodes
    ensures sys.Valid() && sys.log == old(sys.log) + BoundPlan(cmds, Positions(cmds, |cmds|, true))
    ensures Forked(nodes, SetOf(Positions(cmds, |cmds|, false)) + SetOf(Positions(cmds, |cmds|, true)), sys)
  {
    hide Before, Positions, BoundPlan;
    ghost var bs := Positions(cmds, |cmds|, true);
    ghost var free := SetOf(Positions(cmds, |cmds|, false));
    var i := 0;
    assert BoundPlan(cmds, []) == [] by { BoundPlanStep(cmds, [], -1); }
    while i < |queue|
      invariant 0 <= i <= |queue|
      invariant sys.Valid() && sys.log == old(sys.log) + BoundPlan(cmds, bs[..i])
      invariant Forked(nodes, free + SetOf(bs[..i]), sys)
      invariant Linked(nodes, cmds)
    {
      PredecessorsReached(cmds, i);
      WaitForBefore(queue[i].before, sys, nodes, Before(cmds, bs[i]));
      FreshInBound(cmds, i);
      ForkNode(queue[i], sys, nodes, free + SetOf(bs[..i]));
      assert bs[..i + 1] == bs[..i] + [bs[i]];
      BoundPlanStep(cmds, bs[..i], bs[i]);
      assert free + SetOf(bs[..i + 1]) == free + SetOf(bs[..i]) + {bs[i]};
      i := i + 1;
    }
    assert bs[..i] == bs;
  }

  lemma BoundPlanStep(cmds: seq<Command>, ks: seq<nat>, k: int)
    requires AllBelow(ks, |cmds|) && k < |cmds|
    ensures BoundPlan(cmds, []) == []
    ensures 0 <= k ==> BoundPlan(cmds, ks + [k]) == BoundPlan(cmds, ks) + (Waits(Before(cmds, k)) + [Fork(k)])
  {
    hide Before;
    if 0 <= k {
      assert (ks + [k])[..|ks|] == ks;
    }
  }

  /** A bound command is neither free nor an earlier bound command. */
  lemma FreshInBound(cmds: seq<Command>, i: nat)
    requires AllBelow(Positions(cmds, |cmds|, true), |cmds|)
    requires i < |Positions(cmds, |cmds|, true)|
    ensures Positions(cmds, |cmds|, true)[i] !in
            SetOf(Positions(cmds, |cmds|, false)) + SetOf(Positions(cmds, |cmds|, true)[..i])
  {
    hide Positions, Before;
    PositionsSound(cmds, |cmds|, true);
    PositionsSound(cmds, |cmds|, false);
  }

  /** Executing the graph performs exactly the plan, and leaves every node with the pid of
      its own child. */
  method ExecuteGraph(graph: Graph, sys: System, ghost nodes: seq<GraphNode>, ghost cmds: seq<Command>)
    requires sys.Valid() && |nodes| == |cmds|
    requires Recorded(nodes, cmds) && Linked(nodes, cmds) && Queued(graph, nodes, cmds)
    modifies sys, nodes
    ensures sys.log == old(sys.log) + Plan(cmds)
    ensures forall i :: 0 <= i < |nodes| ==> IsForked(nodes[i], sys)
  {
    hide Positions, Before, BoundPlan, NodesAt;
    PositionsSound(cmds, |cmds|, false);
    ExecuteNoDependencies(graph.noDependencies, sys, nodes, Positions(cmds, |cmds|, false));
    ExecuteDependencies(graph.dependencies, sys, nodes, cmds);
    forall i | 0 <= i < |nodes|
      ensures IsForked(nodes[i], sys)
    {
      PositionsComplete(cmds, |cmds|, i);
    }
  }

  /** The -t mode of main: build the graph of a script and execute it. */
  method TimeTravel(cmds: seq<Command>, sys: System)
    requires sys.Valid() && sys.log == []
    modifies sys
    ensures sys.log == Plan(cmds)
  {
    var graph, nodes := CreateGraph(cmds);
    ExecuteGraph(graph, sys, nodes, cmds);
  }
}
