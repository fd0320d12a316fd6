/** The capacity ledger of one pool (`kubernetes/pools/resource_pool.py`):
    the nodes currently provisioned, in insertion order, and running CPU and
    RAM totals that must always equal the sums over those nodes. */
module ResourcePool {
  import opened Wrappers

  datatype PoolNode = PoolNode(name: string, cpu: int, ram: int)

  datatype Ledger = Ledger(id: string, cpuTotal: int, ramTotal: int, nodes: seq<PoolNode>)

  datatype LedgerError =
    | NodeAlreadyExists(node: string, pool: string)
    | NodeNotFound(node: string, pool: string)

  function SumCpu(nodes: seq<PoolNode>): int
  {
    if |nodes| == 0 then 0 else SumCpu(nodes[..|nodes| - 1]) + nodes[|nodes| - 1].cpu
  }

  function SumRam(nodes: seq<PoolNode>): int
  {
    if |nodes| == 0 then 0 else SumRam(nodes[..|nodes| - 1]) + nodes[|nodes| - 1].ram
  }

  function Names(nodes: seq<PoolNode>): set<string>
  {
    set i | 0 <= i < |nodes| :: nodes[i].name
  }

  predicate DistinctNames(nodes: seq<PoolNode>)
  {
    forall i, j :: 0 <= i < j < |nodes| ==> nodes[i].name != nodes[j].name
  }

  /** Every node was admitted with positive CPU and RAM. */
  predicate PositiveNodes(nodes: seq<PoolNode>)
  {
    forall i :: 0 <= i < |nodes| ==> nodes[i].cpu > 0 && nodes[i].ram > 0
  }

  /** The ledger invariant: unique node names, positive node sizes, and
      totals equal to the sums over the nodes. */
  predicate Valid(l: Ledger)
  {
    && DistinctNames(l.nodes)
    && PositiveNodes(l.nodes)
    && l.cpuTotal == SumCpu(l.nodes)
    && l.ramTotal == SumRam(l.nodes)
  }

  /** `ResourcePool(pool_id)`: an empty ledger. */
  function New(id: string): (l: Ledger)
    ensures l.id == id && l.cpuTotal == 0 && l.ramTotal == 0 && |l.nodes| == 0
    ensures Valid(l)
  {
    Ledger(id, 0, 0, [])
  }

  /** The first node called `name`, if any (a dict lookup). */
  function Find(nodes: seq<PoolNode>, name: string): (r: Option<PoolNode>)
    ensures r.None? <==> name !in Names(nodes)
    ensures r.Some? ==> r.value in nodes && r.value.name == name
  {
    if |nodes| == 0 then None
    else if nodes[0].name == name then Some(nodes[0])
    else
      assert Names(nodes) == {nodes[0].name} + Names(nodes[1..]);
      Find(nodes[1..], name)
  }

  /** The node sequence with the first node called `name` taken out (`dict.pop`). */
  function Without(nodes: seq<PoolNode>, name: string): seq<PoolNode>
  {
    if |nodes| == 0 then []
    else if nodes[0].name == name then nodes[1..]
    else [nodes[0]] + Without(nodes[1..], name)
  }

  /** `add_node`. The source asserts positive CPU and RAM before anything
      else, so those are preconditions; a duplicate name is a recoverable
      error that leaves the ledger as it was. */
  function AddNode(l: Ledger, name: string, cpu: int, ram: int): (r: Result<Ledger, LedgerError>)
    requires cpu > 0 && ram > 0
    ensures name in Names(l.nodes) <==> r == Failure(NodeAlreadyExists(name, l.id))
    ensures r.Success? ==>
      && r.value.id == l.id
      && r.value.cpuTotal == l.cpuTotal + cpu
      && r.value.ramTotal == l.ramTotal + ram
      && r.value.nodes == l.nodes + [PoolNode(name, cpu, ram)]
      && Names(r.value.nodes) == Names(l.nodes) + {name}
  {
    if name in Names(l.nodes) then Failure(NodeAlreadyExists(name, l.id))
    else
      var nodes := l.nodes + [PoolNode(name, cpu, ram)];
      assert nodes[|nodes| - 1].name == name;
      assert forall i :: 0 <= i < |l.nodes| ==> nodes[i] == l.nodes[i];
      Success(Ledger(l.id, l.cpuTotal + cpu, l.ramTotal + ram, nodes))
  }

  /** What the two `assert ... >= 0` after a removal demand of the ledger. */
  predicate RemovalKeepsTotals(l: Ledger, name: string)
  {
    match Find(l.nodes, name)
    case None => true
    case Some(n) => l.cpuTotal - n.cpu >= 0 && l.ramTotal - n.ram >= 0
  }

  /** `remove_node`: an absent name is a recoverable error; otherwise the
      node is dropped and its CPU and RAM are taken off the totals. */
  function RemoveNode(l: Ledger, name: string): (r: Result<Ledger, LedgerError>)
    requires RemovalKeepsTotals(l, name)
    ensures name !in Names(l.nodes) <==> r == Failure(NodeNotFound(name, l.id))
    ensures r.Success? ==>
      && r.value.id == l.id
      && r.value.cpuTotal == l.cpuTotal - Find(l.nodes, name).value.cpu
      && r.value.ramTotal == l.ramTotal - Find(l.nodes, name).value.ram
      && r.value.cpuTotal >= 0 && r.value.ramTotal >= 0
      && r.value.nodes == Without(l.nodes, name)
  {
    match Find(l.nodes, name)
    case None => Failure(NodeNotFound(name, l.id))
    case Some(n) =>
      Success(Ledger(l.id, l.cpuTotal - n.cpu, l.ramTotal - n.ram, Without(l.nodes, name)))
  }

  function CpuTotal(l: Ledger): int { l.cpuTotal }

  function RamTotal(l: Ledger): int { l.ramTotal }

  /** `node_count` is the size of the node dict. */
  function NodeCount(l: Ledger): nat { |l.nodes| }

  /** `nodes`: the nodes in insertion order. */
  function NodesOf(l: Ledger): seq<PoolNode> { l.nodes }

  // ---------------------------------------------------------------------
  // Facts about sums and removal

  lemma {:induction false} SumsOfAppend(nodes: seq<PoolNode>, n: PoolNode)
    ensures SumCpu(nodes + [n]) == SumCpu(nodes) + n.cpu
    ensures SumRam(nodes + [n]) == SumRam(nodes) + n.ram
  {
    assert (nodes + [n])[..|nodes|] == nodes;
  }

  lemma {:induction false} SumsOfPrepend(n: PoolNode, nodes: seq<PoolNode>)
    ensures SumCpu([n] + nodes) == n.cpu + SumCpu(nodes)
    ensures SumRam([n] + nodes) == n.ram + SumRam(nodes)
  {
    if |nodes| > 0 {
      var last := nodes[|nodes| - 1];
      var init := nodes[..|nodes| - 1];
      assert [n] + nodes == ([n] + init) + [last];
      assert nodes == init + [last];
      SumsOfAppend([n] + init, last);
      SumsOfAppend(init, last);
      SumsOfPrepend(n, init);
    } else {
      assert [n] + nodes == [] + [n];
      SumsOfAppend([], n);
    }
  }

  lemma {:induction false} PositiveSums(nodes: seq<PoolNode>)
    requires PositiveNodes(nodes)
    ensures SumCpu(nodes) >= 0 && SumRam(nodes) >= 0
    ensures |nodes| > 0 ==> SumCpu(nodes) > 0 && SumRam(nodes) > 0
  {
    if |nodes| > 0 {
      PositiveSums(nodes[..|nodes| - 1]);
    }
  }

  /** Taking out a node that is present lowers the sums by exactly its CPU
      and RAM, and keeps the other nodes in order. */
  lemma {:induction false} WithoutSums(nodes: seq<PoolNode>, name: string)
    requires Find(nodes, name).Some?
    ensures SumCpu(Without(nodes, name)) == SumCpu(nodes) - Find(nodes, name).value.cpu
    ensures SumRam(Without(nodes, name)) == SumRam(nodes) - Find(nodes, name).value.ram
  {
    assert nodes == [nodes[0]] + nodes[1..];
    SumsOfPrepend(nodes[0], nodes[1..]);
    if nodes[0].name != name {
      WithoutSums(nodes[1..], name);
      SumsOfPrepend(nodes[0], Without(nodes[1..], name));
    }
  }

  lemma NamesOfPrepend(n: PoolNode, nodes: seq<PoolNode>)
    ensures Names([n] + nodes) == {n.name} + Names(nodes)
  {
    var s := [n] + nodes;
    forall x | x in Names(s) ensures x in {n.name} + Names(nodes) {
      var i :| 0 <= i < |s| && s[i].name == x;
      if i > 0 { assert s[i] == nodes[i - 1]; }
    }
    forall x | x in Names(nodes) ensures x in Names(s) {
      var i :| 0 <= i < |nodes| && nodes[i].name == x;
      assert s[i + 1] == nodes[i];
    }
    assert s[0] == n;
  }

  lemma {:induction false} WithoutNames(nodes: seq<PoolNode>, name: string)
    requires DistinctNames(nodes)
    ensures Names(Without(nodes, name)) == Names(nodes) - {name}
    ensures DistinctNames(Without(nodes, name))
    ensures PositiveNodes(nodes) ==> PositiveNodes(Without(nodes, name))
  {
    if |nodes| > 0 {
      assert nodes == [nodes[0]] + nodes[1..];
      NamesOfPrepend(nodes[0], nodes[1..]);
      assert nodes[0].name !in Names(nodes[1..]);
      if nodes[0].name != name {
        WithoutNames(nodes[1..], name);
        var w := [nodes[0]] + Without(nodes[1..], name);
        NamesOfPrepend(nodes[0], Without(nodes[1..], name));
      }
    }
  }

  /** Removing a name that was just appended gives back the original sequence. */
  lemma {:induction false} WithoutAppended(nodes: seq<PoolNode>, n: PoolNode)
    requires n.name !in Names(nodes)
    ensures Without(nodes + [n], n.name) == nodes
  {
    if |nodes| == 0 {
      assert [] + [n] == [n];
    } else {
      assert (nodes + [n])[1..] == nodes[1..] + [n];
      assert Names(nodes) == {nodes[0].name} + Names(nodes[1..]);
      WithoutAppended(nodes[1..], n);
      assert [nodes[0]] + nodes[1..] == nodes;
    }
  }

  // ---------------------------------------------------------------------
  // The ledger invariant is kept by every operation

  /** In a valid ledger the removal assertions always hold. */
  lemma ValidAllowsRemoval(l: Ledger, name: string)
    requires Valid(l)
    ensures RemovalKeepsTotals(l, name)
  {
    if Find(l.nodes, name).Some? {
      WithoutSums(l.nodes, name);
      WithoutNames(l.nodes, name);
      PositiveSums(Without(l.nodes, name));
    }
  }

  lemma AddNodeKeepsValid(l: Ledger, name: string, cpu: int, ram: int)
    requires Valid(l) && cpu > 0 && ram > 0
    ensures AddNode(l, name, cpu, ram).Success? ==> Valid(AddNode(l, name, cpu, ram).value)
  {
    if name !in Names(l.nodes) {
      var n := PoolNode(name, cpu, ram);
      SumsOfAppend(l.nodes, n);
      var nodes := l.nodes + [n];
      forall i, j | 0 <= i < j < |nodes| ensures nodes[i].name != nodes[j].name {
        if j == |nodes| - 1 {
          assert nodes[i] == l.nodes[i];
          assert nodes[i].name in Names(l.nodes);
        }
      }
    }
  }

  lemma RemoveNodeKeepsValid(l: Ledger, name: string)
    requires Valid(l)
    ensures RemovalKeepsTotals(l, name)
    ensures RemoveNode(l, name).Success? ==> Valid(RemoveNode(l, name).value)
  {
    ValidAllowsRemoval(l, name);
    if Find(l.nodes, name).Some? {
      WithoutSums(l.nodes, name);
      WithoutNames(l.nodes, name);
    }
  }

  /** In a valid ledger the node count is the number of distinct node names. */
  lemma {:induction false} NodeCountIsNameCount(nodes: seq<PoolNode>)
    requires DistinctNames(nodes)
    ensures |Names(nodes)| == |nodes|
  {
    if |nodes| > 0 {
      var init := nodes[..|nodes| - 1];
      assert Names(nodes) == Names(init) + {nodes[|nodes| - 1].name};
      assert nodes[|nodes| - 1].name !in Names(init);
      NodeCountIsNameCount(init);
    }
  }

  /** `add_node(n, c, r)` then `remove_node(n)` restores the ledger exactly. */
  lemma AddThenRemove(l: Ledger, name: string, cpu: int, ram: int)
    requires Valid(l) && cpu > 0 && ram > 0 && name !in Names(l.nodes)
    ensures AddNode(l, name, cpu, ram).Success?
    ensures RemovalKeepsTotals(AddNode(l, name, cpu, ram).value, name)
    ensures RemoveNode(AddNode(l, name, cpu, ram).value, name) == Success(l)
  {
    var added := AddNode(l, name, cpu, ram).value;
    AddNodeKeepsValid(l, name, cpu, ram);
    ValidAllowsRemoval(added, name);
    WithoutAppended(l.nodes, PoolNode(name, cpu, ram));
    SumsOfAppend(l.nodes, PoolNode(name, cpu, ram));
  }

  // ---------------------------------------------------------------------
  // Arbitrary sequences of node events

  datatype NodeEvent = Add(name: string, cpu: int, ram: int) | Remove(name: string)

  /** A node event as the callers issue it: positive sizes on every add. */
  predicate WellFormedEvent(e: NodeEvent)
  {
    e.Add? ==> e.cpu > 0 && e.ram > 0
  }

  /** Apply one event; a failed event (the typed error is raised and caught
      by the caller) leaves the ledger as it was. */
  function Step(l: Ledger, e: NodeEvent): Ledger
    requires Valid(l) && WellFormedEvent(e)
  {
    match e
    case Add(n, c, r) =>
      (match AddNode(l, n, c, r) case Success(l') => l' case Failure(_) => l)
    case Remove(n) =>
      ValidAllowsRemoval(l, n);
      (match RemoveNode(l, n) case Success(l') => l' case Failure(_) => l)
  }

  function Replay(l: Ledger, events: seq<NodeEvent>): (r: Ledger)
    requires Valid(l)
    requires forall i :: 0 <= i < |events| ==> WellFormedEvent(events[i])
    ensures Valid(r)
    decreases |events|
  {
    if |events| == 0 then l
    else
      var e := events[0];
      var next := Step(l, e);
      StepKeepsValid(l, e);
      Replay(next, events[1..])
  }

  /** After any sequence of node events the totals are never negative. */
  lemma EventsKeepTotalsNonNegative(l: Ledger, events: seq<NodeEvent>)
    requires Valid(l)
    requires forall i :: 0 <= i < |events| ==> WellFormedEvent(events[i])
    ensures Replay(l, events).cpuTotal >= 0 && Replay(l, events).ramTotal >= 0
  {
    PositiveSums(Replay(l, events).nodes);
  }

  lemma StepKeepsValid(l: Ledger, e: NodeEvent)
    requires Valid(l) && WellFormedEvent(e)
    ensures Valid(Step(l, e))
  {
    match e
    case Add(n, c, r) => AddNodeKeepsValid(l, n, c, r);
    case Remove(n) => RemoveNodeKeepsValid(l, n);
  }
}
