/** The health verdict of a pool (`util/pool_health.py`): actual node
    count in the capacity ledger against the desired node count. */
module PoolHealth {
  import opened Orm
  import opened ResourcePool

  /** `pool_health`. */
  function Evaluate(l: Ledger, p: Pool): (r: Health)
    ensures r == Error <==> NodeCount(l) == 0
    ensures r == Ok <==> NodeCount(l) > 0 && NodeCount(l) == p.nodeGroup.nodeCount
    ensures r == Warning <==> NodeCount(l) > 0 && NodeCount(l) != p.nodeGroup.nodeCount
  {
    var current := NodeCount(l);
    var expected := p.nodeGroup.nodeCount;
    if current == 0 then Error
    else if current != expected then Warning
    else Ok
  }

  /** The verdict reads nothing but the two node counts: CPU, RAM, node
      names and every other pool field are irrelevant. */
  lemma DependsOnlyOnCounts(l1: Ledger, p1: Pool, l2: Ledger, p2: Pool)
    requires NodeCount(l1) == NodeCount(l2)
    requires p1.nodeGroup.nodeCount == p2.nodeGroup.nodeCount
    ensures Evaluate(l1, p1) == Evaluate(l2, p2)
  {
  }

  /** For a consistent ledger, Error means exactly "no capacity at all". */
  lemma ErrorIffNoCapacity(l: Ledger, p: Pool)
    requires Valid(l)
    ensures Evaluate(l, p) == Error <==> l.cpuTotal == 0
    ensures Evaluate(l, p) == Error <==> l.ramTotal == 0
  {
    PositiveSums(l.nodes);
  }

  /** The three example verdicts for a desired count of three. */
  lemma Examples(l0: Ledger, l2: Ledger, l3: Ledger, p: Pool)
    requires p.nodeGroup.nodeCount == 3
    requires |l0.nodes| == 0 && |l2.nodes| == 2 && |l3.nodes| == 3
    ensures Evaluate(l0, p) == Error && Evaluate(l2, p) == Warning && Evaluate(l3, p) == Ok
  {
  }
}
