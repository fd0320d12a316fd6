/** Start-up construction of the registry (`kubernetes/pools/instance.py`),
    as a pure fold over the persisted pool records: one ledger per pool,
    seeded with a single aggregate node, then a health verdict for every
    pool that has no operation. The returned `writes` are the records the
    source passes to `db.pools.update`. */
module Instance {
  import opened Wrappers
  import opened Orm
  import opened ResourcePool
  import opened PoolRegistry
  import PoolHealth
  import PoolQueries

  /** The synthetic node each pool is seeded with. */
  function SeedNodeName(p: Pool): string
  {
    p.name + "_node"
  }

  /** The ledger a pool ends up with after seeding. */
  function SeededLedger(p: Pool): Ledger
  {
    Ledger(p.id, p.resources.cpuTotal, p.resources.ramTotal,
           [PoolNode(SeedNodeName(p), p.resources.cpuTotal, p.resources.ramTotal)])
  }

  /** `add_node` asserts positive sizes, so every stored total must be positive. */
  predicate Seedable(p: Pool)
  {
    p.resources.cpuTotal > 0 && p.resources.ramTotal > 0
  }

  predicate DistinctIds(ps: seq<Pool>)
  {
    forall i, j :: 0 <= i < j < |ps| ==> ps[i].id != ps[j].id
  }

  function Ids(ps: seq<Pool>): set<string>
  {
    set i | 0 <= i < |ps| :: ps[i].id
  }

  /** One iteration of the first loop: `create_pool(pool.id)` then
      `find_pool(pool.id).add_node(pool.name + "_node", cpu_total, ram_total)`. */
  function SeedOne(reg: Registry, p: Pool): (r: Result<Registry, RegistryError>)
    requires Seedable(p)
    ensures p.id in reg <==> r == Failure(PoolAlreadyExists(p.id))
    ensures r.Success? ==> r.value == reg[p.id := SeededLedger(p)]
  {
    match CreatePool(reg, p.id)
    case Failure(e) => Failure(e)
    case Success(created) =>
      match AddNodeTo(created, p.id, SeedNodeName(p), p.resources.cpuTotal, p.resources.ramTotal)
      case Failure(_) => assert false; Failure(PoolAlreadyExists(p.id))
      case Success(seeded) =>
        var n := PoolNode(SeedNodeName(p), p.resources.cpuTotal, p.resources.ramTotal);
        assert [] + [n] == [n];
        Success(seeded)
  }

  /** The first loop over all records; the first repeated id aborts it. */
  function Seed(reg: Registry, ps: seq<Pool>): (r: Result<Registry, RegistryError>)
    requires forall i :: 0 <= i < |ps| ==> Seedable(ps[i])
    ensures r.Failure? ==> r.error.PoolAlreadyExists?
    decreases |ps|
  {
    if |ps| == 0 then Success(reg)
    else
      match SeedOne(reg, ps[0])
      case Failure(e) => Failure(e)
      case Success(seeded) => Seed(seeded, ps[1..])
  }

  lemma IdsOfCons(ps: seq<Pool>)
    requires |ps| > 0
    ensures Ids(ps) == {ps[0].id} + Ids(ps[1..])
  {
    forall x | x in Ids(ps) ensures x in {ps[0].id} + Ids(ps[1..]) {
      var j :| 0 <= j < |ps| && ps[j].id == x;
      if j > 0 { assert ps[1..][j - 1] == ps[j]; }
    }
    forall x | x in Ids(ps[1..]) ensures x in Ids(ps) {
      var j :| 0 <= j < |ps[1..]| && ps[1..][j].id == x;
      assert ps[j + 1].id == x;
    }
  }

  lemma DistinctIdsOfCons(ps: seq<Pool>)
    requires |ps| > 0
    ensures DistinctIds(ps) <==> DistinctIds(ps[1..]) && ps[0].id !in Ids(ps[1..])
  {
    IdsOfCons(ps);
    if DistinctIds(ps[1..]) && ps[0].id !in Ids(ps[1..]) {
      forall i, j | 0 <= i < j < |ps| ensures ps[i].id != ps[j].id {
        assert ps[j] == ps[1..][j - 1];
        if i > 0 { assert ps[i] == ps[1..][i - 1]; }
      }
    }
    if DistinctIds(ps) {
      forall x | x in Ids(ps[1..]) ensures x != ps[0].id {
        var j :| 0 <= j < |ps[1..]| && ps[1..][j].id == x;
        assert ps[j + 1].id == x;
      }
      forall i, j | 0 <= i < j < |ps[1..]| ensures ps[1..][i].id != ps[1..][j].id {
        assert ps[1..][i] == ps[i + 1] && ps[1..][j] == ps[j + 1];
      }
    }
  }

  /** Seeding succeeds exactly when no id repeats and none is already registered;
      a failure names an id of the input. */
  lemma {:induction false} SeedSucceedsIff(reg: Registry, ps: seq<Pool>)
    requires forall i :: 0 <= i < |ps| ==> Seedable(ps[i])
    ensures Seed(reg, ps).Success? <==> DistinctIds(ps) && Ids(ps) !! reg.Keys
    ensures Seed(reg, ps).Failure? ==> Seed(reg, ps).error.id in Ids(ps)
    decreases |ps|
  {
    if |ps| > 0 {
      IdsOfCons(ps);
      DistinctIdsOfCons(ps);
      if ps[0].id !in reg {
        SeedSucceedsIff(reg[ps[0].id := SeededLedger(ps[0])], ps[1..]);
      }
    }
  }

  /** A successful seeding adds one seeded ledger per record and keeps the rest. */
  lemma {:induction false} SeedContents(reg: Registry, ps: seq<Pool>)
    requires forall i :: 0 <= i < |ps| ==> Seedable(ps[i])
    requires Seed(reg, ps).Success?
    ensures Seed(reg, ps).value.Keys == reg.Keys + Ids(ps)
    ensures forall k :: k in reg && k !in Ids(ps) ==> Seed(reg, ps).value[k] == reg[k]
    ensures DistinctIds(ps) ==> forall i :: 0 <= i < |ps| ==> Seed(reg, ps).value[ps[i].id] == SeededLedger(ps[i])
    decreases |ps|
  {
    if |ps| > 0 {
      IdsOfCons(ps);
      DistinctIdsOfCons(ps);
      var next := reg[ps[0].id := SeededLedger(ps[0])];
      SeedContents(next, ps[1..]);
      var r := Seed(reg, ps).value;
      if DistinctIds(ps) {
        forall i | 0 <= i < |ps| ensures r[ps[i].id] == SeededLedger(ps[i]) {
          if i > 0 { assert ps[i] == ps[1..][i - 1]; }
        }
      }
    }
  }

  /** The second loop: `pool.health = pool_health(find_pool(pool.id), pool)`. */
  function HealthPass(reg: Registry, ps: seq<Pool>): (writes: seq<Pool>)
    requires forall i :: 0 <= i < |ps| ==> ps[i].id in reg
    ensures |writes| == |ps|
    ensures forall i :: 0 <= i < |ps| ==>
      writes[i] == ps[i].(health := PoolHealth.Evaluate(reg[ps[i].id], ps[i]))
  {
    if |ps| == 0 then []
    else [ps[0].(health := PoolHealth.Evaluate(FindPool(reg, ps[0].id).value, ps[0]))]
         + HealthPass(reg, ps[1..])
  }

  datatype Startup = Startup(registry: Registry, writes: seq<Pool>)

  /** The verdict a freshly seeded pool gets: one node against the desired count. */
  function ExpectedHealth(p: Pool): Health
  {
    if p.nodeGroup.nodeCount == 1 then Ok else Warning
  }

  /** One seeded ledger per pool id, and nothing else. */
  predicate SeededAll(reg: Registry, ps: seq<Pool>)
  {
    && reg.Keys == Ids(ps)
    && forall i :: 0 <= i < |ps| ==> reg[ps[i].id] == SeededLedger(ps[i])
  }

  /** One health write per pool without an operation, in listing order. */
  predicate HealthWritten(writes: seq<Pool>, ps: seq<Pool>)
  {
    var idle := PoolQueries.ListNoOperations(ps);
    && |writes| == |idle|
    && forall i :: 0 <= i < |idle| ==> writes[i] == idle[i].(health := ExpectedHealth(idle[i]))
  }

  lemma SeededLedgerIsValid(p: Pool)
    requires Seedable(p)
    ensures Valid(SeededLedger(p))
    ensures NodeCount(SeededLedger(p)) == 1
  {
    var n := PoolNode(SeedNodeName(p), p.resources.cpuTotal, p.resources.ramTotal);
    SumsOfAppend([], n);
    assert [] + [n] == [n];
  }

  lemma SeededAllWellFormed(reg: Registry, ps: seq<Pool>)
    requires forall i :: 0 <= i < |ps| ==> Seedable(ps[i])
    requires SeededAll(reg, ps)
    ensures WellFormed(reg)
  {
    forall id | id in reg ensures reg[id].id == id && Valid(reg[id]) {
      var j :| 0 <= j < |ps| && ps[j].id == id;
      SeededLedgerIsValid(ps[j]);
    }
  }

  lemma IdleAreSeeded(reg: Registry, ps: seq<Pool>)
    requires forall i :: 0 <= i < |ps| ==> Seedable(ps[i])
    requires SeededAll(reg, ps)
    ensures forall i :: 0 <= i < |PoolQueries.ListNoOperations(ps)| ==>
      PoolQueries.ListNoOperations(ps)[i].id in reg
    ensures HealthWritten(HealthPass(reg, PoolQueries.ListNoOperations(ps)), ps)
  {
    var idle := PoolQueries.ListNoOperations(ps);
    forall i | 0 <= i < |idle| ensures idle[i].id in reg && reg[idle[i].id] == SeededLedger(idle[i]) {
      assert idle[i] in idle;
      var j :| 0 <= j < |ps| && ps[j] == idle[i];
      assert ps[j].id in Ids(ps);
    }
    var writes := HealthPass(reg, idle);
    forall i | 0 <= i < |idle| ensures writes[i] == idle[i].(health := ExpectedHealth(idle[i])) {
      assert idle[i] in idle;
      var j :| 0 <= j < |ps| && ps[j] == idle[i];
      SeededLedgerIsValid(ps[j]);
    }
  }

  /** `pool_registry_init` over the records `list_internal` returns. */
  function RegistryInit(ps: seq<Pool>): (r: Result<Startup, RegistryError>)
    requires forall i :: 0 <= i < |ps| ==> Seedable(ps[i])
    ensures r.Success? <==> DistinctIds(ps)
    ensures r.Failure? ==> r.error.PoolAlreadyExists? && r.error.id in Ids(ps)
    ensures r.Success? ==>
      && SeededAll(r.value.registry, ps)
      && WellFormed(r.value.registry)
      && HealthWritten(r.value.writes, ps)
  {
    SeedSucceedsIff(Empty, ps);
    match Seed(Empty, ps)
    case Failure(e) => Failure(e)
    case Success(reg) =>
      SeedContents(Empty, ps);
      SeededAllWellFormed(reg, ps);
      IdleAreSeeded(reg, ps);
      Success(Startup(reg, HealthPass(reg, PoolQueries.ListNoOperations(ps))))
  }

  /** After start-up each pool's ledger holds exactly one node, named after
      the pool, carrying the pool's stored CPU and RAM totals. */
  lemma StartupLedgers(ps: seq<Pool>, i: int)
    requires forall k :: 0 <= k < |ps| ==> Seedable(ps[k])
    requires DistinctIds(ps)
    requires 0 <= i < |ps|
    ensures RegistryInit(ps).Success?
    ensures ps[i].id in RegistryInit(ps).value.registry
    ensures NodesOf(RegistryInit(ps).value.registry[ps[i].id])
         == [PoolNode(ps[i].name + "_node", ps[i].resources.cpuTotal, ps[i].resources.ramTotal)]
    ensures CpuTotal(RegistryInit(ps).value.registry[ps[i].id]) == ps[i].resources.cpuTotal
    ensures RamTotal(RegistryInit(ps).value.registry[ps[i].id]) == ps[i].resources.ramTotal
  {
    assert ps[i].id in Ids(ps);
  }

  /** Every pool with no operation is written back as Ok or Warning, never
      Error: the seeded ledger always holds exactly one node. */
  lemma StartupNeverError(ps: seq<Pool>, i: int)
    requires forall k :: 0 <= k < |ps| ==> Seedable(ps[k])
    requires DistinctIds(ps)
    requires 0 <= i < |PoolQueries.ListNoOperations(ps)|
    ensures RegistryInit(ps).Success?
    ensures |RegistryInit(ps).value.writes| == |PoolQueries.ListNoOperations(ps)|
    ensures RegistryInit(ps).value.writes[i].health != Error
    ensures RegistryInit(ps).value.writes[i].health == Ok <==>
            PoolQueries.ListNoOperations(ps)[i].nodeGroup.nodeCount == 1
  {
    assert HealthWritten(RegistryInit(ps).value.writes, ps);
  }

  /** No persisted pools: start-up succeeds with an empty registry and writes nothing. */
  lemma EmptyStartup()
    ensures RegistryInit([]) == Success(Startup(map[], []))
  {
  }
}
