/** The registry of capacity ledgers keyed by pool id
    (`kubernetes/pools/pool_registry.py`). */
module PoolRegistry {
  import opened Wrappers
  import opened ResourcePool

  type Registry = map<string, Ledger>

  datatype RegistryError = PoolAlreadyExists(id: string) | PoolNotFound(id: string)

  /** Each key holds the ledger created for it, and every ledger is valid. */
  predicate WellFormed(reg: Registry)
  {
    forall id :: id in reg ==> reg[id].id == id && Valid(reg[id])
  }

  const Empty: Registry := map[]

  /** `create_pool`: a known id is an error and nothing changes; a fresh id
      gets an empty ledger carrying that id. */
  function CreatePool(reg: Registry, id: string): (r: Result<Registry, RegistryError>)
    ensures id in reg <==> r == Failure(PoolAlreadyExists(id))
    ensures r.Success? ==>
      && r.value.Keys == reg.Keys + {id}
      && r.value[id] == New(id)
      && forall k :: k in reg ==> r.value[k] == reg[k]
    ensures r.Success? && WellFormed(reg) ==> WellFormed(r.value)
  {
    if id in reg then Failure(PoolAlreadyExists(id)) else Success(reg[id := New(id)])
  }

  /** `remove_pool`: an unknown id is an error; otherwise exactly that key goes. */
  function RemovePool(reg: Registry, id: string): (r: Result<Registry, RegistryError>)
    ensures id !in reg <==> r == Failure(PoolNotFound(id))
    ensures r.Success? ==>
      && r.value.Keys == reg.Keys - {id}
      && forall k :: k in r.value ==> r.value[k] == reg[k]
    ensures r.Success? && WellFormed(reg) ==> WellFormed(r.value)
  {
    if id in reg then Success(reg - {id}) else Failure(PoolNotFound(id))
  }

  /** `find_pool`: the registered ledger, or an error for an unknown id. */
  function FindPool(reg: Registry, id: string): (r: Result<Ledger, RegistryError>)
    ensures id in reg <==> r.Success?
    ensures r.Success? ==> r.value == reg[id]
    ensures r.Failure? ==> r.error == PoolNotFound(id)
  {
    if id in reg then Success(reg[id]) else Failure(PoolNotFound(id))
  }

  /** `has_pool`: `get(id) is not None`; a stored ledger is never None, so
      this is key membership. */
  function HasPool(reg: Registry, id: string): (r: bool)
    ensures r <==> id in reg
  {
    FindPool(reg, id).Success?
  }

  /** `find_pool(id).add_node(...)`: the ledger found is mutated in place,
      which in this model writes the new ledger back under the same id. */
  function AddNodeTo(reg: Registry, id: string, name: string, cpu: int, ram: int)
    : (r: Result<Registry, LedgerOrRegistryError>)
    requires cpu > 0 && ram > 0
    ensures id !in reg ==> r == Failure(OfRegistry(PoolNotFound(id)))
    ensures id in reg ==>
      match AddNode(reg[id], name, cpu, ram)
      case Failure(e) => r == Failure(OfLedger(e))
      case Success(l) => r == Success(reg[id := l])
    ensures r.Success? ==> r.value.Keys == reg.Keys
  {
    match FindPool(reg, id)
    case Failure(e) => Failure(OfRegistry(e))
    case Success(l) =>
      match AddNode(l, name, cpu, ram)
      case Failure(e) => Failure(OfLedger(e))
      case Success(l') => Success(reg[id := l'])
  }

  datatype LedgerOrRegistryError = OfRegistry(reg: RegistryError) | OfLedger(ledger: LedgerError)

  lemma AddNodeToKeepsWellFormed(reg: Registry, id: string, name: string, cpu: int, ram: int)
    requires WellFormed(reg) && cpu > 0 && ram > 0
    ensures AddNodeTo(reg, id, name, cpu, ram).Success? ==> WellFormed(AddNodeTo(reg, id, name, cpu, ram).value)
  {
    if id in reg {
      AddNodeKeepsValid(reg[id], name, cpu, ram);
    }
  }

  /** Creating a pool twice fails the second time and leaves the first ledger alone. */
  lemma CreateTwice(reg: Registry, id: string)
    ensures CreatePool(reg, id).Success? ==>
      && CreatePool(CreatePool(reg, id).value, id) == Failure(PoolAlreadyExists(id))
      && CreatePool(reg, id).value[id] == New(id)
  {
  }

  /** `pools`: one ledger per registered id, each id exactly once. The
      source lists the dict in insertion order; a Dafny map has none, so the
      order here is left open. */
  method Pools(reg: Registry) returns (ledgers: seq<Ledger>, ids: seq<string>)
    ensures |ledgers| == |ids| == |reg|
    ensures forall i :: 0 <= i < |ids| ==> ids[i] in reg && ledgers[i] == reg[ids[i]]
    ensures forall i, j :: 0 <= i < j < |ids| ==> ids[i] != ids[j]
    ensures forall id :: id in reg ==> id in ids
  {
    ledgers, ids := [], [];
    var rest := reg.Keys;
    while rest != {}
      invariant rest <= reg.Keys
      invariant |ledgers| == |ids|
      invariant forall i :: 0 <= i < |ids| ==> ids[i] in reg && ids[i] !in rest && ledgers[i] == reg[ids[i]]
      invariant forall i, j :: 0 <= i < j < |ids| ==> ids[i] != ids[j]
      invariant forall id :: id in reg ==> id in rest || id in ids
      invariant |ids| + |rest| == |reg|
      decreases rest
    {
      var id :| id in rest;
      ledgers := ledgers + [reg[id]];
      ids := ids + [id];
      rest := rest - {id};
    }
    assert |reg.Keys| == |reg|;
  }
}
