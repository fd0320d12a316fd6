/** The persisted records of the pool collection (`database/orm.py`):
    health and operation enums, the operation attached to a pool, the pool
    record itself, and the paginator used by the list queries. */
module Orm {
  import opened Wrappers

  datatype Health = Ok | Warning | Error

  datatype OperationType = Create | Update | Delete

  /** The string each enum member is stored as. */
  function HealthValue(h: Health): string
  {
    match h
    case Ok => "Ok"
    case Warning => "Warning"
    case Error => "Error"
  }

  function HealthFromValue(s: string): Option<Health>
  {
    if s == "Ok" then Some(Ok)
    else if s == "Warning" then Some(Warning)
    else if s == "Error" then Some(Error)
    else None
  }

  /** Every health verdict is stored as a distinct string that reads back as itself,
      and no other string reads back as a verdict. */
  lemma HealthValueRoundTrip(h: Health, s: string)
    ensures HealthFromValue(HealthValue(h)) == Some(h)
    ensures HealthFromValue(s) == Some(h) <==> s == HealthValue(h)
  {
  }

  function OperationTypeValue(t: OperationType): string
  {
    match t
    case Create => "Create"
    case Update => "Update"
    case Delete => "Delete"
  }

  function OperationTypeFromValue(s: string): Option<OperationType>
  {
    if s == "Create" then Some(Create)
    else if s == "Update" then Some(Update)
    else if s == "Delete" then Some(Delete)
    else None
  }

  lemma OperationTypeValueRoundTrip(t: OperationType, s: string)
    ensures OperationTypeFromValue(OperationTypeValue(t)) == Some(t)
    ensures OperationTypeFromValue(s) == Some(t) <==> s == OperationTypeValue(t)
  {
  }

  /** A pool's in-flight action: always scheduled, optionally dispatched
      (`ycOperationId`) and optionally failed (`errorMsg`). Timestamps are
      ISO-8601 strings. */
  datatype Operation = Operation(
    kind: OperationType,
    scheduledFor: string,
    ycOperationId: Option<string>,
    errorMsg: Option<string>)

  datatype NodeGroup = NodeGroup(nodeCount: int)

  datatype Resources = Resources(
    cpuTotal: int,
    ramTotal: int,
    nodesTotal: int,
    cpuAvail: int,
    ramAvail: int,
    nodesAvail: int,
    fuzzerMaxCpu: int,
    fuzzerMaxRam: int)

  /** A persisted pool. `userId == None` marks a shared pool. */
  datatype Pool = Pool(
    id: string,
    name: string,
    description: string,
    userId: Option<string>,
    expDate: Option<string>,
    nodeGroup: NodeGroup,
    operation: Option<Operation>,
    health: Health,
    createdAt: string,
    resources: Resources)

  /** The declared field names of the pool record. */
  const PoolFields: set<string> :=
    {"id", "name", "description", "user_id", "exp_date", "node_group",
     "operation", "health", "created_at", "resources"}

  /** `fields_match`: true when every listed name is a declared field. */
  function FieldsMatch(fields: seq<string>, declared: set<string>): (r: bool)
    ensures r <==> forall i :: 0 <= i < |fields| ==> fields[i] in declared
  {
    if |fields| == 0 then true
    else fields[0] in declared && FieldsMatch(fields[1..], declared)
  }

  /** `ORMPool.fields_match` as `update_partial` uses it: declared names
      pass, an undeclared one anywhere in the list fails the whole list. */
  lemma PoolFieldsMatch()
    ensures FieldsMatch([], PoolFields)
    ensures FieldsMatch(["health", "operation"], PoolFields)
    ensures !FieldsMatch(["health", "status"], PoolFields)
  {
    assert ["health", "status"][1] !in PoolFields;
  }

  datatype Paginator = Paginator(pgNum: int, pgSize: int, offset: int, limit: int)

  function MakePaginator(pgNum: int, pgSize: int): (p: Paginator)
    ensures p.pgNum == pgNum && p.pgSize == pgSize
    ensures p.offset == pgNum * pgSize && p.limit == pgSize
  {
    Paginator(pgNum, pgSize, pgNum * pgSize, pgSize)
  }

  /** The index range [offset, offset + limit) a paginator selects. */
  predicate OnPage(p: Paginator, i: int)
  {
    p.offset <= i < p.offset + p.limit
  }

  /** Page n + 1 starts exactly where page n ends. */
  lemma PagesAdjacent(pgNum: int, pgSize: int)
    ensures MakePaginator(pgNum + 1, pgSize).offset
         == MakePaginator(pgNum, pgSize).offset + MakePaginator(pgNum, pgSize).limit
  {
    assert (pgNum + 1) * pgSize == pgNum * pgSize + pgSize;
  }

  /** With a positive page size, no index lies on two different pages. */
  lemma {:induction false} PagesDisjoint(a: int, b: int, pgSize: int, i: int)
    requires pgSize > 0 && a < b
    requires OnPage(MakePaginator(a, pgSize), i)
    ensures !OnPage(MakePaginator(b, pgSize), i)
  {
    assert (a + 1) * pgSize == a * pgSize + pgSize;
    MultiplyMonotone(a + 1, b, pgSize);
  }

  lemma MultiplyMonotone(x: int, y: int, k: int)
    requires x <= y && k >= 0
    ensures x * k <= y * k
  {
    assert y * k - x * k == (y - x) * k;
  }
}
