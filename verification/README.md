# Pool manager: capacity ledger, pool views and spec templating

A Dafny model of the core of the pool manager service. The service keeps an
in-memory registry of Kubernetes node pools (a ledger of nodes per pool with
running CPU and RAM totals), rebuilds the registry at start-up from the stored
pool records, decides a pool's health, selects pool records for the
reconciliation loops, and turns a node-group template document into the
request body sent to the cloud API. Around that core sit small pure helpers:
the database key renaming, the pagination rule, the duration parser, the
partial-update validators, the API error table, and the settings validators.

Module layout, following the source tree:

- `ResourcePool` (`resource_pool.dfy`): the per-pool node ledger, its
  invariant (totals equal the sums over the nodes) and its two typed errors.
- `PoolRegistry` (`pool_registry.dfy`): pool id to ledger.
- `PoolHealth` (`pool_health.dfy`): the three-way health verdict.
- `Instance` (`instance.dfy`): the start-up fold `pool_registry_init`, as a
  pure function over the stored pool records.
- `Orm` (`orm.dfy`): the stored records, their enums, `fields_match` and the
  `Paginator`.
- `PoolQueries` (`pool_queries.dfy`): the database filters as predicates over
  records, with "now" as a parameter. This covers the reconciliation views, the
  owner filters, the sort by name and the offset/limit slice.
- `Document` (`document.dfy`): the JSON-like document that specs are made of,
  with path lookup and update.
- `PoolSpec` (`pool_spec.dfy`) and `PoolSpecTemplate`
  (`pool_spec_template.dfy`): the spec mutators and the template loader.
- `DbKeys` (`db_keys.dfy`): `dbkey_to_id` / `id_to_dbkey`.
- `DateTime` (`datetime.dfy`): `duration_in_seconds` and the suffix check of
  `validate_rfc3339`.
- `ApiUtil` (`api_util.dfy`): the partial-update validators and the page
  query bounds.
- `ErrorModel` (`error_model.dfy`): the error-code table and the three
  functions over it.
- `Settings` (`settings.dfy`): the settings root validators and the delay and
  interval rules.
- `Wrappers` and `Text`: `Option`/`Result`, and the string helpers the model
  needs. The helpers cover decimal formatting and parsing, split and join,
  upper-casing, and code-point ordering.

Mutable Python objects become immutable values. Each mutator returns the new
value, and each raised exception becomes a `Failure` carrying an error
constructor. Python dicts keep insertion order, so a ledger's nodes are a
sequence with distinct names rather than a map. The registry's iteration
order is not used by any caller, so the registry is a map. Assertions in the
source (`assert cpu > 0`, the non-negative totals after a removal) become
preconditions. The clock, the schema validator of `spec/base`,
`from_rfc3339` and the interpreter's `__debug__` flag are passed in as
parameters.

Four assumptions:

- The `spec/base` helpers are not part of this model. Their behaviour is
  assumed as follows.
  - Looking up a dotted path fails with a parse error naming the path when a
    segment is missing.
  - A required path (`name`, the fixed-scale size, the node cores and
    memory) must be present, and an absent or null `nodeLabels`/`nodeTaints`
    entry is normalised to an empty collection. The source reaches both
    through the same single-key lookup; see "Left out".
  - `spec_set_item` writes one key into the enclosing dict.
- Error codes live in `codes.py`, which is not part of this model. The eight
  codes of `API_ERROR_MESSAGES` are named constructors; any other code is
  `Unlisted`.
- Health is stored and compared as the enum values "Ok", "Warning" and "Error".
- Times are ISO-8601 strings. The model compares them, and pool names, by
  code point. The database compares strings with its ICU collation instead;
  see "Left out".

## Model

| member | source | states |
|---|---|---|
| ResourcePool.New | pool_manager/app/kubernetes/pools/resource_pool.py:34-38 | a new ledger carries its id, has zero CPU and RAM totals and no nodes, and satisfies the ledger invariant |
| ResourcePool.Find | pool_manager/app/kubernetes/pools/resource_pool.py:46 | a node is found exactly when its name is in the ledger, and the node found has that name |
| ResourcePool.AddNode | pool_manager/app/kubernetes/pools/resource_pool.py:41-52 | needs positive CPU and RAM; a name already present fails with NodeAlreadyExists and nothing else; otherwise the totals grow by exactly cpu and ram, the node is appended and the other nodes are kept in order |
| ResourcePool.RemoveNode | pool_manager/app/kubernetes/pools/resource_pool.py:61-72 | an absent name fails with NodeNotFound and nothing else; otherwise the totals shrink by the removed node's CPU and RAM, stay non-negative, and only that node is dropped |
| ResourcePool.AddNodeKeepsValid | pool_manager/app/kubernetes/pools/resource_pool.py:50-52 | a successful add keeps totals equal to the node sums, names distinct and sizes positive |
| ResourcePool.RemoveNodeKeepsValid | pool_manager/app/kubernetes/pools/resource_pool.py:69-72 | on a valid ledger the post-removal assertions always hold, and a successful removal keeps the invariant |
| ResourcePool.ValidAllowsRemoval | pool_manager/app/kubernetes/pools/resource_pool.py:71-72 | on a ledger whose totals equal its sums, the non-negativity assertions after a removal cannot fail |
| ResourcePool.NodeCountIsNameCount | pool_manager/app/kubernetes/pools/resource_pool.py:93-95 | `node_count` equals the number of distinct node names |
| ResourcePool.AddThenRemove | pool_manager/app/kubernetes/pools/resource_pool.py:41-72 | adding a fresh node and removing it again gives back the original ledger, totals and node order included |
| ResourcePool.WithoutSums | pool_manager/app/kubernetes/pools/resource_pool.py:64-70 | popping a node takes exactly its CPU and RAM off the sums |
| ResourcePool.WithoutNames | pool_manager/app/kubernetes/pools/resource_pool.py:64 | popping a name removes exactly that name and keeps names distinct and sizes positive |
| ResourcePool.WithoutAppended | pool_manager/app/kubernetes/pools/resource_pool.py:52-64 | popping the node just inserted restores the previous node sequence |
| ResourcePool.SumsOfAppend | pool_manager/app/kubernetes/pools/resource_pool.py:50-52 | appending a node adds its CPU and RAM to the sums |
| ResourcePool.SumsOfPrepend | pool_manager/app/kubernetes/pools/resource_pool.py:50-52 | the sums of a sequence are its first node's sizes plus the sums of the rest |
| ResourcePool.PositiveSums | pool_manager/app/kubernetes/pools/resource_pool.py:43-44 | with positive node sizes the sums are non-negative, and positive when there is a node |
| ResourcePool.NamesOfPrepend | pool_manager/app/kubernetes/pools/resource_pool.py:97-99 | the names of a node sequence are its first node's name plus the names of the rest |
| ResourcePool.Replay | pool_manager/app/kubernetes/pools/resource_pool.py:41-72 | any sequence of adds (with positive sizes) and removes, failed ones included, keeps the ledger invariant |
| ResourcePool.StepKeepsValid | pool_manager/app/kubernetes/pools/resource_pool.py:41-72 | one add or remove, successful or not, keeps the ledger invariant |
| ResourcePool.EventsKeepTotalsNonNegative | pool_manager/app/kubernetes/pools/resource_pool.py:71-72 | after any sequence of node events the totals are never negative |
| PoolRegistry.CreatePool | pool_manager/app/kubernetes/pools/pool_registry.py:16-23 | an existing id fails with PoolAlreadyExists; otherwise exactly that id is added with an empty ledger carrying it and every other entry is kept |
| PoolRegistry.RemovePool | pool_manager/app/kubernetes/pools/pool_registry.py:25-30 | an absent id fails with PoolNotFound; otherwise exactly that key is removed and the rest is kept |
| PoolRegistry.FindPool | pool_manager/app/kubernetes/pools/pool_registry.py:32-40 | the registered ledger is returned iff the id is present, otherwise PoolNotFound |
| PoolRegistry.HasPool | pool_manager/app/kubernetes/pools/pool_registry.py:42-43 | true iff the id is a key |
| PoolRegistry.AddNodeTo | pool_manager/app/kubernetes/pools/pool_registry.py:32-40 | `find_pool(id).add_node(...)`: an absent pool fails with PoolNotFound, a ledger error is passed on, and on success only that pool's ledger changes |
| PoolRegistry.AddNodeToKeepsWellFormed | pool_manager/app/kubernetes/pools/pool_registry.py:32-40 | adding a node through the registry keeps every ledger valid and filed under its own id |
| PoolRegistry.CreateTwice | pool_manager/app/kubernetes/pools/pool_registry.py:18-20 | creating the same pool twice fails the second time and the ledger from the first stays in place |
| PoolRegistry.Pools | pool_manager/app/kubernetes/pools/pool_registry.py:45-47 | one ledger per registered id, each the one filed under its id, no id twice and every id covered |
| PoolHealth.Evaluate | pool_manager/app/util/pool_health.py:5-15 | Error iff the ledger has no nodes; Ok iff it has some and the count equals the expected count; Warning iff it has some and the counts differ |
| PoolHealth.DependsOnlyOnCounts | pool_manager/app/util/pool_health.py:7-8 | two ledger/record pairs with the same actual and expected counts get the same verdict, whatever their CPU, RAM or other fields |
| PoolHealth.ErrorIffNoCapacity | pool_manager/app/util/pool_health.py:10-11 | on a valid ledger the verdict is Error iff the CPU total is zero, iff the RAM total is zero |
| PoolHealth.Examples | pool_manager/app/util/pool_health.py:5-15 | with 3 expected nodes, 0 nodes give Error, 2 give Warning and 3 give Ok |
| Instance.SeedOne | pool_manager/app/kubernetes/pools/instance.py:16-26 | a repeated id fails with PoolAlreadyExists; otherwise the id maps to a ledger holding only the `<name>_node` node sized to the stored totals |
| Instance.SeedSucceedsIff | pool_manager/app/kubernetes/pools/instance.py:15-26 | the seeding loop succeeds iff the listed ids are distinct and not yet registered; a failure names one of the listed ids |
| Instance.SeedContents | pool_manager/app/kubernetes/pools/instance.py:15-26 | after seeding, the keys are the old keys plus the listed ids, and every listed pool has its seeded ledger |
| Instance.IdsOfCons | pool_manager/app/kubernetes/pools/instance.py:15 | the ids of a record list are the first record's id plus the ids of the rest |
| Instance.DistinctIdsOfCons | pool_manager/app/kubernetes/pools/instance.py:15-16 | a record list has distinct ids iff the rest does and the first id does not occur in it |
| Instance.HealthPass | pool_manager/app/kubernetes/pools/instance.py:28-30 | each written record is the listed record with its health replaced by the verdict for its registered ledger, in list order |
| Instance.SeededLedgerIsValid | pool_manager/app/kubernetes/pools/instance.py:22-26 | a seeded ledger satisfies the ledger invariant and has exactly one node |
| Instance.SeededAllWellFormed | pool_manager/app/kubernetes/pools/instance.py:15-26 | a registry holding exactly the seeded ledgers is well formed |
| Instance.IdleAreSeeded | pool_manager/app/kubernetes/pools/instance.py:28-30 | every pool with no operation has a registry entry, so the health loop's `find_pool` cannot fail |
| Instance.RegistryInit | pool_manager/app/kubernetes/pools/instance.py:10-32 | start-up succeeds iff the stored ids are distinct, otherwise it fails with PoolAlreadyExists for a stored id; on success every pool is seeded and exactly the pools with no operation get a health write |
| Instance.StartupLedgers | pool_manager/app/kubernetes/pools/instance.py:22-26 | with distinct stored ids start-up succeeds, and each pool's ledger holds the single node `<name>_node` with CPU and RAM equal to the stored totals |
| Instance.StartupNeverError | pool_manager/app/kubernetes/pools/instance.py:28-30 | with distinct stored ids start-up writes one health per pool with no operation; none is Error, and one is Ok iff the expected node count is 1 |
| Instance.EmptyStartup | pool_manager/app/kubernetes/pools/instance.py:10-32 | with no stored pools the registry is empty and nothing is written |
| Orm.HealthValueRoundTrip | pool_manager/app/database/orm.py:16-19 | the stored health value names exactly one verdict and decodes back to it |
| Orm.OperationTypeValueRoundTrip | pool_manager/app/database/orm.py:33-36 | the stored operation type value names exactly one type and decodes back to it |
| Orm.FieldsMatch | pool_manager/app/database/orm.py:9-13 | true iff every listed field is a declared field, so the empty list matches |
| Orm.PoolFieldsMatch | pool_manager/app/database/orm.py:59-69 | declared pool fields such as `health` and `operation` match; a list with one undeclared name anywhere fails as a whole |
| Orm.MakePaginator | pool_manager/app/database/orm.py:72-77 | the offset is the page number times the page size and the limit is the page size; number and size are kept |
| Orm.PagesAdjacent | pool_manager/app/database/orm.py:76-77 | page n+1 starts where page n ends |
| Orm.PagesDisjoint | pool_manager/app/database/orm.py:76-77 | with a positive page size, an index on one page is on no later page |
| PoolQueries.ViewsMatchPhases | pool_manager/app/database/arangodb/interfaces/pools.py:244-302 | each view is exactly one phase of the record's operation: no operation, scheduled and due, or dispatched; expired pools are at rest |
| PoolQueries.ViewsDisjoint | pool_manager/app/database/arangodb/interfaces/pools.py:262-302 | no record is in two of the in-progress, scheduled and no-operation views |
| PoolQueries.FailedIsInNoView | pool_manager/app/database/arangodb/interfaces/pools.py:244-302 | a record whose operation has an error message is in none of the four views |
| PoolQueries.ScheduledIsStrict | pool_manager/app/database/arangodb/interfaces/pools.py:285 | an operation is not due at the very instant it is scheduled for |
| PoolQueries.Where | pool_manager/app/database/arangodb/interfaces/pools.py:244-302 | a filter keeps every record that passes it, as often as it occurs in the input, and no other record |
| PoolQueries.WhereAppend | pool_manager/app/database/arangodb/interfaces/pools.py:244-302 | filtering a concatenation is the concatenation of the filtered parts, so the filter keeps the input order |
| PoolQueries.WhereLength | pool_manager/app/database/arangodb/interfaces/pools.py:244-302 | the filter keeps exactly as many records as there are matching positions in the input |
| PoolQueries.ListsDisjoint | pool_manager/app/database/arangodb/interfaces/pools.py:240-309 | no record is listed by two reconciliation queries, and every expired record is also listed as having no operation |
| PoolQueries.AvailableIsSharedOrOwn | pool_manager/app/database/arangodb/interfaces/pools.py:122 | for a real user, the available filter is the union of the "shared" filter and that user's filter |
| PoolQueries.SharedSentinelShadowsOwner | pool_manager/app/database/arangodb/interfaces/pools.py:151-161 | a record stored with owner "shared" is matched by no owner filter, not even "shared" |
| PoolQueries.Count | pool_manager/app/database/arangodb/interfaces/pools.py:134-164 | the count is the number of stored records that the owner filter matches; without an owner it is the whole collection |
| PoolQueries.WhereAll | pool_manager/app/database/arangodb/interfaces/pools.py:151-152 | a filter that every record passes returns the collection unchanged |
| PoolQueries.CountAvailable | pool_manager/app/database/arangodb/interfaces/pools.py:116-132 | the count is the number of stored records that are shared or owned by the user |
| PoolQueries.Insert | pool_manager/app/database/arangodb/interfaces/pools.py:173 | inserting a record adds exactly that record to the sequence |
| PoolQueries.InsertSorted | pool_manager/app/database/arangodb/interfaces/pools.py:173 | inserting into a name-descending sequence keeps it name-descending |
| PoolQueries.SortByNameDesc | pool_manager/app/database/arangodb/interfaces/pools.py:173 | the result is a permutation of the input sorted by name descending |
| PoolQueries.Slice | pool_manager/app/database/arangodb/interfaces/pools.py:174 | `LIMIT offset, count` returns the elements from offset up to count of them, and nothing past the end |
| PoolQueries.PagesTile | pool_manager/app/database/arangodb/interfaces/pools.py:174 | two consecutive slices of the same size make up the slice of twice the size |
| PoolQueries.Page | pool_manager/app/database/arangodb/interfaces/pools.py:166-182 | filter, sort by name descending, then `LIMIT offset, count`: the page has min(count, matches - offset) records, each a matching record of the collection, in name-descending order |
| PoolQueries.PageWhole | pool_manager/app/database/arangodb/interfaces/pools.py:166-182 | a page from offset 0 at least as long as the collection holds every matching record with its multiplicity and nothing else |
| PoolQueries.PageContents | pool_manager/app/database/arangodb/interfaces/pools.py:166-182 | at any offset, the page is the slice `[offset, offset + limit)` of a name-descending arrangement of exactly the kept records, each as often as in the collection |
| PoolQueries.PageTile | pool_manager/app/database/arangodb/interfaces/pools.py:166-182 | two consecutive pages of one size together are the page of twice that size, with ties between equal names broken the model's way |
| PoolQueries.SortedArrangementUnique | pool_manager/app/database/arangodb/interfaces/pools.py:173 | a collection whose records have unique names has exactly one name-descending arrangement |
| PoolQueries.PageIndependentOfTies | pool_manager/app/database/arangodb/interfaces/pools.py:166-182 | with unique names among the kept records, a page is the same slice of whatever name-descending arrangement the database picks |
| PoolQueries.SeparateQueriesTile | pool_manager/app/database/arangodb/interfaces/pools.py:166-182 | with unique names among the kept records, two page queries and the double-size query tile even when each orders the records independently, so paging neither skips nor repeats a record |
| PoolQueries.List | pool_manager/app/database/arangodb/interfaces/pools.py:194-216 | the page holds min(limit, matches - offset) records, none past the end, each matching the owner filter and in name-descending order; a first page at least as long as the collection holds every matching record with its multiplicity |
| PoolQueries.ListAvailable | pool_manager/app/database/arangodb/interfaces/pools.py:184-192 | the page holds min(limit, matches - offset) records, each shared or owned by the user and in name-descending order; a first page at least as long as the collection holds every such record with its multiplicity |
| PoolQueries.ListPagesTile | pool_manager/app/database/arangodb/interfaces/pools.py:194-216 | two consecutive owner-filtered pages of one size together are the page of twice that size, with ties between equal names broken the model's way |
| PoolQueries.ListContents | pool_manager/app/database/arangodb/interfaces/pools.py:194-216 | any page is the requested slice of a name-descending arrangement of exactly the owner-matching records, each as often as in the collection |
| PoolQueries.ListAvailablePagesTile | pool_manager/app/database/arangodb/interfaces/pools.py:184-192 | two consecutive pages of available pools of one size together are the page of twice that size, with ties between equal names broken the model's way |
| PoolQueries.ListAvailableContents | pool_manager/app/database/arangodb/interfaces/pools.py:184-192 | any page is the requested slice of a name-descending arrangement of exactly the shared and owned records, each as often as in the collection |
| PoolQueries.OwnerKey | pool_manager/app/database/arangodb/interfaces/pools.py:86-87 | "shared" and only "shared" maps to a null owner |
| PoolQueries.GetByName | pool_manager/app/database/arangodb/interfaces/pools.py:83-95 | a record with that name and (mapped) owner is returned when there is one; PoolNotFound iff there is none |
| Document.Put | pool_manager/app/spec/pool/spec.py:43-56 | a successful write leaves a dict at the root |
| Document.PutSucceedsIff | pool_manager/app/spec/pool/spec.py:43-56 | a write at a path succeeds iff the path's parent exists and is a dict |
| Document.GetPut | pool_manager/app/spec/pool/spec.py:43-56 | after writing x at a path, reading that path gives x |
| Document.GetPutOther | pool_manager/app/spec/pool/spec.py:43-56 | a write changes no path that diverges from the written one |
| Document.PutKeepsPrefixDict | pool_manager/app/spec/pool/spec.py:20-21 | after a write, every proper prefix of the path is still a dict, so references into it stay valid |
| Document.GetPrefix | pool_manager/app/spec/pool/spec.py:20 | if a path resolves, its parent resolves to a dict holding the last key |
| PoolSpec.MakeSpec | pool_manager/app/spec/pool/spec.py:18-22 | a spec is made iff the resources entry is a dict and the taints entry is a list; it starts out of update mode over the same document |
| PoolSpec.Write | pool_manager/app/spec/pool/spec.py:43-56 | writing one path sets it, changes no diverging path and keeps the resources and taints references valid |
| PoolSpec.WriteResource | pool_manager/app/spec/pool/spec.py:49-53 | a write through the resources reference sets that key of `nodeTemplate.resourcesSpec` and nothing else |
| PoolSpec.FindTaint | pool_manager/app/spec/pool/spec.py:34-37 | the index found is the first taint with the key, all taints before it having a key; "none" means every taint has a key and none matches; a failure is at the first taint without a key, before any match |
| PoolSpec.SetNodeTaint | pool_manager/app/spec/pool/spec.py:24-41 | succeeds iff every taint scanned before the first match has a key, and otherwise fails at the first unkeyed one; the first matching taint is merged in place with the length kept, or the taint is appended when none matches; nothing outside the taints changes |
| PoolSpec.TaintReadBack | pool_manager/app/spec/pool/spec.py:24-41 | after a successful call the first taint with the key carries the given value and effect |
| PoolSpec.SetNodeGroupName | pool_manager/app/spec/pool/spec.py:43-44 | sets `name` and nothing else |
| PoolSpec.SetNodeGroupSize | pool_manager/app/spec/pool/spec.py:46-47 | sets `scalePolicy.fixedScale.size` and nothing else; fails with KeyMissing iff the enclosing dict is missing |
| PoolSpec.SetNodeCpu | pool_manager/app/spec/pool/spec.py:49-50 | stores a decimal string that parses back to the core count, and nothing else changes |
| PoolSpec.SetNodeRam | pool_manager/app/spec/pool/spec.py:52-53 | stores a decimal string that parses back to gb * 2^30, and nothing else changes |
| PoolSpec.SetNodeLabel | pool_manager/app/spec/pool/spec.py:55-56 | sets or overwrites one label, keeping the others; fails iff there is no labels dict |
| PoolSpec.UpdateMask | pool_manager/app/spec/pool/spec.py:60-66 | the mask splits on commas into exactly the cores, memory and size paths |
| PoolSpec.SetUpdateMode | pool_manager/app/spec/pool/spec.py:58-69 | writes the fixed mask, nulls `name` and `version`, sets update mode, and changes nothing else |
| PoolSpec.SetUpdateModeIdempotent | pool_manager/app/spec/pool/spec.py:58-69 | setting update mode twice is the same as once |
| PoolSpec.AsDict | pool_manager/app/spec/pool/spec.py:71-77 | fails iff assertions are on, update mode is off and the schema rejects the document; otherwise returns the document unchanged |
| PoolSpec.UpdateModeSkipsValidation | pool_manager/app/spec/pool/spec.py:71-77 | after update mode is set, the document is always returned without validation |
| PoolSpecTemplate.MissingRequired | pool_manager/app/spec/pool/template.py:55-58 | the first absent required path in the checking order, or none when all are present |
| PoolSpecTemplate.NormaliseCollection | pool_manager/app/spec/pool/template.py:31-53 | an unset entry becomes the empty collection, a present one of the right kind is kept, any other value is a parse error naming the key; no other path changes |
| PoolSpecTemplate.Load | pool_manager/app/spec/pool/template.py:62-72 | a load error becomes PoolSpecLoadError; the first missing required path becomes PoolSpecParseError; otherwise it succeeds iff labels and taints are unset or of the right kind, keeping the required paths and normalising the rest |
| PoolSpecTemplate.RequiredStayPut | pool_manager/app/spec/pool/template.py:55-60 | normalising labels and taints leaves the required paths and the resources dict as loaded |
| PoolSpecTemplate.Copy | pool_manager/app/spec/pool/template.py:74-75 | a copy is a well-formed spec over the template's document, out of update mode |
| PoolSpecTemplate.MissingSizeRejected | pool_manager/app/spec/pool/template.py:21-29 | a template with a name but no size is rejected with a parse error naming `scalePolicy.fixedScale.size` |
| PoolSpecTemplate.CopyAcceptsLabels | pool_manager/app/spec/pool/template.py:43-53 | a label can always be set on a copy, because loading guarantees the labels dict |
| DbKeys.DbkeyToId | pool_manager/app/database/arangodb/interfaces/util.py:18-23 | needs `_key`, `_id` and `_rev` and fails on the first one missing; `id` gets the old `_key`, the three are removed and every other key is kept |
| DbKeys.IdToDbkey | pool_manager/app/database/arangodb/interfaces/util.py:26-29 | needs `id`; `_key` gets the old `id`, `id` is removed and every other key is kept |
| DbKeys.RoundTrip | pool_manager/app/database/arangodb/interfaces/util.py:18-29 | renaming to `id` and back gives the document without `_id`, `_rev` and any prior `id` |
| DbKeys.RoundTripWithoutId | pool_manager/app/database/arangodb/interfaces/util.py:18-29 | for a document with no `id`, the round trip only drops `_id` and `_rev` |
| DbKeys.ReverseRoundTrip | pool_manager/app/database/arangodb/interfaces/util.py:18-29 | renaming `id` to `_key`, adding `_id` and `_rev` and renaming back restores the document |
| DateTime.DurationInSecondsAsWritten | pool_manager/app/util/datetime.py:41-58 | succeeds iff the value is digits and one of s, m, h, d (a trailing newline allowed) with digits times 1, 60, 3600 or 86400; a comma unit fails with KeyError |
| DateTime.DurationInSeconds | pool_manager/app/util/datetime.py:41-58 | the same parse with every rejected value failing with the usage error |
| DateTime.CommaUnitRaisesKeyError | pool_manager/app/util/datetime.py:43-57 | "5," passes the pattern and fails the unit lookup; the corrected parser rejects it with the usage error |
| DateTime.CorrectedAgreesElsewhere | pool_manager/app/util/datetime.py:41-58 | apart from the comma unit, the corrected parser behaves exactly as written |
| DateTime.FormatParse | pool_manager/app/util/datetime.py:55-58 | a decimal number followed by a unit parses to the number times the unit's seconds |
| DateTime.Monotone | pool_manager/app/util/datetime.py:55-58 | for a fixed unit, a larger number never gives fewer seconds |
| DateTime.MalformedRejected | pool_manager/app/util/datetime.py:43-46 | the empty string, digits with no unit and trailing text are rejected with the usage error |
| DateTime.ValidateRfc3339 | pool_manager/app/util/datetime.py:30-38 | a string not ending in Z is rejected before parsing; otherwise it is accepted iff it parses |
| ApiUtil.CheckNullable | pool_manager/app/api/util.py:17-23 | fails iff some null field is not nullable, naming the first one; otherwise passes the data through |
| ApiUtil.CheckAtLeastOne | pool_manager/app/api/util.py:25-31 | fails iff every field is null; otherwise passes the data through |
| ApiUtil.OnlyNullableNullFails | pool_manager/app/api/util.py:17-31 | a body whose only field is a nullable key set to null passes the first check and fails the second |
| ApiUtil.RequestPaginator | pool_manager/app/api/util.py:71-76 | accepted iff the page number is at least 0 and the size is between 10 and 200; an accepted page's offset is number times size and its limit is the size |
| ApiUtil.DefaultsAccepted | pool_manager/app/api/util.py:71-76 | the default page 0 of size 100 is accepted with offset 0 and limit 100 |
| ErrorModel.TableCoversNamedCodes | pool_manager/app/api/errors/model.py:7-16 | the table has a message for exactly the eight named codes |
| ErrorModel.LookUpAll | pool_manager/app/api/errors/model.py:26 | every code's message in argument order, or a failure naming the first code missing from the table |
| ErrorModel.ErrorMsg | pool_manager/app/api/errors/model.py:25-27 | succeeds iff every code is in the table, else names the first one that is not; a single code gives exactly its message |
| ErrorModel.JoinAppend | pool_manager/app/api/errors/model.py:27 | joining one more message appends the separator and that message |
| ErrorModel.ErrorMsgAppend | pool_manager/app/api/errors/model.py:25-27 | the messages of codes + [c] are the messages of codes, then `<br>`, then c's message |
| ErrorModel.MakeErrorModel | pool_manager/app/api/errors/model.py:30-35 | for a listed code: that code, its table message and the details unchanged; an unlisted code fails |
| ErrorModel.ErrorBody | pool_manager/app/api/errors/model.py:38-43 | for a listed code, a body with exactly the keys code, message and details; an unlisted code fails |
| ErrorModel.BodyAgreesWithModel | pool_manager/app/api/errors/model.py:30-43 | the body carries the same code, message and details as the error model, and both fail on the same codes |
| Settings.CheckEmptyStrings | pool_manager/app/settings.py:21-30 | fails iff some string value is empty, naming `Class.field` for the first one; other values pass unchanged |
| Settings.UnsetNamesComplete | pool_manager/app/settings.py:67-70 | the reported names are exactly the upper-cased names of the unset fields, and there are none iff every field is set |
| Settings.CheckValuesForProduction | pool_manager/app/settings.py:61-75 | outside "prod" the data passes unchanged; in "prod" it fails iff some field is unset, listing the upper-cased names of all unset fields |
| Settings.ValidateEnvironmentAsWritten | pool_manager/app/settings.py:50-75 | accepted iff the name passes the pattern as `re.match` reads it, no text field is empty and, when the name is exactly "prod", every field is set; the configuration comes back unchanged; a bad name fails with NameNotAllowed |
| Settings.ValidateEnvironment | pool_manager/app/settings.py:50-75 | accepted iff the name is exactly dev, prod or test, no text field is empty and a production configuration has every field set; the configuration comes back unchanged; a bad name fails with NameNotAllowed |
| Settings.ValidatorsAgreeWithoutNewline | pool_manager/app/settings.py:52-65 | the two validations agree on every name that does not end in a newline |
| Settings.ProdWithNewlineSkipsProductionCheck | pool_manager/app/settings.py:52-65 | "prod" followed by a newline is accepted as written with every metadata field unset; the corrected validation rejects it |
| Settings.ParseDelay | pool_manager/app/settings.py:84-86 | a None handed to the validator, like an empty value, becomes "" and fails with the usage error; a value is accepted iff it is digits followed by s, m, h or d (one trailing newline allowed), giving the count times the unit's seconds, zero allowed; digits followed by a comma fail with the lookup error that escapes the validator |
| Settings.ParseInterval | pool_manager/app/settings.py:91-101 | accepted iff the value is accepted as a delay and is positive; a delay failure is passed on unchanged |
| Settings.ZeroDelayButNotInterval | pool_manager/app/settings.py:78-101 | "0s" is a valid delay and an invalid poll interval |
| Settings.CommaDelayEscapes | pool_manager/app/settings.py:78-101 | "5," fails both the delay and the interval with the lookup error rather than a usage error |
| Text.IntToStringRoundTrip | pool_manager/app/spec/pool/spec.py:50 | Python's `str` of an integer parses back to the same integer |
| Text.SplitJoin | pool_manager/app/spec/pool/spec.py:66 | joining comma-free parts with commas and splitting again gives the parts back |
| Text.Upper | pool_manager/app/settings.py:70 | upper-casing keeps the length and maps each character |
| Text.LessTransitive | pool_manager/app/database/arangodb/interfaces/pools.py:173 | the string order used for sorting and time comparison is transitive |
| Text.LessTotal | pool_manager/app/database/arangodb/interfaces/pools.py:173 | any two different strings are ordered one way or the other |

## Left out

- The `spec/base` helpers (`spec_load`, `spec_get_item`, `spec_set_item`, `spec_validate`) are not part of this model. Loading is a `Result` parameter of `PoolSpecTemplate.Load`, and schema validation is a predicate parameter of `PoolSpec.AsDict`.
- Instance.RegistryInit: requires every stored pool to have positive CPU and RAM totals. The source would fail its `add_node` assertion on such a pool; the model excludes that input instead of modelling the crash. This is stronger than the source only when a duplicate id comes before the bad pool, which would raise PoolAlreadyExists first.
- Instance.RegistryInit: the writes to `pool.resources` in the first loop (`nodes_total`, `nodes_avail`, `cpu_avail`, `ram_avail`) are not modelled. They change the in-memory record only, are never persisted, and the health loop re-reads the records.
- The database round trips of `pool_registry_init` (`list_internal`, `list_no_operations`, `update`) are modelled as the input list and the list of written records.
- PoolRegistry.Pools: states which ledgers are returned but not their order, because a Dafny map has no iteration order.
- PoolSpecTemplate.Copy: the deep copy is the identity on immutable values. That copies never alias holds by construction rather than by a proof.
- PoolSpec.MakeSpec: rejects a document whose resources entry is not a dict or whose taints entry is not a list. The source would construct the object and fail at the first mutation that uses the reference.
- PoolSpecTemplate.Load: the source looks up `name` and `nodeLabels`/`nodeTaints` with the same single-key `spec_get_item` call, whose behaviour on a missing key is not part of this model. The model follows the documented template contract: a missing required path fails and a missing labels or taints entry is normalised. If the helper returns `None` for a missing key, the source would accept a template without `name`; if it raises, a template without `nodeLabels` would be rejected.
- PoolQueries.PageTile, PoolQueries.ListPagesTile, PoolQueries.ListAvailablePagesTile: the model breaks ties between equal names by collection order, while AQL's `SORT pool.name DESC` leaves their order open and each page is a separate query. Names are not unique across owners, so tiling across separate queries is promised only when the kept records have unique names (PoolQueries.SeparateQueriesTile).
- PoolQueries.SortByNameDesc, Text.Less, PoolQueries.Elapsed: compare strings by code point. AQL compares strings with its ICU collation, which can order names that differ in case or accents differently. For timestamps written in one fixed ISO-8601 format the first difference is between two digits, where both orders agree.
- PoolSpec.SetNodeTaint: a taint element without a `key` is an error (`MalformedTaint`). The source's `taint["key"]` would raise KeyError or TypeError there.
- ResourcePool.RemoveNode: requires the non-negativity assertions after the subtraction to hold. They do hold on every ledger that satisfies the invariant (ResourcePool.ValidAllowsRemoval).
- Logging, the exception class hierarchies and their messages are not modelled. Errors are constructors of `Result` types carrying the data the messages mention.
- `maybe_unknown_error`, `maybe_not_found`, `maybe_already_exists` and the `aql_delete_*` functions in `interfaces/util.py` translate driver exceptions or build queries for collections that do not exist. They are not modelled.
- AQL execution, cursors and `DATE_NOW()` are not modelled. "now" is a parameter and the collection is a sequence of records. `list_internal` is the identity on that sequence.
- `from_rfc3339`, `rfc3339` and the `date_*` helpers depend on the datetime library. `ValidateRfc3339` takes the parse verdict as a parameter.
- Settings: reading environment variables and `.env` files, URL validation, `DatabaseSettings`, `YandexCloudAPISettings` and `PoolNodeSettings` are not modelled. `CpuResources`/`RamResources` are not part of this model.
- Settings.CheckEmptyStrings, Settings.ValidateEnvironment: report the first error only, where pydantic gathers every field error of a model.
- Settings.ParseDelay, Settings.ParseInterval: an absent environment variable fails in the source with pydantic's required-field error, and `validate_delay` is never called because it is not declared `always=True`. The model folds that case into `BadDuration(Usage)`. Both are validation errors; only the escaping `KeyError` differs in kind.
- ApiUtil.RequestPaginator: reports only `PageNumTooSmall` when the page number and the page size are both out of range, where FastAPI reports both query errors in one 422 response.
- DbKeys.DbkeyToId: `dbkey_to_id` edits its argument in place, so a missing `_id` or `_rev` leaves the caller's dict with `id` already set and `_key` already deleted. The `Failure` result does not carry that partial state; no caller reuses the dict after the error.
- The HTTP handlers, the application wiring and the SSE client are not modelled.
- Digits are ASCII only, where Python's `\d` also accepts other Unicode decimal digits. Upper-casing is ASCII only.
- Concurrency between the API and the reconciliation loops on the shared registry is not modelled.

## Findings

| source | as written | input that shows it | evidently intended | confidence | as-written member | corrected member |
|---|---|---|---|---|---|---|
| pool_manager/app/util/datetime.py:43-57 | the unit class `[s,m,h,d]` also admits a comma, which has no entry in the unit table | "5," passes the pattern and raises KeyError instead of the usage ValueError | the class `[smhd]`, so every malformed value gets the usage error | not executed | DateTime.DurationInSecondsAsWritten (DateTime.CommaUnitRaisesKeyError) | DateTime.DurationInSeconds |
| pool_manager/app/settings.py:52-65 | the anchored name pattern for dev, prod or test is applied with `re.match`, whose `$` also matches before a final newline, and the production check compares the name with "prod" exactly | ENVIRONMENT="prod\n" is accepted and skips the production check, so a production service starts without its build metadata | the name must be exactly dev, prod or test, and a production configuration must have every field set | not executed | Settings.ValidateEnvironmentAsWritten (Settings.ProdWithNewlineSkipsProductionCheck) | Settings.ValidateEnvironment |
