/** The filters, ordering and paging of the pool collection's queries
    (`database/arangodb/interfaces/pools.py`), with the collection as a
    sequence of records and the database clock `DATE_NOW()` as a parameter
    `now` (an ISO-8601 string, compared as a string, strictly). */
module PoolQueries {
  import opened Wrappers
  import opened Orm
  import Text

  // ---------------------------------------------------------------------
  // Operation-phase views

  /** `DATE_ISO8601(DATE_NOW()) > t`: a strict string comparison. */
  predicate Elapsed(now: string, t: string)
  {
    Text.Less(t, now)
  }

  /** `list_operations_in_progress`: operation set, dispatched, not failed. */
  predicate InProgress(p: Pool)
  {
    p.operation.Some? && p.operation.value.ycOperationId.Some? && p.operation.value.errorMsg.None?
  }

  /** `list_operations_scheduled`: operation set, not dispatched, not failed,
      and its time has strictly passed. */
  predicate Scheduled(p: Pool, now: string)
  {
    && p.operation.Some?
    && p.operation.value.ycOperationId.None?
    && p.operation.value.errorMsg.None?
    && Elapsed(now, p.operation.value.scheduledFor)
  }

  /** `list_no_operations`: no operation attached. */
  predicate NoOperation(p: Pool)
  {
    p.operation.None?
  }

  /** `list_expired`: an expiry date is set, no operation is attached, and
      the expiry date has strictly passed. */
  predicate Expired(p: Pool, now: string)
  {
    p.expDate.Some? && p.operation.None? && Elapsed(now, p.expDate.value)
  }

  /** The lifecycle state of a pool's operation, defined independently of
      the query filters. */
  datatype Phase =
    | AtRest      // no operation
    | Waiting     // scheduled, its time not yet passed
    | Due         // scheduled and its time has passed: ready for dispatch
    | Dispatched  // sent to the cloud provider, being polled
    | Failed      // terminal failure, still attached

  function PhaseOf(p: Pool, now: string): Phase
  {
    match p.operation
    case None => AtRest
    case Some(op) =>
      if op.errorMsg.Some? then Failed
      else if op.ycOperationId.Some? then Dispatched
      else if Elapsed(now, op.scheduledFor) then Due
      else Waiting
  }

  /** Each view selects exactly one lifecycle phase; the expiry view selects
      a subset of the at-rest pools. */
  lemma ViewsMatchPhases(p: Pool, now: string)
    ensures NoOperation(p) <==> PhaseOf(p, now) == AtRest
    ensures InProgress(p) <==> PhaseOf(p, now) == Dispatched
    ensures Scheduled(p, now) <==> PhaseOf(p, now) == Due
    ensures Expired(p, now) ==> PhaseOf(p, now) == AtRest
  {
  }

  /** No pool is in two of the in-progress, scheduled and no-operation views. */
  lemma ViewsDisjoint(p: Pool, now: string)
    ensures !(InProgress(p) && Scheduled(p, now))
    ensures !(InProgress(p) && NoOperation(p))
    ensures !(Scheduled(p, now) && NoOperation(p))
  {
    ViewsMatchPhases(p, now);
  }

  /** A failed operation makes its pool invisible to all four views: nothing
      in the reconciliation queries ever picks it up again. */
  lemma FailedIsInNoView(p: Pool, now: string)
    requires p.operation.Some? && p.operation.value.errorMsg.Some?
    ensures !InProgress(p) && !Scheduled(p, now) && !NoOperation(p) && !Expired(p, now)
    ensures PhaseOf(p, now) == Failed
  {
    ViewsMatchPhases(p, now);
  }

  /** A scheduled time equal to "now" is not yet due: the comparison is strict. */
  lemma ScheduledIsStrict(p: Pool)
    requires p.operation.Some?
    ensures !Scheduled(p, p.operation.value.scheduledFor)
  {
    Text.LessIrreflexive(p.operation.value.scheduledFor);
  }

  // ---------------------------------------------------------------------
  // Selection over the collection

  /** `FOR pool IN collection FILTER keep(pool)`: order-preserving selection. */
  function Where(ps: seq<Pool>, keep: Pool -> bool): (r: seq<Pool>)
    ensures |r| <= |ps|
    ensures forall p :: p in r <==> p in ps && keep(p)
    ensures forall p :: multiset(r)[p] == if keep(p) then multiset(ps)[p] else 0
  {
    if |ps| == 0 then []
    else
      assert ps == [ps[0]] + ps[1..];
      if keep(ps[0]) then [ps[0]] + Where(ps[1..], keep)
      else Where(ps[1..], keep)
  }

  /** The positions of the records a filter keeps. */
  function Matching(ps: seq<Pool>, keep: Pool -> bool): set<int>
  {
    set i | 0 <= i < |ps| && keep(ps[i])
  }

  /** Selection distributes over concatenation: the kept records of the
      first part come first, in their original order. */
  lemma {:induction false} WhereAppend(a: seq<Pool>, b: seq<Pool>, keep: Pool -> bool)
    ensures Where(a + b, keep) == Where(a, keep) + Where(b, keep)
    decreases |a|
  {
    if |a| > 0 {
      assert (a + b)[0] == a[0];
      assert (a + b)[1..] == a[1..] + b;
      WhereAppend(a[1..], b, keep);
    } else {
      assert a + b == b;
    }
  }

  /** The kept positions of a sequence with one more record at the end. */
  lemma MatchingSnoc(init: seq<Pool>, last: Pool, keep: Pool -> bool)
    ensures |Matching(init + [last], keep)|
         == |Matching(init, keep)| + (if keep(last) then 1 else 0)
  {
    var ps := init + [last];
    var before := Matching(init, keep);
    var added := if keep(last) then {|init|} else {};
    forall i | i in Matching(ps, keep) ensures i in before + added {
      if i < |init| {
        assert ps[i] == init[i];
      }
    }
    forall i | i in before + added ensures i in Matching(ps, keep) {
      if i < |init| {
        assert ps[i] == init[i];
      }
    }
    assert Matching(ps, keep) == before + added;
    assert |init| !in before;
  }

  /** A selection holds one record per kept position. */
  lemma {:induction false} WhereLength(ps: seq<Pool>, keep: Pool -> bool)
    ensures |Where(ps, keep)| == |Matching(ps, keep)|
    decreases |ps|
  {
    if |ps| == 0 {
      assert Matching(ps, keep) == {};
    } else {
      var init := ps[..|ps| - 1];
      var last := ps[|ps| - 1];
      assert ps == init + [last];
      WhereAppend(init, [last], keep);
      WhereLength(init, keep);
      assert [last][1..] == [];
      assert |Where([last], keep)| == if keep(last) then 1 else 0;
      MatchingSnoc(init, last, keep);
    }
  }

  function ListInProgress(ps: seq<Pool>): seq<Pool> { Where(ps, p => InProgress(p)) }

  function ListScheduled(ps: seq<Pool>, now: string): seq<Pool> { Where(ps, p => Scheduled(p, now)) }

  function ListNoOperations(ps: seq<Pool>): seq<Pool> { Where(ps, p => NoOperation(p)) }

  function ListExpired(ps: seq<Pool>, now: string): seq<Pool> { Where(ps, p => Expired(p, now)) }

  /** The three reconciliation lists never share a record, and every
      expired pool is also listed as having no operation. */
  lemma ListsDisjoint(ps: seq<Pool>, now: string, p: Pool)
    ensures !(p in ListInProgress(ps) && p in ListScheduled(ps, now))
    ensures !(p in ListInProgress(ps) && p in ListNoOperations(ps))
    ensures !(p in ListScheduled(ps, now) && p in ListNoOperations(ps))
    ensures p in ListExpired(ps, now) ==> p in ListNoOperations(ps)
  {
    ViewsDisjoint(p, now);
  }

  // ---------------------------------------------------------------------
  // Owner filters

  /** The owner filter of `count` and `list`: no value matches every pool,
      the literal "shared" matches shared pools (no owner), any other value
      matches pools owned by exactly that user. */
  predicate OwnerMatches(userId: Option<string>, p: Pool)
  {
    match userId
    case None => true
    case Some(u) => if u == "shared" then p.userId.None? else p.userId == Some(u)
  }

  /** The filter of `count_available` and `list_available`: shared, or owned by the user. */
  predicate AvailableTo(user: string, p: Pool)
  {
    p.userId.None? || p.userId == Some(user)
  }

  /** For any real user id other than the sentinel, "available" is the union
      of the shared filter and that user's own filter. */
  lemma AvailableIsSharedOrOwn(user: string, p: Pool)
    requires user != "shared"
    ensures AvailableTo(user, p) <==> OwnerMatches(Some("shared"), p) || OwnerMatches(Some(user), p)
  {
  }

  /** A pool owned by a user literally called "shared" is matched by no
      concrete owner filter: the sentinel shadows that owner. */
  lemma SharedSentinelShadowsOwner(p: Pool, u: string)
    requires p.userId == Some("shared")
    ensures !OwnerMatches(Some(u), p)
  {
  }

  /** The owner filter as a function value, so every query uses the same one. */
  function OwnerFilter(userId: Option<string>): Pool -> bool
  {
    p => OwnerMatches(userId, p)
  }

  function AvailableFilter(user: string): Pool -> bool
  {
    p => AvailableTo(user, p)
  }

  /** `count`: the number of records the owner filter keeps. */
  function Count(ps: seq<Pool>, userId: Option<string>): (n: nat)
    ensures n == |set i | 0 <= i < |ps| && OwnerMatches(userId, ps[i])|
    ensures userId.None? ==> n == |ps|
  {
    var keep := OwnerFilter(userId);
    WhereLength(ps, keep);
    assert Matching(ps, keep) == set i | 0 <= i < |ps| && OwnerMatches(userId, ps[i]);
    if userId.None? then WhereAll(ps, keep); |Where(ps, keep)| else |Where(ps, keep)|
  }

  lemma {:induction false} WhereAll(ps: seq<Pool>, keep: Pool -> bool)
    requires forall p :: p in ps ==> keep(p)
    ensures Where(ps, keep) == ps
  {
    if |ps| > 0 {
      WhereAll(ps[1..], keep);
      assert [ps[0]] + ps[1..] == ps;
    }
  }

  /** `count_available`: the number of records that are shared or the user's own. */
  function CountAvailable(ps: seq<Pool>, user: string): (n: nat)
    ensures n == |set i | 0 <= i < |ps| && AvailableTo(user, ps[i])|
  {
    var keep := AvailableFilter(user);
    WhereLength(ps, keep);
    assert Matching(ps, keep) == set i | 0 <= i < |ps| && AvailableTo(user, ps[i]);
    |Where(ps, keep)|
  }

  // ---------------------------------------------------------------------
  // SORT pool.name DESC, LIMIT offset, limit

  predicate SortedByNameDesc(s: seq<Pool>)
  {
    forall i, j :: 0 <= i < j < |s| ==> !Text.Less(s[i].name, s[j].name)
  }

  function Insert(x: Pool, s: seq<Pool>): (r: seq<Pool>)
    ensures multiset(r) == multiset(s) + multiset{x}
  {
    if |s| == 0 then [x]
    else if !Text.Less(x.name, s[0].name) then [x] + s
    else
      assert s == [s[0]] + s[1..];
      [s[0]] + Insert(x, s[1..])
  }

  lemma {:induction false} InsertSorted(x: Pool, s: seq<Pool>)
    requires SortedByNameDesc(s)
    ensures SortedByNameDesc(Insert(x, s))
  {
    if |s| == 0 {
    } else if !Text.Less(x.name, s[0].name) {
      var r := [x] + s;
      forall i, j | 0 <= i < j < |r| ensures !Text.Less(r[i].name, r[j].name) {
        if i == 0 {
          if j > 1 { Text.AtLeastTransitive(x.name, s[0].name, s[j - 1].name); }
        } else {
          assert r[i] == s[i - 1] && r[j] == s[j - 1];
        }
      }
    } else {
      Text.LessAsymmetric(x.name, s[0].name);
      InsertSorted(x, s[1..]);
      var tail := Insert(x, s[1..]);
      var r := [s[0]] + tail;
      forall i, j | 0 <= i < j < |r| ensures !Text.Less(r[i].name, r[j].name) {
        if i == 0 {
          var y := tail[j - 1];
          assert y in multiset(tail);
          if y != x {
            assert y in multiset(s[1..]);
            var k :| 0 <= k < |s[1..]| && s[1..][k] == y;
            assert s[k + 1] == y;
          }
        } else {
          assert r[i] == tail[i - 1] && r[j] == tail[j - 1];
        }
      }
    }
  }

  /** Pools ordered by name, greatest first (an insertion sort). */
  function SortByNameDesc(s: seq<Pool>): (r: seq<Pool>)
    ensures multiset(r) == multiset(s)
    ensures SortedByNameDesc(r)
  {
    if |s| == 0 then []
    else
      var rest := SortByNameDesc(s[1..]);
      InsertSorted(s[0], rest);
      assert s == [s[0]] + s[1..];
      Insert(s[0], rest)
  }

  /** `LIMIT offset, count`: skip `offset` rows, then keep at most `count`. */
  function Slice(s: seq<Pool>, offset: nat, count: nat): (r: seq<Pool>)
    ensures |r| <= count
    ensures offset <= |s| ==> r == s[offset..if offset + count <= |s| then offset + count else |s|]
    ensures offset >= |s| ==> r == []
  {
    if offset >= |s| then []
    else if offset + count <= |s| then s[offset..offset + count]
    else s[offset..]
  }

  /** Two consecutive slices of the same width tile the double-width slice. */
  lemma PagesTile(s: seq<Pool>, offset: nat, count: nat)
    ensures Slice(s, offset, count) + Slice(s, offset + count, count) == Slice(s, offset, 2 * count)
  {
  }

  /** The length of `LIMIT offset, limit` over `total` rows. */
  function PageLength(total: nat, offset: nat, limit: nat): nat
  {
    if offset >= total then 0
    else if offset + limit <= total then limit
    else total - offset
  }

  /** What a slice of the sorted, filtered records holds. */
  lemma SlicedSortedFacts(ps: seq<Pool>, offset: nat, limit: nat, keep: Pool -> bool)
    ensures var r := Slice(SortByNameDesc(Where(ps, keep)), offset, limit);
      && |r| == PageLength(|Matching(ps, keep)|, offset, limit)
      && (forall p :: p in r ==> p in ps && keep(p))
      && SortedByNameDesc(r)
  {
    var sorted := SortByNameDesc(Where(ps, keep));
    SortedLength(ps, keep);
    SliceMembers(sorted, offset, limit);
    SortedMembers(ps, keep);
    SliceSorted(sorted, offset, limit);
  }

  lemma SortedMembers(ps: seq<Pool>, keep: Pool -> bool)
    ensures forall p :: p in SortByNameDesc(Where(ps, keep)) ==> p in ps && keep(p)
  {
    var selected := Where(ps, keep);
    var sorted := SortByNameDesc(selected);
    forall p | p in sorted ensures p in ps && keep(p) {
      assert multiset(sorted)[p] > 0;
      assert p in multiset(selected);
    }
  }

  lemma SortedLength(ps: seq<Pool>, keep: Pool -> bool)
    ensures |SortByNameDesc(Where(ps, keep))| == |Matching(ps, keep)|
  {
    var selected := Where(ps, keep);
    var sorted := SortByNameDesc(selected);
    WhereLength(ps, keep);
    assert |sorted| == |multiset(sorted)| == |multiset(selected)| == |selected|;
  }

  lemma SliceMembers(s: seq<Pool>, offset: nat, limit: nat)
    ensures forall p :: p in Slice(s, offset, limit) ==> p in s
  {
    var r := Slice(s, offset, limit);
    forall p | p in r ensures p in s {
      var i :| 0 <= i < |r| && r[i] == p;
      assert r[i] == s[offset + i];
    }
  }

  lemma SliceSorted(s: seq<Pool>, offset: nat, limit: nat)
    requires SortedByNameDesc(s)
    ensures SortedByNameDesc(Slice(s, offset, limit))
  {
    var r := Slice(s, offset, limit);
    forall i, j | 0 <= i < j < |r| ensures !Text.Less(r[i].name, r[j].name) {
      assert r[i] == s[offset + i] && r[j] == s[offset + j];
    }
  }

  /** Filter, sort by name descending, then `LIMIT offset, limit`. */
  function Page(ps: seq<Pool>, offset: nat, limit: nat, keep: Pool -> bool): (r: seq<Pool>)
    ensures |r| == PageLength(|Matching(ps, keep)|, offset, limit)
    ensures forall p :: p in r ==> p in ps && keep(p)
    ensures SortedByNameDesc(r)
  {
    SlicedSortedFacts(ps, offset, limit, keep);
    Slice(SortByNameDesc(Where(ps, keep)), offset, limit)
  }

  /** A first page at least as long as the collection holds every kept
      record, as often as the collection does, and nothing else. */
  lemma PageWhole(ps: seq<Pool>, limit: nat, keep: Pool -> bool)
    ensures limit >= |ps| ==>
      forall p :: multiset(Page(ps, 0, limit, keep))[p] == if keep(p) then multiset(ps)[p] else 0
  {
    var selected := Where(ps, keep);
    var sorted := SortByNameDesc(selected);
    assert |sorted| == |multiset(sorted)| == |multiset(selected)| == |selected|;
    if limit >= |ps| {
      assert Slice(sorted, 0, limit) == sorted;
    }
  }

  /** Which records a page holds, at any offset: the page is the slice
      `[offset, offset + limit)` of some name-descending arrangement of
      exactly the kept records. */
  lemma PageContents(ps: seq<Pool>, offset: nat, limit: nat, keep: Pool -> bool)
    ensures exists s: seq<Pool> ::
      && (forall p :: multiset(s)[p] == if keep(p) then multiset(ps)[p] else 0)
      && SortedByNameDesc(s)
      && Page(ps, offset, limit, keep) == Slice(s, offset, limit)
  {
    var s := SortByNameDesc(Where(ps, keep));
    assert Page(ps, offset, limit, keep) == Slice(s, offset, limit);
  }

  /** Each record occurs once and no two records share a name. */
  predicate UniqueNames(m: multiset<Pool>)
  {
    && (forall p :: p in m ==> m[p] == 1)
    && (forall p, q :: p in m && q in m && p.name == q.name ==> p == q)
  }

  lemma SortedTail(s: seq<Pool>)
    requires |s| > 0 && SortedByNameDesc(s)
    ensures SortedByNameDesc(s[1..])
  {
    forall i, j | 0 <= i < j < |s[1..]| ensures !Text.Less(s[1..][i].name, s[1..][j].name) {
      assert s[1..][i] == s[i + 1] && s[1..][j] == s[j + 1];
    }
  }

  /** Two name-descending arrangements of one collection with unique names
      start with the same record: the one with the greatest name. */
  lemma SortedHeadsAgree(s: seq<Pool>, t: seq<Pool>)
    requires |s| > 0 && |t| > 0
    requires multiset(s) == multiset(t) && UniqueNames(multiset(s))
    requires SortedByNameDesc(s) && SortedByNameDesc(t)
    ensures s[0] == t[0]
  {
    var x, y := s[0], t[0];
    assert y in multiset(s) && x in multiset(t);
    var k :| 0 <= k < |s| && s[k] == y;
    var m :| 0 <= m < |t| && t[m] == x;
    Text.LessIrreflexive(x.name);
    assert !Text.Less(x.name, y.name) by { if k > 0 { assert !Text.Less(s[0].name, s[k].name); } }
    assert !Text.Less(y.name, x.name) by { if m > 0 { assert !Text.Less(t[0].name, t[m].name); } }
    if x.name != y.name {
      Text.LessTotal(x.name, y.name);
    }
  }

  lemma UniqueNamesTail(s: seq<Pool>)
    requires |s| > 0 && UniqueNames(multiset(s))
    ensures UniqueNames(multiset(s[1..]))
    ensures multiset(s[1..]) == multiset(s) - multiset{s[0]}
  {
    assert s == [s[0]] + s[1..];
    var rest := multiset(s[1..]);
    forall p | p in rest ensures rest[p] == 1 {
      assert multiset(s)[p] == 1;
    }
  }

  /** With unique names there is only one name-descending arrangement of a
      collection, so the order of tied names is never needed. */
  lemma {:induction false} SortedArrangementUnique(s: seq<Pool>, t: seq<Pool>)
    requires multiset(s) == multiset(t) && UniqueNames(multiset(s))
    requires SortedByNameDesc(s) && SortedByNameDesc(t)
    ensures s == t
    decreases |s|
  {
    SameLength(s, t);
    if |s| > 0 {
      SortedHeadsAgree(s, t);
      UniqueNamesTail(s);
      MultisetTail(t);
      SortedTail(s);
      SortedTail(t);
      SortedArrangementUnique(s[1..], t[1..]);
      SameHeadSameTail(s, t);
    }
  }

  lemma SameHeadSameTail(s: seq<Pool>, t: seq<Pool>)
    requires |s| > 0 && |t| > 0 && s[0] == t[0] && s[1..] == t[1..]
    ensures s == t
  {
    assert s == [s[0]] + s[1..] && t == [t[0]] + t[1..];
  }

  lemma SameLength(s: seq<Pool>, t: seq<Pool>)
    requires multiset(s) == multiset(t)
    ensures |s| == |t|
  {
    assert |s| == |multiset(s)| && |t| == |multiset(t)|;
  }

  lemma MultisetTail(t: seq<Pool>)
    requires |t| > 0
    ensures multiset(t[1..]) == multiset(t) - multiset{t[0]}
  {
    assert t == [t[0]] + t[1..];
  }

  /** When the kept records have unique names, a page is the same slice of
      whatever name-descending arrangement the database picks. */
  lemma PageIndependentOfTies(ps: seq<Pool>, offset: nat, limit: nat, keep: Pool -> bool, s: seq<Pool>)
    requires UniqueNames(multiset(Where(ps, keep)))
    requires multiset(s) == multiset(Where(ps, keep)) && SortedByNameDesc(s)
    ensures Page(ps, offset, limit, keep) == Slice(s, offset, limit)
  {
    SortedArrangementUnique(SortByNameDesc(Where(ps, keep)), s);
  }

  /** Two page queries and the double-size query, each free to order the
      kept records in any name-descending way, tile when names are unique. */
  lemma SeparateQueriesTile(ps: seq<Pool>, offset: nat, limit: nat, keep: Pool -> bool,
                            first: seq<Pool>, second: seq<Pool>, both: seq<Pool>)
    requires UniqueNames(multiset(Where(ps, keep)))
    requires multiset(first) == multiset(Where(ps, keep)) && SortedByNameDesc(first)
    requires multiset(second) == multiset(Where(ps, keep)) && SortedByNameDesc(second)
    requires multiset(both) == multiset(Where(ps, keep)) && SortedByNameDesc(both)
    ensures Slice(first, offset, limit) + Slice(second, offset + limit, limit) == Slice(both, offset, 2 * limit)
  {
    var sorted := SortByNameDesc(Where(ps, keep));
    SortedArrangementUnique(sorted, first);
    SortedArrangementUnique(sorted, second);
    SortedArrangementUnique(sorted, both);
    PagesTile(sorted, offset, limit);
  }

  /** Consecutive pages of the same size make up the page of twice the size. */
  lemma PageTile(ps: seq<Pool>, offset: nat, limit: nat, keep: Pool -> bool)
    ensures Page(ps, offset, limit, keep) + Page(ps, offset + limit, limit, keep)
         == Page(ps, offset, 2 * limit, keep)
  {
    PagesTile(SortByNameDesc(Where(ps, keep)), offset, limit);
  }

  /** PageTile with the second page's offset and the double page's limit
      given as separate values, as two paginators carry them. */
  lemma PageTileAt(ps: seq<Pool>, offset: int, limit: int, nextOffset: int, bothLimit: int, keep: Pool -> bool)
    requires offset >= 0 && limit >= 0 && nextOffset == offset + limit && bothLimit == 2 * limit
    ensures Page(ps, offset, limit, keep) + Page(ps, nextOffset, limit, keep) == Page(ps, offset, bothLimit, keep)
  {
    var sorted := SortByNameDesc(Where(ps, keep));
    assert Page(ps, offset, limit, keep) == Slice(sorted, offset, limit);
    assert Page(ps, nextOffset, limit, keep) == Slice(sorted, nextOffset, limit);
    assert Page(ps, offset, bothLimit, keep) == Slice(sorted, offset, bothLimit);
    SlicesTileAt(sorted, offset, limit, nextOffset, bothLimit);
  }

  /** PagesTile with separately given offsets and limits. */
  lemma SlicesTileAt(s: seq<Pool>, offset: int, limit: int, nextOffset: int, bothLimit: int)
    requires offset >= 0 && limit >= 0 && nextOffset == offset + limit && bothLimit == 2 * limit
    ensures Slice(s, offset, limit) + Slice(s, nextOffset, limit) == Slice(s, offset, bothLimit)
  {
    PagesTile(s, offset, limit);
  }

  /** `list`: the requested page of the owner's records in name-descending
      order; the first page, when large enough, holds all of them. */
  function List(ps: seq<Pool>, pg: Paginator, userId: Option<string>): (r: seq<Pool>)
    requires pg.offset >= 0 && pg.limit >= 0
    ensures |r| == PageLength(|set i | 0 <= i < |ps| && OwnerMatches(userId, ps[i])|, pg.offset, pg.limit)
    ensures forall p :: p in r ==> p in ps && OwnerMatches(userId, p)
    ensures SortedByNameDesc(r)
    ensures pg.offset == 0 && pg.limit >= |ps| ==>
      forall p :: multiset(r)[p] == if OwnerMatches(userId, p) then multiset(ps)[p] else 0
  {
    var keep := OwnerFilter(userId);
    assert Matching(ps, keep) == set i | 0 <= i < |ps| && OwnerMatches(userId, ps[i]);
    PageWhole(ps, pg.limit, keep);
    Page(ps, pg.offset, pg.limit, keep)
  }

  lemma ListIsPage(ps: seq<Pool>, pg: Paginator, userId: Option<string>)
    requires pg.offset >= 0 && pg.limit >= 0
    ensures List(ps, pg, userId) == Page(ps, pg.offset, pg.limit, OwnerFilter(userId))
  {
  }

  /** Any page of `list` is the requested slice of the owner's records,
      arranged by name descending. */
  lemma ListContents(ps: seq<Pool>, pg: Paginator, userId: Option<string>)
    requires pg.offset >= 0 && pg.limit >= 0
    ensures exists s: seq<Pool> ::
      && (forall p :: multiset(s)[p] == if OwnerMatches(userId, p) then multiset(ps)[p] else 0)
      && SortedByNameDesc(s)
      && List(ps, pg, userId) == Slice(s, pg.offset, pg.limit)
  {
    ListIsPage(ps, pg, userId);
    var s := SortByNameDesc(Where(ps, OwnerFilter(userId)));
    assert List(ps, pg, userId) == Slice(s, pg.offset, pg.limit);
  }

  /** Two consecutive `list` pages of one size are the page of twice that size. */
  lemma {:induction false} ListPagesTile(ps: seq<Pool>, pg: Paginator, next: Paginator, both: Paginator, userId: Option<string>)
    requires pg.offset >= 0 && pg.limit >= 0
    requires next.offset == pg.offset + pg.limit && next.limit == pg.limit
    requires both.offset == pg.offset && both.limit == 2 * pg.limit
    ensures List(ps, pg, userId) + List(ps, next, userId) == List(ps, both, userId)
  {
    PageTileAt(ps, pg.offset, pg.limit, next.offset, both.limit, OwnerFilter(userId));
    ListIsPage(ps, pg, userId);
    ListIsPage(ps, next, userId);
    ListIsPage(ps, both, userId);
  }

  /** `list_available`: the requested page of the shared and own records in
      name-descending order; the first page, when large enough, holds all of them. */
  function ListAvailable(ps: seq<Pool>, pg: Paginator, user: string): (r: seq<Pool>)
    requires pg.offset >= 0 && pg.limit >= 0
    ensures |r| == PageLength(|set i | 0 <= i < |ps| && AvailableTo(user, ps[i])|, pg.offset, pg.limit)
    ensures forall p :: p in r ==> p in ps && AvailableTo(user, p)
    ensures SortedByNameDesc(r)
    ensures pg.offset == 0 && pg.limit >= |ps| ==>
      forall p :: multiset(r)[p] == if AvailableTo(user, p) then multiset(ps)[p] else 0
  {
    var keep := AvailableFilter(user);
    assert Matching(ps, keep) == set i | 0 <= i < |ps| && AvailableTo(user, ps[i]);
    PageWhole(ps, pg.limit, keep);
    Page(ps, pg.offset, pg.limit, keep)
  }

  lemma ListAvailableIsPage(ps: seq<Pool>, pg: Paginator, user: string)
    requires pg.offset >= 0 && pg.limit >= 0
    ensures ListAvailable(ps, pg, user) == Page(ps, pg.offset, pg.limit, AvailableFilter(user))
  {
  }

  /** Any page of `list_available` is the requested slice of the shared and
      owned records, arranged by name descending. */
  lemma ListAvailableContents(ps: seq<Pool>, pg: Paginator, user: string)
    requires pg.offset >= 0 && pg.limit >= 0
    ensures exists s: seq<Pool> ::
      && (forall p :: multiset(s)[p] == if AvailableTo(user, p) then multiset(ps)[p] else 0)
      && SortedByNameDesc(s)
      && ListAvailable(ps, pg, user) == Slice(s, pg.offset, pg.limit)
  {
    ListAvailableIsPage(ps, pg, user);
    var s := SortByNameDesc(Where(ps, AvailableFilter(user)));
    assert ListAvailable(ps, pg, user) == Slice(s, pg.offset, pg.limit);
  }

  /** Two consecutive `list_available` pages of one size are the page of twice that size. */
  lemma {:induction false} ListAvailablePagesTile(ps: seq<Pool>, pg: Paginator, next: Paginator, both: Paginator, user: string)
    requires pg.offset >= 0 && pg.limit >= 0
    requires next.offset == pg.offset + pg.limit && next.limit == pg.limit
    requires both.offset == pg.offset && both.limit == 2 * pg.limit
    ensures ListAvailable(ps, pg, user) + ListAvailable(ps, next, user) == ListAvailable(ps, both, user)
  {
    PageTileAt(ps, pg.offset, pg.limit, next.offset, both.limit, AvailableFilter(user));
    ListAvailableIsPage(ps, pg, user);
    ListAvailableIsPage(ps, next, user);
    ListAvailableIsPage(ps, both, user);
  }

  // ---------------------------------------------------------------------
  // get_by_name

  datatype QueryError = PoolNotFound

  /** The owner a `get_by_name` caller means: "shared" stands for no owner. */
  function OwnerKey(userId: string): (o: Option<string>)
    ensures o.None? <==> userId == "shared"
  {
    if userId == "shared" then None else Some(userId)
  }

  /** `get_by_name`: the first record with this name and owner, where the
      owner "shared" means a null owner. */
  function GetByName(ps: seq<Pool>, name: string, userId: string): (r: Result<Pool, QueryError>)
    ensures r.Success? ==> r.value in ps && r.value.name == name && r.value.userId == OwnerKey(userId)
    ensures r.Failure? <==> forall p :: p in ps ==> !(p.name == name && p.userId == OwnerKey(userId))
  {
    var hits := Where(ps, (p: Pool) => p.name == name && p.userId == OwnerKey(userId));
    if |hits| == 0 then Failure(PoolNotFound)
    else
      assert hits[0] in hits;
      Success(hits[0])
  }
}
