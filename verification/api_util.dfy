/** Request-body and query-parameter checks of the HTTP layer
    (`api/util.py`): the two root validators of partial-update bodies and
    the page number / page size bounds. */
module ApiUtil {
  import opened Wrappers
  import Orm

  /** One key of a request body and its value (`None` for JSON null). */
  datatype Field<V> = Field(name: string, value: Option<V>)

  datatype PartialError =
    | CantBeNull(key: string)   // "<key> can't be null"
    | NoFieldSet                // "At least one field must be set"

  /** The pre-validator: the first key whose value is null and which is not
      listed as nullable is rejected. */
  function CheckNullable<V>(data: seq<Field<V>>, nullable: set<string>): (r: Result<seq<Field<V>>, PartialError>)
    ensures r.Success? <==> forall i :: 0 <= i < |data| && data[i].value.None? ==> data[i].name in nullable
    ensures r.Success? ==> r.value == data
    ensures r.Failure? ==>
      exists i :: && 0 <= i < |data|
                  && data[i].value.None? && data[i].name !in nullable
                  && r.error == CantBeNull(data[i].name)
                  && (forall j :: 0 <= j < i ==> data[j].value.Some? || data[j].name in nullable)
  {
    if |data| == 0 then Success(data)
    else if data[0].value.None? && data[0].name !in nullable then Failure(CantBeNull(data[0].name))
    else
      match CheckNullable(data[1..], nullable)
      case Success(_) => Success(data)
      case Failure(e) =>
        var i :| && 0 <= i < |data[1..]|
                 && data[1..][i].value.None? && data[1..][i].name !in nullable
                 && e == CantBeNull(data[1..][i].name)
                 && (forall j :: 0 <= j < i ==> data[1..][j].value.Some? || data[1..][j].name in nullable);
        assert data[i + 1] == data[1..][i];
        assert forall j :: 1 <= j < i + 1 ==> data[j] == data[1..][j - 1];
        Failure(e)
  }

  /** The post-validator: at least one field value must be non-null. */
  function CheckAtLeastOne<V>(data: seq<Field<V>>): (r: Result<seq<Field<V>>, PartialError>)
    ensures r.Failure? <==> forall i :: 0 <= i < |data| ==> data[i].value.None?
    ensures r.Failure? ==> r.error == NoFieldSet
    ensures r.Success? ==> r.value == data
  {
    if |data| == 0 then Failure(NoFieldSet)
    else if data[0].value.Some? then Success(data)
    else
      match CheckAtLeastOne(data[1..])
      case Success(_) => Success(data)
      case Failure(e) => Failure(e)
  }

  /** A body whose only field is a nullable key set to null passes the
      first check and fails the second. */
  lemma OnlyNullableNullFails<V>(key: string, nullable: set<string>)
    requires key in nullable
    ensures CheckNullable([Field<V>.Field(key, None)], nullable).Success?
    ensures CheckAtLeastOne([Field<V>.Field(key, None)]) == Failure(NoFieldSet)
  {
  }

  const DefaultPageNum: int := 0
  const DefaultPageSize: int := 100
  const MinPageSize: int := 10
  const MaxPageSize: int := 200

  datatype QueryError = PageNumTooSmall | PageSizeOutOfRange

  /** The paginator a request gets after the page-number (`>= 0`) and
      page-size (`10..200`) query checks. */
  function RequestPaginator(pgNum: int, pgSize: int): (r: Result<Orm.Paginator, QueryError>)
    ensures r.Success? <==> pgNum >= 0 && MinPageSize <= pgSize <= MaxPageSize
    ensures pgNum < 0 ==> r == Failure(PageNumTooSmall)
    ensures r.Success? ==>
      && r.value.offset >= 0 && r.value.limit == pgSize
      && r.value.offset == pgNum * r.value.limit
      && r.value.pgNum == pgNum && r.value.pgSize == pgSize
  {
    if pgNum < 0 then Failure(PageNumTooSmall)
    else if !(MinPageSize <= pgSize <= MaxPageSize) then Failure(PageSizeOutOfRange)
    else
      var p := Orm.MakePaginator(pgNum, pgSize);
      Orm.MultiplyMonotone(0, pgNum, pgSize);
      Success(p)
  }

  /** The defaults are accepted and give the first page of one hundred. */
  lemma DefaultsAccepted()
    ensures RequestPaginator(DefaultPageNum, DefaultPageSize)
         == Success(Orm.Paginator(0, 100, 0, 100))
  {
  }
}
