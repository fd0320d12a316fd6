/** Renaming between the database's document key and the model's `id`
    (`database/arangodb/interfaces/util.py`). Documents are maps from field
    name to value; a `del` or read of an absent key is a `KeyError`. */
module DbKeys {
  import opened Wrappers

  datatype KeyError = KeyError(key: string)

  /** `dbkey_to_id`: `id` takes the value of `_key`; `_key`, `_id` and
      `_rev` are deleted, in that order. */
  function DbkeyToId<V>(d: map<string, V>): (r: Result<map<string, V>, KeyError>)
    ensures r.Success? <==> "_key" in d && "_id" in d && "_rev" in d
    ensures "_key" !in d ==> r == Failure(KeyError("_key"))
    ensures "_key" in d && "_id" !in d ==> r == Failure(KeyError("_id"))
    ensures "_key" in d && "_id" in d && "_rev" !in d ==> r == Failure(KeyError("_rev"))
    ensures r.Success? ==>
      && r.value.Keys == d.Keys - {"_key", "_id", "_rev"} + {"id"}
      && r.value["id"] == d["_key"]
      && forall k :: k in d && k !in {"id", "_key", "_id", "_rev"} ==> r.value[k] == d[k]
  {
    if "_key" !in d then Failure(KeyError("_key"))
    else
      var withId := d["id" := d["_key"]];
      var noKey := withId - {"_key"};
      if "_id" !in noKey then Failure(KeyError("_id"))
      else
        var noId := noKey - {"_id"};
        if "_rev" !in noId then Failure(KeyError("_rev"))
        else Success(noId - {"_rev"})
  }

  /** `id_to_dbkey`: `_key` takes the value of `id`, and `id` is deleted. */
  function IdToDbkey<V>(d: map<string, V>): (r: Result<map<string, V>, KeyError>)
    ensures r.Success? <==> "id" in d
    ensures r.Failure? ==> r.error == KeyError("id")
    ensures r.Success? ==>
      && r.value.Keys == d.Keys - {"id"} + {"_key"}
      && r.value["_key"] == d["id"]
      && forall k :: k in d && k !in {"id", "_key"} ==> r.value[k] == d[k]
  {
    if "id" !in d then Failure(KeyError("id"))
    else Success(d["_key" := d["id"]] - {"id"})
  }

  /** Converting a stored document to the model's form and back gives the
      stored document without `_id` and `_rev` (and without any `id` field
      it may have carried, which the first step overwrites). */
  lemma {:induction false} RoundTrip<V>(d: map<string, V>)
    requires "_key" in d && "_id" in d && "_rev" in d
    ensures DbkeyToId(d).Success?
    ensures IdToDbkey(DbkeyToId(d).value) == Success(d - {"_id", "_rev", "id"})
  {
    var back := IdToDbkey(DbkeyToId(d).value).value;
    var expected := d - {"_id", "_rev", "id"};
    assert back.Keys == expected.Keys;
    forall k | k in back ensures back[k] == expected[k] {
    }
    assert back == expected;
  }

  /** The same round trip, for a stored document with no `id` field of its own. */
  lemma RoundTripWithoutId<V>(d: map<string, V>)
    requires "_key" in d && "_id" in d && "_rev" in d && "id" !in d
    ensures IdToDbkey(DbkeyToId(d).value) == Success(d - {"_id", "_rev"})
  {
    RoundTrip(d);
    assert d - {"_id", "_rev", "id"} == d - {"_id", "_rev"};
  }

  /** The other direction: a model document with an `id` (and no `_key`)
      goes to the database form and, once the database adds `_id` and
      `_rev`, comes back as itself. */
  lemma {:induction false} ReverseRoundTrip<V>(d: map<string, V>, dbId: V, rev: V)
    requires "id" in d && "_key" !in d && "_id" !in d && "_rev" !in d
    ensures IdToDbkey(d).Success?
    ensures DbkeyToId(IdToDbkey(d).value["_id" := dbId]["_rev" := rev]) == Success(d)
  {
    var stored := IdToDbkey(d).value["_id" := dbId]["_rev" := rev];
    var back := DbkeyToId(stored).value;
    assert back.Keys == d.Keys;
    forall k | k in back ensures back[k] == d[k] {
    }
    assert back == d;
  }
}
