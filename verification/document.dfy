/** Loosely typed nested documents (the parsed YAML/JSON node-group
    templates), with the path lookups and path writes the spec code does
    through chained `dict[...]` indexing. */
module Document {
  import opened Wrappers

  datatype Value =
    | Null
    | Bool(b: bool)
    | Int(i: int)
    | Str(s: string)
    | List(items: seq<Value>)
    | Dict(entries: map<string, Value>)

  type Path = seq<string>

  /** Chained lookup; `None` when some segment is missing or is not a dict. */
  function Get(v: Value, path: Path): Option<Value>
    decreases |path|
  {
    if |path| == 0 then Some(v)
    else if v.Dict? && path[0] in v.entries then Get(v.entries[path[0]], path[1..])
    else None
  }

  /** `v[p0][p1]...[pn] = x`: every intermediate key must already exist and
      hold a dict (otherwise Python raises), the last key is created or
      overwritten. */
  function Put(v: Value, path: Path, x: Value): (r: Option<Value>)
    requires |path| >= 1
    ensures r.Some? ==> r.value.Dict?
    decreases |path|
  {
    if !v.Dict? then None
    else if |path| == 1 then Some(Dict(v.entries[path[0] := x]))
    else if path[0] !in v.entries then None
    else
      match Put(v.entries[path[0]], path[1..], x)
      case None => None
      case Some(child) => Some(Dict(v.entries[path[0] := child]))
  }

  /** Two paths that part ways at some segment: writing one never touches the other. */
  predicate Diverge(p: Path, q: Path)
    decreases |p|
  {
    |p| > 0 && |q| > 0 && (p[0] != q[0] || Diverge(p[1..], q[1..]))
  }

  /** A write succeeds exactly when the parent of the last segment is a dict. */
  lemma {:induction false} PutSucceedsIff(v: Value, path: Path, x: Value)
    requires |path| >= 1
    ensures Put(v, path, x).Some? <==>
      (Get(v, path[..|path| - 1]).Some? && Get(v, path[..|path| - 1]).value.Dict?)
    decreases |path|
  {
    if v.Dict? && |path| > 1 && path[0] in v.entries {
      PutSucceedsIff(v.entries[path[0]], path[1..], x);
      assert path[1..][..|path[1..]| - 1] == path[..|path| - 1][1..];
    }
  }

  /** Reading back a successful write gives the written value. */
  lemma {:induction false} GetPut(v: Value, path: Path, x: Value)
    requires |path| >= 1 && Put(v, path, x).Some?
    ensures Get(Put(v, path, x).value, path) == Some(x)
    decreases |path|
  {
    if |path| > 1 {
      GetPut(v.entries[path[0]], path[1..], x);
    }
  }

  /** A write leaves every diverging path as it was. */
  lemma {:induction false} GetPutOther(v: Value, path: Path, x: Value, q: Path)
    requires |path| >= 1 && Put(v, path, x).Some? && Diverge(path, q)
    ensures Get(Put(v, path, x).value, q) == Get(v, q)
    decreases |path|
  {
    if path[0] == q[0] && |path| > 1 {
      GetPutOther(v.entries[path[0]], path[1..], x, q[1..]);
    }
  }

  /** A write below a path leaves the path's value a dict. */
  lemma {:induction false} PutKeepsPrefixDict(v: Value, path: Path, x: Value, q: Path)
    requires |path| >= 1 && Put(v, path, x).Some?
    requires |q| < |path| && q == path[..|q|]
    ensures Get(Put(v, path, x).value, q).Some? && Get(Put(v, path, x).value, q).value.Dict?
    decreases |path|
  {
    if |q| > 0 && |path| > 1 {
      PutKeepsPrefixDict(v.entries[path[0]], path[1..], x, q[1..]);
    }
  }

  /** When a path is present, every proper prefix of it is a dict holding
      the next segment. */
  lemma {:induction false} GetPrefix(v: Value, p: Path, k: string)
    requires Get(v, p + [k]).Some?
    ensures Get(v, p).Some? && Get(v, p).value.Dict? && k in Get(v, p).value.entries
    decreases |p|
  {
    if |p| > 0 {
      assert (p + [k])[1..] == p[1..] + [k];
      GetPrefix(v.entries[p[0]], p[1..], k);
    }
  }
}
