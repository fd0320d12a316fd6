/** The mutable node-group request document (`spec/pool/spec.py`). The
    source keeps two aliases into the root, `_resources`
    (`nodeTemplate.resourcesSpec`) and `_taints` (`nodeTaints`); no mutator
    ever replaces the containers they point to, so a write through an alias
    is modelled as a write at the aliased path of the root, and `WellFormed`
    states that both alias targets are still in place. */
module PoolSpec {
  import opened Wrappers
  import opened Document
  import Text

  const NamePath: Path := ["name"]
  const VersionPath: Path := ["version"]
  const UpdateMaskPath: Path := ["updateMask"]
  const SizePath: Path := ["scalePolicy", "fixedScale", "size"]
  const ResourcesPath: Path := ["nodeTemplate", "resourcesSpec"]
  const CoresPath: Path := ["nodeTemplate", "resourcesSpec", "cores"]
  const MemoryPath: Path := ["nodeTemplate", "resourcesSpec", "memory"]
  const LabelsPath: Path := ["nodeLabels"]
  const TaintsPath: Path := ["nodeTaints"]

  /** 2**30 bytes per GiB. */
  const BytesPerGiB: int := 1073741824

  /** The fields a partial update may change, in the order they are listed. */
  const UpdateFields: seq<string> :=
    ["nodeTemplate.resourcesSpec.cores", "nodeTemplate.resourcesSpec.memory", "scalePolicy.fixedScale.size"]

  datatype Spec = Spec(root: Value, updateMode: bool)

  datatype SpecError =
    | KeyMissing(path: Path)          // a `dict[...]` lookup on an absent key or a non-dict
    | MalformedTaint(index: nat)      // a taint before the match has no "key" entry or is not a dict
    | PoolSpecValidationError         // schema validation rejected the full document

  /** What the constructor's two alias lookups leave in place. */
  predicate WellFormed(s: Spec)
  {
    && s.root.Dict?
    && Get(s.root, ResourcesPath).Some? && Get(s.root, ResourcesPath).value.Dict?
    && Get(s.root, TaintsPath).Some? && Get(s.root, TaintsPath).value.List?
  }

  function Taints(s: Spec): seq<Value>
    requires WellFormed(s)
  {
    Get(s.root, TaintsPath).value.items
  }

  /** `PoolSpec(pool_body)`: not in update mode; both alias lookups must succeed. */
  function MakeSpec(body: Value): (r: Result<Spec, SpecError>)
    ensures r.Success? <==> WellFormed(Spec(body, false))
    ensures r.Success? ==> r.value == Spec(body, false)
  {
    var s := Spec(body, false);
    if !(Get(body, ResourcesPath).Some? && Get(body, ResourcesPath).value.Dict?) then Failure(KeyMissing(ResourcesPath))
    else if !(Get(body, TaintsPath).Some? && Get(body, TaintsPath).value.List?) then Failure(KeyMissing(TaintsPath))
    else Success(s)
  }

  /** Write one path of a well-formed spec whose parent is known to exist;
      the resources alias is never touched, and the taints alias only by
      storing another list in its place. */
  function Write(s: Spec, path: Path, x: Value): (r: Spec)
    requires WellFormed(s) && |path| >= 1
    requires Put(s.root, path, x).Some?
    requires Diverge(path, ResourcesPath)
    requires Diverge(path, TaintsPath) || (path == TaintsPath && x.List?)
    ensures WellFormed(r) && r.updateMode == s.updateMode
    ensures Get(r.root, path) == Some(x)
    ensures forall q :: Diverge(path, q) ==> Get(r.root, q) == Get(s.root, q)
  {
    var root := Put(s.root, path, x).value;
    GetPut(s.root, path, x);
    GetPutOther(s.root, path, x, ResourcesPath);
    assert Diverge(path, TaintsPath) ==> Get(root, TaintsPath) == Get(s.root, TaintsPath) by {
      if Diverge(path, TaintsPath) { GetPutOther(s.root, path, x, TaintsPath); }
    }
    forall q | Diverge(path, q) ensures Get(root, q) == Get(s.root, q) {
      GetPutOther(s.root, path, x, q);
    }
    Spec(root, s.updateMode)
  }

  /** Write below the resources alias (`self._resources[key] = x`). */
  function WriteResource(s: Spec, key: string, x: Value): (r: Spec)
    requires WellFormed(s)
    ensures WellFormed(r) && r.updateMode == s.updateMode
    ensures Get(r.root, ResourcesPath + [key]) == Some(x)
    ensures forall q :: Diverge(ResourcesPath + [key], q) ==> Get(r.root, q) == Get(s.root, q)
  {
    var path := ResourcesPath + [key];
    assert path[..|path| - 1] == ResourcesPath;
    PutSucceedsIff(s.root, path, x);
    var root := Put(s.root, path, x).value;
    GetPut(s.root, path, x);
    PutKeepsPrefixDict(s.root, path, x, ResourcesPath);
    GetPutOther(s.root, path, x, TaintsPath);
    forall q | Diverge(path, q) ensures Get(root, q) == Get(s.root, q) {
      GetPutOther(s.root, path, x, q);
    }
    Spec(root, s.updateMode)
  }

  // ---------------------------------------------------------------------
  // Taints

  /** The document of a new taint. */
  function TaintDoc(key: string, value: string, effect: string): Value
  {
    Dict(map["key" := Str(key), "value" := Str(value), "effect" := Str(effect)])
  }

  /** `res.update(taint)`: the three entries are set, any others are kept. */
  function MergeTaint(t: Value, key: string, value: string, effect: string): Value
    requires t.Dict?
  {
    Dict(t.entries["key" := Str(key)]["value" := Str(value)]["effect" := Str(effect)])
  }

  predicate HasKey(t: Value, key: string)
  {
    t.Dict? && "key" in t.entries && t.entries["key"] == Str(key)
  }

  /** A taint on which `taint["key"]` does not raise. */
  predicate Keyed(t: Value)
  {
    t.Dict? && "key" in t.entries
  }

  /** The scan for `key` reads only keyed taints: every taint that no
      earlier taint matches (the match itself included) has a "key" entry. */
  predicate Scannable(taints: seq<Value>, key: string)
  {
    forall j :: 0 <= j < |taints| && (forall k :: 0 <= k < j ==> !HasKey(taints[k], key)) ==> Keyed(taints[j])
  }

  /** `next(filter(name_exists, taints))`: scans in order and evaluates
      `taint["key"]` on every element up to the first match, so an element
      before the match that is not a dict with a "key" entry raises. */
  function FindTaint(taints: seq<Value>, key: string, from: nat): (r: Result<Option<nat>, SpecError>)
    requires from <= |taints|
    ensures r.Success? && r.value.Some? ==>
      from <= r.value.value < |taints| && HasKey(taints[r.value.value], key)
      && forall j :: from <= j < r.value.value ==> Keyed(taints[j]) && !HasKey(taints[j], key)
    ensures r.Success? && r.value.None? ==>
      forall j :: from <= j < |taints| ==> Keyed(taints[j]) && !HasKey(taints[j], key)
    ensures r.Failure? ==>
      && r.error.MalformedTaint?
      && from <= r.error.index < |taints|
      && !Keyed(taints[r.error.index])
      && forall j :: from <= j < r.error.index ==> Keyed(taints[j]) && !HasKey(taints[j], key)
    decreases |taints| - from
  {
    if from == |taints| then Success(None)
    else
      var t := taints[from];
      if !(t.Dict? && "key" in t.entries) then Failure(MalformedTaint(from))
      else if t.entries["key"] == Str(key) then Success(Some(from))
      else FindTaint(taints, key, from + 1)
  }

  /** `set_node_taint`: merge into the first taint with this key, or append. */
  function SetNodeTaint(s: Spec, key: string, value: string, effect: string): (r: Result<Spec, SpecError>)
    requires WellFormed(s)
    ensures r.Success? ==> WellFormed(r.value) && r.value.updateMode == s.updateMode
    ensures r.Success? ==> forall q :: Diverge(TaintsPath, q) ==> Get(r.value.root, q) == Get(s.root, q)
    ensures r.Success? && (forall j :: 0 <= j < |Taints(s)| ==> !HasKey(Taints(s)[j], key)) ==>
      Taints(r.value) == Taints(s) + [TaintDoc(key, value, effect)]
    ensures r.Success? && (exists j :: 0 <= j < |Taints(s)| && HasKey(Taints(s)[j], key)) ==>
      && |Taints(r.value)| == |Taints(s)|
      && exists i :: 0 <= i < |Taints(s)| && HasKey(Taints(s)[i], key)
           && (forall j :: 0 <= j < i ==> !HasKey(Taints(s)[j], key))
           && Taints(r.value) == Taints(s)[i := MergeTaint(Taints(s)[i], key, value, effect)]
    ensures r.Success? <==> Scannable(Taints(s), key)
    ensures r.Failure? ==>
      && r.error.MalformedTaint?
      && 0 <= r.error.index < |Taints(s)|
      && !Keyed(Taints(s)[r.error.index])
      && forall j :: 0 <= j < r.error.index ==> !HasKey(Taints(s)[j], key)
  {
    var taints := Taints(s);
    match FindTaint(taints, key, 0)
    case Failure(e) => Failure(e)
    case Success(found) =>
      var updated :=
        match found
        case Some(i) => taints[i := MergeTaint(taints[i], key, value, effect)]
        case None => taints + [TaintDoc(key, value, effect)];
      PutSucceedsIff(s.root, TaintsPath, List(updated));
      Success(Write(s, TaintsPath, List(updated)))
  }

  /** A taint whose value and effect entries are the given strings. */
  predicate Carries(t: Value, value: string, effect: string)
  {
    && t.Dict?
    && "value" in t.entries && t.entries["value"] == Str(value)
    && "effect" in t.entries && t.entries["effect"] == Str(effect)
  }

  /** After `set_node_taint`, the scan for the key stops at a taint that
      carries the new value and effect. */
  lemma TaintReadBack(s: Spec, key: string, value: string, effect: string)
    requires WellFormed(s) && SetNodeTaint(s, key, value, effect).Success?
    ensures var t := Taints(SetNodeTaint(s, key, value, effect).value);
      exists i :: && 0 <= i < |t| && HasKey(t[i], key) && Carries(t[i], value, effect)
                  && forall j :: 0 <= j < i ==> !HasKey(t[j], key)
  {
    var before := Taints(s);
    var t := Taints(SetNodeTaint(s, key, value, effect).value);
    if exists j :: 0 <= j < |before| && HasKey(before[j], key) {
      var i :| && 0 <= i < |before| && HasKey(before[i], key)
               && (forall j :: 0 <= j < i ==> !HasKey(before[j], key))
               && t == before[i := MergeTaint(before[i], key, value, effect)];
      assert HasKey(t[i], key) && Carries(t[i], value, effect);
      assert forall j :: 0 <= j < i ==> t[j] == before[j];
    } else {
      assert t == before + [TaintDoc(key, value, effect)];
      assert HasKey(t[|before|], key) && Carries(t[|before|], value, effect);
      assert forall j :: 0 <= j < |before| ==> t[j] == before[j];
    }
  }

  // ---------------------------------------------------------------------
  // The scalar mutators

  /** `set_node_group_name`. */
  function SetNodeGroupName(s: Spec, name: string): (r: Spec)
    requires WellFormed(s)
    ensures WellFormed(r) && r.updateMode == s.updateMode
    ensures Get(r.root, NamePath) == Some(Str(name))
    ensures forall q :: Diverge(NamePath, q) ==> Get(r.root, q) == Get(s.root, q)
  {
    Write(s, NamePath, Str(name))
  }

  /** `set_node_group_size`: `scalePolicy.fixedScale` must already exist. */
  function SetNodeGroupSize(s: Spec, count: int): (r: Result<Spec, SpecError>)
    requires WellFormed(s)
    ensures r.Success? <==> Get(s.root, SizePath[..2]).Some? && Get(s.root, SizePath[..2]).value.Dict?
    ensures r.Failure? ==> r.error == KeyMissing(SizePath[..2])
    ensures r.Success? ==>
      && WellFormed(r.value) && r.value.updateMode == s.updateMode
      && Get(r.value.root, SizePath) == Some(Int(count))
      && forall q :: Diverge(SizePath, q) ==> Get(r.value.root, q) == Get(s.root, q)
  {
    PutSucceedsIff(s.root, SizePath, Int(count));
    assert SizePath[..|SizePath| - 1] == SizePath[..2];
    if Put(s.root, SizePath, Int(count)).None? then Failure(KeyMissing(SizePath[..2]))
    else Success(Write(s, SizePath, Int(count)))
  }

  /** `set_node_cpu`: the core count is stored as its decimal string, which
      reads back as the same integer. */
  function SetNodeCpu(s: Spec, cores: int): (r: Spec)
    requires WellFormed(s)
    ensures WellFormed(r) && r.updateMode == s.updateMode
    ensures Get(r.root, CoresPath).Some? && Get(r.root, CoresPath).value.Str?
    ensures Text.ParseInt(Get(r.root, CoresPath).value.s) == Some(cores)
    ensures forall q :: Diverge(CoresPath, q) ==> Get(r.root, q) == Get(s.root, q)
  {
    Text.IntToStringRoundTrip(cores);
    assert ResourcesPath + ["cores"] == CoresPath;
    WriteResource(s, "cores", Str(Text.IntToString(cores)))
  }

  /** `set_node_ram`: GiB converted to bytes, stored as a decimal string. */
  function SetNodeRam(s: Spec, gb: int): (r: Spec)
    requires WellFormed(s)
    ensures WellFormed(r) && r.updateMode == s.updateMode
    ensures Get(r.root, MemoryPath).Some? && Get(r.root, MemoryPath).value.Str?
    ensures Text.ParseInt(Get(r.root, MemoryPath).value.s) == Some(gb * BytesPerGiB)
    ensures forall q :: Diverge(MemoryPath, q) ==> Get(r.root, q) == Get(s.root, q)
  {
    Text.IntToStringRoundTrip(gb * BytesPerGiB);
    assert ResourcesPath + ["memory"] == MemoryPath;
    WriteResource(s, "memory", Str(Text.IntToString(gb * BytesPerGiB)))
  }

  /** `set_node_label`: `nodeLabels` must be a dict; one key is set or
      replaced and every other label is kept. */
  function SetNodeLabel(s: Spec, key: string, value: string): (r: Result<Spec, SpecError>)
    requires WellFormed(s)
    ensures r.Success? <==> Get(s.root, LabelsPath).Some? && Get(s.root, LabelsPath).value.Dict?
    ensures r.Failure? ==> r.error == KeyMissing(LabelsPath + [key])
    ensures r.Success? ==>
      && WellFormed(r.value) && r.value.updateMode == s.updateMode
      && Get(r.value.root, LabelsPath) == Some(Dict(Get(s.root, LabelsPath).value.entries[key := Str(value)]))
      && forall q :: Diverge(LabelsPath, q) ==> Get(r.value.root, q) == Get(s.root, q)
  {
    var labels := Get(s.root, LabelsPath);
    if !(labels.Some? && labels.value.Dict?) then Failure(KeyMissing(LabelsPath + [key]))
    else
      var updated := Dict(labels.value.entries[key := Str(value)]);
      Success(Write(s, LabelsPath, updated))
  }

  // ---------------------------------------------------------------------
  // Partial-update mode and export

  /** The update mask written by `set_update_mode`. */
  function UpdateMask(): (m: string)
    ensures Text.Split(m, ',') == UpdateFields
  {
    assert forall i :: 0 <= i < |UpdateFields| ==> ',' !in UpdateFields[i];
    Text.SplitJoin(UpdateFields, ',');
    Text.Join(UpdateFields, ',')
  }

  /** `set_update_mode`: mask the mutable fields, clear the identity fields,
      and turn full validation off. */
  function SetUpdateMode(s: Spec): (r: Spec)
    requires WellFormed(s)
    ensures WellFormed(r) && r.updateMode
    ensures Get(r.root, UpdateMaskPath).Some? && Get(r.root, UpdateMaskPath).value.Str?
    ensures Text.Split(Get(r.root, UpdateMaskPath).value.s, ',') == UpdateFields
    ensures Get(r.root, NamePath) == Some(Null) && Get(r.root, VersionPath) == Some(Null)
    ensures forall q :: Diverge(UpdateMaskPath, q) && Diverge(VersionPath, q) && Diverge(NamePath, q) ==>
      Get(r.root, q) == Get(s.root, q)
  {
    var masked := Write(s, UpdateMaskPath, Str(UpdateMask()));
    var unversioned := Write(masked, VersionPath, Null);
    var unnamed := Write(unversioned, NamePath, Null);
    unnamed.(updateMode := true)
  }

  /** Entering update mode twice is the same as entering it once. */
  lemma SetUpdateModeIdempotent(s: Spec)
    requires WellFormed(s)
    ensures SetUpdateMode(SetUpdateMode(s)) == SetUpdateMode(s)
  {
    var e := s.root.entries;
    var once := SetUpdateMode(s).root;
    assert once == Dict(e["updateMask" := Str(UpdateMask())]["version" := Null]["name" := Null]);
    var twice := SetUpdateMode(SetUpdateMode(s)).root;
    assert twice.entries == once.entries;
  }

  /** `as_dict`: with assertions enabled (`debug`) and outside update mode
      the full document is schema-validated first; the root itself is what
      is returned. The schema check is a parameter. */
  function AsDict(s: Spec, debug: bool, schemaAccepts: Value -> bool): (r: Result<Value, SpecError>)
    ensures r.Failure? <==> debug && !s.updateMode && !schemaAccepts(s.root)
    ensures r.Failure? ==> r.error == PoolSpecValidationError
    ensures r.Success? ==> r.value == s.root
  {
    if debug && !s.updateMode && !schemaAccepts(s.root) then Failure(PoolSpecValidationError)
    else Success(s.root)
  }

  /** A document in update mode is always exported, whatever the schema says. */
  lemma UpdateModeSkipsValidation(s: Spec, debug: bool, schemaAccepts: Value -> bool)
    requires WellFormed(s)
    ensures AsDict(SetUpdateMode(s), debug, schemaAccepts) == Success(SetUpdateMode(s).root)
  {
  }
}
