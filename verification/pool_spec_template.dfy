/** Loading of the node-group template (`spec/pool/template.py`).
    Reading and parsing the file (`spec_load`) is not part of this model:
    its outcome is the parameter `loaded`, either the parsed document or
    the load error's message. The path lookups of the base spec helpers are
    modelled by `Document.Get`: a required path that is absent is a parse
    error naming that path, while an absent or null `nodeLabels` /
    `nodeTaints` is filled in with an empty collection. */
module PoolSpecTemplate {
  import opened Wrappers
  import opened Document
  import opened PoolSpec

  datatype Template = Template(root: Value)

  datatype TemplateError =
    | PoolSpecLoadError(message: string)
    | PoolSpecParseError(key: string, message: string)

  /** The required paths, in the order `_spec_init` checks them. */
  const RequiredPaths: seq<Path> := [NamePath, SizePath, CoresPath, MemoryPath]

  function DottedName(p: Path): string
  {
    if |p| == 0 then "" else if |p| == 1 then p[0] else p[0] + "." + DottedName(p[1..])
  }

  predicate Present(root: Value, p: Path) { Get(root, p).Some? }

  /** Absent or null: the source's `is None` test on the lookup. */
  predicate Unset(root: Value, p: Path) { Get(root, p).None? || Get(root, p).value.Null? }

  /** The first required path that is absent, checked in order. */
  function MissingRequired(root: Value, from: nat): (r: Option<Path>)
    requires from <= |RequiredPaths|
    ensures r.None? <==> forall k :: from <= k < |RequiredPaths| ==> Present(root, RequiredPaths[k])
    ensures r.Some? ==>
      exists k :: && from <= k < |RequiredPaths|
                  && r.value == RequiredPaths[k]
                  && !Present(root, RequiredPaths[k])
                  && (forall j :: from <= j < k ==> Present(root, RequiredPaths[j]))
    decreases |RequiredPaths| - from
  {
    if from == |RequiredPaths| then None
    else if !Present(root, RequiredPaths[from]) then Some(RequiredPaths[from])
    else MissingRequired(root, from + 1)
  }

  /** `_spec_init_node_labels` / `_spec_init_node_taints`: keep a value of
      the right kind, fill an unset one with `empty`, reject anything else. */
  function NormaliseCollection(root: Value, key: string, isKind: Value -> bool, empty: Value, message: string)
    : (r: Result<Value, TemplateError>)
    requires root.Dict? && isKind(empty)
    ensures r.Failure? <==> !Unset(root, [key]) && !isKind(Get(root, [key]).value)
    ensures r.Failure? ==> r.error == PoolSpecParseError(key, message)
    ensures r.Success? ==> r.value.Dict? && Get(r.value, [key]).Some? && isKind(Get(r.value, [key]).value)
    ensures r.Success? && !Unset(root, [key]) ==> r.value == root
    ensures r.Success? && Unset(root, [key]) ==> Get(r.value, [key]) == Some(empty)
    ensures r.Success? ==> forall q :: Diverge([key], q) ==> Get(r.value, q) == Get(root, q)
  {
    var current := Get(root, [key]);
    if !Unset(root, [key]) then
      if isKind(current.value) then Success(root) else Failure(PoolSpecParseError(key, message))
    else
      var r := Put(root, [key], empty).value;
      GetPut(root, [key], empty);
      forall q | Diverge([key], q) ensures Get(r, q) == Get(root, q) {
        GetPutOther(root, [key], empty, q);
      }
      Success(r)
  }

  /** `PoolSpecTemplate(template_file)`. */
  function Load(loaded: Result<Value, string>): (r: Result<Template, TemplateError>)
    ensures loaded.Failure? ==> r == Failure(PoolSpecLoadError(loaded.error))
    ensures loaded.Success? && MissingRequired(loaded.value, 0).Some? ==>
      r == Failure(PoolSpecParseError(DottedName(MissingRequired(loaded.value, 0).value), "missing"))
    ensures r.Success? ==>
      && loaded.Success? && TemplateValid(r.value)
      && (forall k :: 0 <= k < |RequiredPaths| ==> Get(r.value.root, RequiredPaths[k]) == Get(loaded.value, RequiredPaths[k]))
      && (!Unset(loaded.value, LabelsPath) ==> Get(r.value.root, LabelsPath) == Get(loaded.value, LabelsPath))
      && (Unset(loaded.value, LabelsPath) ==> Get(r.value.root, LabelsPath) == Some(Dict(map[])))
      && (!Unset(loaded.value, TaintsPath) ==> Get(r.value.root, TaintsPath) == Get(loaded.value, TaintsPath))
      && (Unset(loaded.value, TaintsPath) ==> Get(r.value.root, TaintsPath) == Some(List([])))
    ensures loaded.Success? && MissingRequired(loaded.value, 0).None? ==>
      (r.Success? <==>
        && (Unset(loaded.value, LabelsPath) || Get(loaded.value, LabelsPath).value.Dict?)
        && (Unset(loaded.value, TaintsPath) || Get(loaded.value, TaintsPath).value.List?))
  {
    match loaded
    case Failure(msg) => Failure(PoolSpecLoadError(msg))
    case Success(root) =>
      match MissingRequired(root, 0)
      case Some(p) => Failure(PoolSpecParseError(DottedName(p), "missing"))
      case None =>
        assert Present(root, RequiredPaths[0]);
        assert root.Dict?;
        match NormaliseCollection(root, "nodeLabels", (v: Value) => v.Dict?, Dict(map[]), "Item 'labels' must be dict")
        case Failure(e) => Failure(e)
        case Success(labelled) =>
          match NormaliseCollection(labelled, "nodeTaints", (v: Value) => v.List?, List([]), "Item 'taints' must be list")
          case Failure(e) => Failure(e)
          case Success(full) =>
            RequiredStayPut(root, labelled, full);
            assert Get(full, LabelsPath) == Get(labelled, LabelsPath);
            assert Get(labelled, TaintsPath) == Get(root, TaintsPath);
            Success(Template(full))
  }

  lemma RequiredStayPut(root: Value, labelled: Value, full: Value)
    requires forall q :: Diverge(LabelsPath, q) ==> Get(labelled, q) == Get(root, q)
    requires forall q :: Diverge(TaintsPath, q) ==> Get(full, q) == Get(labelled, q)
    requires forall k :: 0 <= k < |RequiredPaths| ==> Present(root, RequiredPaths[k])
    ensures forall k :: 0 <= k < |RequiredPaths| ==> Get(full, RequiredPaths[k]) == Get(root, RequiredPaths[k])
    ensures Get(full, ResourcesPath).Some? && Get(full, ResourcesPath).value.Dict?
  {
    forall k | 0 <= k < |RequiredPaths|
      ensures Get(full, RequiredPaths[k]) == Get(root, RequiredPaths[k])
    {
      assert Diverge(LabelsPath, RequiredPaths[k]) && Diverge(TaintsPath, RequiredPaths[k]);
    }
    assert CoresPath == ResourcesPath + ["cores"];
    assert RequiredPaths[2] == CoresPath;
    assert Present(full, CoresPath);
    GetPrefix(full, ResourcesPath, "cores");
  }

  /** What a loaded template guarantees: the required paths are there, the
      labels are a dict and the taints a list. */
  predicate TemplateValid(t: Template)
  {
    && t.root.Dict?
    && (forall k :: 0 <= k < |RequiredPaths| ==> Present(t.root, RequiredPaths[k]))
    && Get(t.root, ResourcesPath).Some? && Get(t.root, ResourcesPath).value.Dict?
    && Get(t.root, LabelsPath).Some? && Get(t.root, LabelsPath).value.Dict?
    && Get(t.root, TaintsPath).Some? && Get(t.root, TaintsPath).value.List?
  }

  /** `copy`: a fresh spec over a deep copy of the template. Documents are
      values here, so a copy shares nothing that a later mutation could
      change in the template or in another copy. */
  function Copy(t: Template): (s: Spec)
    requires TemplateValid(t)
    ensures WellFormed(s) && !s.updateMode
    ensures s.root == t.root
    ensures MakeSpec(t.root) == Success(s)
  {
    Spec(t.root, false)
  }

  /** A template missing the fixed-scale size fails to load with a parse
      error naming that path, once the name is present. */
  lemma MissingSizeRejected(root: Value)
    requires Present(root, NamePath) && !Present(root, SizePath)
    ensures Load(Success(root)) == Failure(PoolSpecParseError("scalePolicy.fixedScale.size", "missing"))
  {
    assert RequiredPaths[0] == NamePath && RequiredPaths[1] == SizePath;
    assert MissingRequired(root, 0) == Some(SizePath);
    assert SizePath[1..] == ["fixedScale", "size"] && SizePath[1..][1..] == ["size"];
    assert DottedName(["size"]) == "size";
    assert DottedName(["fixedScale", "size"]) == "fixedScale.size";
    assert DottedName(SizePath) == "scalePolicy.fixedScale.size";
  }

  /** The labels of every copy of a loaded template are a dict, so
      `set_node_label` on a fresh copy always succeeds. */
  lemma CopyAcceptsLabels(t: Template, key: string, value: string)
    requires TemplateValid(t)
    ensures SetNodeLabel(Copy(t), key, value).Success?
  {
  }
}
