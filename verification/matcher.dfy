/**
 The match decision of `MOFParser.is_mainfile` (src/nomad_mof/parser.py): given the base
 matcher's verdict, the optional `filename` argument and the outcome of `json.load`, either
 declare the structure file named under `mof_atoms.structure_file` as the one child file and
 switch `creates_children` on, or fall back to the base verdict. Every exception raised inside
 the `try` block is swallowed.
 */
module Matcher {
  import opened Wrappers

  /** A JSON value as `json.load` returns it: objects become dicts keyed by string. */
  datatype Json =
    | JNull
    | JBool(b: bool)
    | JNumber(n: real)
    | JString(s: string)
    | JArray(items: seq<Json>)
    | JObject(fields: map<string, Json>)

  /**
   Python truthiness of the value `json.load` produced: the falsy values are exactly `null`,
   `false`, zero, the empty string, the empty list and the empty object.
   */
  predicate Truthy(j: Json): (t: bool)
    ensures !t <==>
      (j == JNull || j == JBool(false) || j == JNumber(0.0)
       || j == JString("") || j == JArray([]) || j == JObject(map[]))
  {
    match j
    case JNull => false
    case JBool(b) => b
    case JNumber(n) => n != 0.0
    case JString(s) => |s| > 0
    case JArray(items) => |items| > 0
    case JObject(fields) => |fields| > 0
  }

  /** The exceptions the `try` block can raise. */
  datatype PyError =
    | LoadFailed      // `json.load(filename)` raised, whatever the cause
    | AttributeError  // `.get` called on a value that is not a dict

  /** Either the value an expression evaluated to, or the exception it raised. */
  datatype Eval<+T> = Value(value: T) | Raised(error: PyError)

  /** `obj.get(key, default)`: only dicts have `.get`; anything else raises. */
  function DictGet(obj: Json, key: string, default: Json): (r: Eval<Json>)
    ensures r.Raised? <==> !obj.JObject?
    ensures r.Raised? ==> r.error == AttributeError
    ensures r.Value? && key in obj.fields ==> r.value == obj.fields[key]
    ensures r.Value? && key !in obj.fields ==> r.value == default
  {
    match obj
    case JObject(fields) => Value(if key in fields then fields[key] else default)
    case _ => Raised(AttributeError)
  }

  /** `json.load(filename).get("mof_atoms", {}).get("structure_file")`. */
  function EvalStructureFile(load: Option<Json>): (r: Eval<Json>)
    // An exception escapes the lookups exactly when the load fails or a `.get` meets a non-dict.
    ensures r.Raised? <==>
      (load.None? || !load.value.JObject?
       || ("mof_atoms" in load.value.fields && !load.value.fields["mof_atoms"].JObject?))
    ensures r.Raised? ==> (r.error == LoadFailed <==> load.None?)
    // A truthy value comes back exactly when the document declares a structure file.
    ensures (r.Value? && Truthy(r.value)) <==> load.Some? && DeclaredStructureFile(load.value).Some?
    ensures r.Value? && Truthy(r.value) ==> r.value == DeclaredStructureFile(load.value).value
  {
    match load
    case None => Raised(LoadFailed)
    case Some(data) =>
      match DictGet(data, "mof_atoms", JObject(map[]))
      case Raised(e) => Raised(e)
      case Value(atoms) => DictGet(atoms, "structure_file", JNull)
  }

  /**
   The structure file a loaded document declares, read off its shape: the document is an object
   with a `mof_atoms` object holding a truthy `structure_file`.
   */
  function DeclaredStructureFile(data: Json): Option<Json>
  {
    if data.JObject? && "mof_atoms" in data.fields
      && data.fields["mof_atoms"].JObject? && "structure_file" in data.fields["mof_atoms"].fields
      && Truthy(data.fields["mof_atoms"].fields["structure_file"])
    then Some(data.fields["mof_atoms"].fields["structure_file"])
    else None
  }

  /** What `is_mainfile` returns: the base verdict, or the list of child files. */
  datatype Match = BaseVerdict(verdict: bool) | Children(files: seq<Json>)

  /** The returned value together with the parser's `creates_children` afterwards. */
  datatype Decision = Decision(result: Match, createsChildren: bool)

  /**
   `is_mainfile`. `base` is the verdict of the base matcher, `filename` the keyword argument
   (`None` when absent or `None`), `load` the outcome of `json.load` (`None` when it raised), and
   `createsChildren` the parser's flag before the call.
   */
  function IsMainfile(base: bool, filename: Option<string>, load: Option<Json>, createsChildren: bool)
    : (d: Decision)
    // A falsy base verdict is returned as it is and the flag is left alone.
    ensures !base ==> d == Decision(BaseVerdict(false), createsChildren)
    // Children are declared exactly when the document names a truthy structure file.
    ensures d.result.Children? <==>
      base && filename.Some? && load.Some? && DeclaredStructureFile(load.value).Some?
    ensures d.result.Children? ==>
      d.result.files == [DeclaredStructureFile(load.value).value] && d.createsChildren
    // Every other outcome, errors included, is the base verdict with the flag unchanged.
    ensures d.result.BaseVerdict? ==>
      d.result.verdict == base && d.createsChildren == createsChildren
  {
    if base && filename.Some? then
      match EvalStructureFile(load)
      case Value(structureFile) =>
        if Truthy(structureFile) then Decision(Children([structureFile]), true)
        else Decision(BaseVerdict(base), createsChildren)
      case Raised(_) => Decision(BaseVerdict(base), createsChildren)
    else
      Decision(BaseVerdict(base), createsChildren)
  }

  /** A declared child is a single, truthy value, and the flag stays on once set. */
  lemma ChildrenAreOneTruthyFile(base: bool, filename: Option<string>, load: Option<Json>, createsChildren: bool)
    ensures var d := IsMainfile(base, filename, load, createsChildren);
      d.result.Children? ==> |d.result.files| == 1 && Truthy(d.result.files[0])
    ensures createsChildren ==> IsMainfile(base, filename, load, createsChildren).createsChildren
  {
  }

  /** `{"mof_atoms": {"structure_file": "foo.cif"}}` declares `foo.cif` as its child. */
  lemma StructureFileDeclared(base: bool, filename: string, file: string, createsChildren: bool)
    requires base && |file| > 0
    ensures var atoms := JObject(map["structure_file" := JString(file)]);
      var data := JObject(map["mof_atoms" := atoms]);
      IsMainfile(base, Some(filename), Some(data), createsChildren)
        == Decision(Children([JString(file)]), true)
  {
  }

  /**
   The fallbacks: a failed load, a document or `mof_atoms` that is not an object, a missing key
   or a falsy `structure_file` all give the base verdict back without raising.
   */
  lemma FallbackCases(filename: string, data: Json, createsChildren: bool)
    ensures IsMainfile(true, Some(filename), None, createsChildren)
      == Decision(BaseVerdict(true), createsChildren)
    ensures !data.JObject? ==>
      IsMainfile(true, Some(filename), Some(data), createsChildren) == Decision(BaseVerdict(true), createsChildren)
    ensures data.JObject? && "mof_atoms" !in data.fields ==>
      IsMainfile(true, Some(filename), Some(data), createsChildren) == Decision(BaseVerdict(true), createsChildren)
    ensures data.JObject? && "mof_atoms" in data.fields && !data.fields["mof_atoms"].JObject? ==>
      IsMainfile(true, Some(filename), Some(data), createsChildren) == Decision(BaseVerdict(true), createsChildren)
    ensures (data.JObject? && "mof_atoms" in data.fields && data.fields["mof_atoms"].JObject?
      && ("structure_file" !in data.fields["mof_atoms"].fields
          || !Truthy(data.fields["mof_atoms"].fields["structure_file"]))) ==>
      IsMainfile(true, Some(filename), Some(data), createsChildren) == Decision(BaseVerdict(true), createsChildren)
    ensures IsMainfile(true, None, Some(data), createsChildren) == Decision(BaseVerdict(true), createsChildren)
  {
  }
}
