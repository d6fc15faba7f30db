/**
 * What `TaskService` derives from an uploaded task bundle and its descriptor:
 * which zip entry is the descriptor, the registry name of the Docker image
 * archive, the resources block with its defaults, the rendering of default
 * values, the `derived_from` link of an output, the declared matches with
 * their check time, and the preconditions of creating a run.
 *
 * Reading YAML, pushing images and the repositories are not modelled; the
 * parsed descriptor is a `Json` tree and the task lookup a parameter.
 */
module TaskDescriptor {
  import opened Wrappers
  import Text
  import Json
  import opened BatchProvisioning
  import opened CollectionMatching
  import RunLifecycle

  // ---------------------------------------------------------------- bundle entries

  /** The entry is read as the descriptor: its lower-cased name is exactly
      `descriptor.yml` or `descriptor.yaml` (the whole name must match). */
  predicate IsDescriptorEntry(entryName: string) {
    var lower := Text.ToLower(entryName);
    lower == "descriptor.yml" || lower == "descriptor.yaml"
  }

  lemma DescriptorEntryExamples()
    ensures IsDescriptorEntry("DESCRIPTOR.YML") && IsDescriptorEntry("Descriptor.yaml")
    ensures !IsDescriptorEntry("descriptor.yml.bak") && !IsDescriptorEntry("task/descriptor.yml")
  {
    assert Text.ToLower("DESCRIPTOR.YML") == "descriptor.yml";
    assert Text.ToLower("Descriptor.yaml") == "descriptor.yaml";
    assert |Text.ToLower("descriptor.yml.bak")| == 18;
    assert Text.ToLower("task/descriptor.yml")[0] == 't';
  }

  /** What a `.tar` entry's name gives: no image for another entry, a
      StringIndexOutOfBoundsException when the name has no '-', else the name. */
  datatype ImageNaming = NotAnImage | NoDash | ImageName(name: string)

  /** The registry name of an image archive `ns-version.tar`: the namespace
      (up to the first '-') with '.' turned into '/', a ':' and the version. */
  function ImageNameOf(entryName: string): (r: ImageNaming)
    ensures r.NotAnImage? <==> !Text.EndsWith(entryName, ".tar")
    ensures r.NoDash? <==> Text.EndsWith(entryName, ".tar") && '-' !in entryName[..|entryName| - 4]
    ensures r.ImageName? ==> ':' in r.name
  {
    if !Text.EndsWith(entryName, ".tar") then NotAnImage
    else
      var full := entryName[..|entryName| - 4];
      var dash := Text.IndexOf(full, "-");
      if dash < 0 then
        assert '-' !in full by {
          forall k | 0 <= k < |full| ensures full[k] != '-' {
            assert !Text.OccursAt(full, "-", k);
            assert full[k..k + 1] == [full[k]];
          }
        }
        NoDash
      else
        assert full[dash..dash + 1] == "-";
        assert full[dash] == '-';
        var namespace := Text.ReplaceChar(full[..dash], '.', '/');
        var version := full[dash + 1..];
        var name := namespace + ":" + version;
        assert name[|namespace|] == ':';
        ImageName(name)
  }

  /** For a namespace without '-', the archive name gives back the namespace
      and the whole version, whatever '-' the version holds. */
  lemma ImageNameOfParts(namespace: string, version: string)
    requires '-' !in namespace
    ensures ImageNameOf(namespace + "-" + version + ".tar")
      == ImageName(Text.ReplaceChar(namespace, '.', '/') + ":" + version)
  {
    var entry := namespace + "-" + version + ".tar";
    var full := namespace + "-" + version;
    assert entry[|entry| - 4..] == ".tar";
    assert entry[..|entry| - 4] == full;
    assert full == namespace + ['-'] + version;
    Text.IndexOfCharAfter(namespace, '-', version);
    assert full[..|namespace|] == namespace;
    assert full[|namespace| + 1..] == version;
  }

  lemma ImageNameExample()
    ensures ImageNameOf("a.b-1.0.tar") == ImageName("a/b:1.0")
  {
    ExampleSpelling();
    ImageNameOfParts("a.b", "1.0");
    ExampleNamespace();
  }

  lemma ExampleSpelling()
    ensures "a.b-1.0.tar" == "a.b" + "-" + "1.0" + ".tar" && '-' !in "a.b"
  {
  }

  lemma ExampleNamespace()
    ensures Text.ReplaceChar("a.b", '.', '/') + ":" + "1.0" == "a/b:1.0"
  {
    assert Text.ReplaceChar("a.b", '.', '/') == "a/b";
  }

  // ---------------------------------------------------------------- parameters and matches

  /** A parameter of the uploaded task, as the descriptor declares it. */
  datatype TaskParameter = TaskParameter(name: string, kind: ParameterKind)

  /** `ParameterType.from` on a matching type such as "inputs"; it is not part
      of this model, so it is a parameter, None when no kind is named. */
  type KindOf = string -> Option<ParameterKind>

  /** The parameters' names, in order. */
  function Names(params: seq<TaskParameter>): (r: seq<string>)
    ensures |r| == |params| && forall i :: 0 <= i < |params| ==> r[i] == params[i].name
  {
    seq(|params|, i requires 0 <= i < |params| => params[i].name)
  }

  predicate Fits(p: TaskParameter, name: string, kind: Option<ParameterKind>) {
    p.name == name && (kind.None? || p.kind == kind.value)
  }

  /** `parameters.stream().filter(...).findFirst()`: the first parameter with
      that name (and that kind, when one is given). */
  function FindParameter(params: seq<TaskParameter>, name: string, kind: Option<ParameterKind>): (r: Option<nat>)
    ensures r.None? <==> forall i :: 0 <= i < |params| ==> !Fits(params[i], name, kind)
    ensures r.Some? ==> (r.value < |params| && Fits(params[r.value], name, kind)
      && forall i :: 0 <= i < r.value ==> !Fits(params[i], name, kind))
  {
    if params == [] then None
    else if Fits(params[0], name, kind) then Some(0)
    else
      match FindParameter(params[1..], name, kind)
      case None => None
      case Some(k) => Some(k + 1)
  }

  /** A `matching` element "type/name": the text before the first '/' and the
      text after it; None (the element is skipped) without a '/'. */
  function ParseMatching(text: string): (r: Option<(string, string)>)
    ensures r.None? <==> '/' !in text
    ensures r.Some? ==> text == r.value.0 + "/" + r.value.1 && '/' !in r.value.0
  {
    var slash := Text.IndexOf(text, "/");
    if slash < 0 then
      assert '/' !in text by {
        forall k | 0 <= k < |text| ensures text[k] != '/' {
          assert !Text.OccursAt(text, "/", k);
          assert text[k..k + 1] == [text[k]];
        }
      }
      None
    else
      assert text[slash..slash + 1] == "/";
      assert '/' !in text[..slash] by {
        forall k | 0 <= k < slash ensures text[k] != '/' {
          assert !Text.OccursAt(text, "/", k);
          assert text[k..k + 1] == [text[k]];
        }
      }
      assert text == text[..slash] + "/" + text[slash + 1..];
      Some((text[..slash], text[slash + 1..]))
  }

  /** Gluing a type free of '/' to a name gives both back. */
  lemma ParseMatchingOfParts(kind: string, name: string)
    requires '/' !in kind
    ensures ParseMatching(kind + "/" + name) == Some((kind, name))
  {
    var r := ParseMatching(kind + "/" + name);
    Text.IndexOfCharAfter(kind, '/', name);
    assert kind + "/" + name == kind + ['/'] + name;
  }

  /** The check time of a match declared on a parameter of kind `kind` against
      a parameter of matching type `matchingType` (compared ignoring case). */
  function CheckTimeFor(kind: ParameterKind, matchingType: string): (r: CheckTime)
    ensures r == BEFORE_EXECUTION <==> kind == INPUT && Text.EqualsIgnoreCase(matchingType, "inputs")
    ensures r == AFTER_EXECUTION <==>
      (kind == OUTPUT && Text.EqualsIgnoreCase(matchingType, "outputs"))
      || (kind == INPUT && Text.EqualsIgnoreCase(matchingType, "outputs"))
      || (kind == OUTPUT && Text.EqualsIgnoreCase(matchingType, "inputs"))
  {
    assert !Text.EqualsIgnoreCase(matchingType, "inputs") || !Text.EqualsIgnoreCase(matchingType, "outputs") by {
      assert Text.ToUpper("inputs") != Text.ToUpper("outputs") by {
        assert |Text.ToUpper("inputs")| != |Text.ToUpper("outputs")|;
      }
    }
    var when := if kind == INPUT && Text.EqualsIgnoreCase(matchingType, "inputs") then BEFORE_EXECUTION else UNDEFINED;
    var bothOutputs := kind == OUTPUT && Text.EqualsIgnoreCase(matchingType, "outputs");
    var cross := (kind == INPUT && Text.EqualsIgnoreCase(matchingType, "outputs"))
      || (kind == OUTPUT && Text.EqualsIgnoreCase(matchingType, "inputs"));
    if bothOutputs || cross then AFTER_EXECUTION else when
  }

  /** A match is left UNDEFINED exactly when its type names neither side. */
  lemma UndefinedOnlyForForeignTypes(kind: ParameterKind, matchingType: string)
    ensures CheckTimeFor(kind, matchingType) == UNDEFINED <==>
      !Text.EqualsIgnoreCase(matchingType, "inputs") && !Text.EqualsIgnoreCase(matchingType, "outputs")
  {
  }

  /** A `matching` element that is no JSON text makes `text.indexOf` meet null. */
  datatype DescriptorFault = NullText

  /** The `matching` loop of `processParameterDependencies` for parameter `param`. */
  function MatchesFrom(param: TaskParameter, elements: seq<Json.Json>, params: seq<TaskParameter>, kindOf: KindOf)
    : (r: Result<seq<Match>, DescriptorFault>)
    ensures r.Failure? <==> exists i :: 0 <= i < |elements| && !elements[i].JStr?
    ensures r.Success? ==> |r.value| <= |elements|
    ensures r.Success? ==> forall k :: 0 <= k < |r.value| ==>
      r.value[k].matching == param.name && r.value[k].matched in Names(params)
  {
    if elements == [] then Success([])
    else
      var rest := MatchesFrom(param, elements[1..], params, kindOf);
      assert forall i :: 1 <= i < |elements| ==> elements[i] == elements[1..][i - 1];
      if !elements[0].JStr? then Failure(NullText)
      else if rest.Failure? then rest
      else
        match ElementMatch(param, elements[0].s, params, kindOf)
        case None => rest
        case Some(m) => Success([m] + rest.value)
  }

  /** One `matching` element's text: the match it declares, if its parameter exists. */
  function ElementMatch(param: TaskParameter, text: string, params: seq<TaskParameter>, kindOf: KindOf): (r: Option<Match>)
    ensures '/' !in text ==> r.None?
    ensures r.Some? ==> r.value.matching == param.name && r.value.matched in Names(params)
    ensures r.Some? ==> r.value.checkTime == CheckTimeFor(param.kind, ParseMatching(text).value.0)
  {
    match ParseMatching(text)
    case None => None
    case Some((matchingType, matchingName)) =>
      var other := if kindOf(matchingType).None? then None
        else FindParameter(params, matchingName, kindOf(matchingType));
      if other.None? then None
      else
        assert params[other.value].name == Names(params)[other.value];
        Some(Match(param.name, params[other.value].name, CheckTimeFor(param.kind, matchingType)))
  }

  /** `processParameterDependencies`: matches are read only from an object
      `dependencies` holding an array `matching`. */
  function ParameterMatches(param: TaskParameter, value: Json.Json, params: seq<TaskParameter>, kindOf: KindOf)
    : (r: Result<seq<Match>, DescriptorFault>)
    ensures (Json.Get(value, "dependencies").None? || !Json.Get(value, "dependencies").value.JObj?) ==> r == Success([])
    ensures r.Success? ==> forall k :: 0 <= k < |r.value| ==> r.value[k].matching == param.name
  {
    match Json.Get(value, "dependencies")
    case Some(deps) =>
      if !deps.JObj? then Success([])
      else
        (match Json.Get(deps, "matching")
         case Some(matching) => if matching.JArr? then MatchesFrom(param, matching.items, params, kindOf) else Success([])
         case None => Success([]))
    case None => Success([])
  }

  /** `processDependencies` over the fields of the "inputs" or "outputs" node:
      each key names the first parameter of that name, whatever its kind. */
  function FieldMatches(fields: seq<(string, Json.Json)>, params: seq<TaskParameter>, kindOf: KindOf)
    : (r: Result<seq<Match>, DescriptorFault>)
    ensures r.Success? ==> forall k :: 0 <= k < |r.value| ==> r.value[k].matching in Names(params)
  {
    if fields == [] then Success([])
    else
      var (key, value) := fields[0];
      var here := match FindParameter(params, key, None)
        case None => Success([])
        case Some(p) =>
          assert params[p].name == Names(params)[p];
          ParameterMatches(params[p], value, params, kindOf);
      match here
      case Failure(f) => Failure(f)
      case Success(ms) =>
        match FieldMatches(fields[1..], params, kindOf)
        case Failure(f) => Failure(f)
        case Success(more) => Success(ms + more)
  }

  /** The dependencies declared under one key of the descriptor; a node that
      is missing or not an object contributes nothing. */
  function SideMatches(descriptor: Json.Json, key: string, params: seq<TaskParameter>, kindOf: KindOf)
    : (r: Result<seq<Match>, DescriptorFault>)
    ensures (Json.Get(descriptor, key).None? || !Json.Get(descriptor, key).value.JObj?) ==> r == Success([])
    ensures r.Success? ==> forall k :: 0 <= k < |r.value| ==> r.value[k].matching in Names(params)
  {
    match Json.Get(descriptor, key)
    case Some(node) => if node.JObj? then FieldMatches(node.fields, params, kindOf) else Success([])
    case None => Success([])
  }

  /** `getMatches`: the dependencies of the inputs, then of the outputs. */
  function GetMatches(descriptor: Json.Json, params: seq<TaskParameter>, kindOf: KindOf)
    : (r: Result<seq<Match>, DescriptorFault>)
    ensures r.Success? ==> forall k :: 0 <= k < |r.value| ==> r.value[k].matching in Names(params)
    ensures SideMatches(descriptor, "outputs", params, kindOf) == Success([]) ==> r == SideMatches(descriptor, "inputs", params, kindOf)
  {
    match SideMatches(descriptor, "inputs", params, kindOf)
    case Failure(f) => Failure(f)
    case Success(a) =>
      match SideMatches(descriptor, "outputs", params, kindOf)
      case Failure(f) => Failure(f)
      case Success(b) =>
        assert b == [] ==> a + b == a;
        Success(a + b)
  }

  // ---------------------------------------------------------------- resources

  /** The resources a task is created with; `gpus` stays unset (None) when the
      descriptor has no resources block. */
  datatype Resources = Resources(ram: string, cpus: int, gpus: Option<int>)

  /** `configuration.resources`: None when the block is absent. Within it, a
      missing (or null) `ram` or `cpus` takes the configured default and a
      missing `gpus` is 0; `cpus` and `gpus` are read by `asInt`, so a
      fraction, as a number or as text, is truncated. */
  function ResourcesOf(resources: Option<Json.Json>, defaultRam: string, defaultCpus: int,
                       parseDouble: Json.DoubleParser): (r: Resources)
    requires Text.INT_MIN <= defaultCpus <= Text.INT_MAX
    ensures resources.None? ==> r == Resources(defaultRam, defaultCpus, None)
    ensures resources.Some? ==> r.gpus.Some? && Text.INT_MIN <= r.gpus.value <= Text.INT_MAX
    ensures resources.Some? && Json.Get(resources.value, "ram").None? ==> r.ram == defaultRam
    ensures resources.Some? && Json.Get(resources.value, "cpus").None? ==> r.cpus == defaultCpus
    ensures resources.Some? && Json.Get(resources.value, "gpus").None? ==> r.gpus == Some(0)
    ensures forall s :: resources.Some? && Json.Get(resources.value, "ram") == Some(Json.JStr(s)) ==> r.ram == s
    ensures forall n :: (resources.Some? && Json.Get(resources.value, "cpus") == Some(Json.JNum(n))
      && Text.INT_MIN <= n <= Text.INT_MAX) ==> r.cpus == n
    ensures forall d, t :: resources.Some? && Json.Get(resources.value, "cpus") == Some(Json.JDouble(d, t)) ==>
      r.cpus == Json.DoubleToInt(d)
    ensures forall s :: resources.Some? && Json.Get(resources.value, "cpus") == Some(Json.JStr(s)) ==>
      r.cpus == Json.ParseAsInt(s, defaultCpus, parseDouble)
  {
    match resources
    case None => Resources(defaultRam, defaultCpus, None)
    case Some(block) =>
      Resources(Json.AsTextOr(Json.Get(block, "ram"), defaultRam),
        Json.AsIntOr(Json.Get(block, "cpus"), defaultCpus, parseDouble),
        Some(Json.AsIntOr(Json.Get(block, "gpus"), 0, parseDouble)))
  }

  // ---------------------------------------------------------------- default values

  /** A parameter's `default` as stored: the text of a string, and the JSON
      text (`toString()`) of anything else, booleans and numbers included. */
  function RenderDefault(node: Json.Json): (r: string)
    ensures !node.JStr? ==> r == Json.Serialize(node)
    ensures node.JStr? ==> Json.Serialize(node) == Json.Quote(r)
    ensures node.JDouble? ==> r == node.shown
  {
    match node
    case JStr(s) => s
    case JBool(b) => if b then "true" else "false"
    case JNum(n) => Text.IntToString(n)
    case _ => Json.Serialize(node)
  }

  // ---------------------------------------------------------------- derived_from

  /** A `dependencies` object of an output makes `derived_from` name an input:
      the text after its first seven characters (the length of "inputs/") is
      looked up among the inputs; a missing or non-text value, or one shorter
      than seven characters, throws. */
  function DerivedFrom(dependencies: Option<Json.Json>, params: seq<TaskParameter>): (r: Result<Option<string>, DescriptorFault>)
    ensures dependencies.None? || !dependencies.value.JObj? ==> r == Success(None)
    ensures r.Success? && r.value.Some? ==>
      exists i :: 0 <= i < |params| && params[i] == TaskParameter(r.value.value, INPUT)
  {
    match dependencies
    case Some(deps) =>
      if !deps.JObj? then Success(None)
      else
        (match Json.TextValue(Json.Get(deps, "derived_from").GetOr(Json.JNull))
         case Some(text) =>
           if |text| < |"inputs/"| then Failure(NullText)
           else
             (match FindParameter(params, text[|"inputs/"|..], Some(INPUT))
              case None => Success(None)
              case Some(k) => Success(Some(params[k].name)))
         case None => Failure(NullText))
    case None => Success(None)
  }

  /** "inputs/x" links an output to the input named x when there is one. */
  lemma DerivedFromInput(x: string, params: seq<TaskParameter>)
    requires TaskParameter(x, INPUT) in params
    ensures DerivedFrom(Some(Json.JObj([("derived_from", Json.JStr("inputs/" + x))])), params) == Success(Some(x))
  {
    var deps := Json.JObj([("derived_from", Json.JStr("inputs/" + x))]);
    assert Json.Get(deps, "derived_from") == Some(Json.JStr("inputs/" + x));
    assert ("inputs/" + x)[7..] == x;
    var i :| 0 <= i < |params| && params[i] == TaskParameter(x, INPUT);
    assert Fits(params[i], x, Some(INPUT));
  }

  // ---------------------------------------------------------------- run creation

  /** The `RunTaskServiceException` of `createRunForTask`, with its message. */
  datatype RunTaskError = RunTaskError(message: string)

  /** `createRunForTask`, both overloads: `task` is the repository's answer for
      `key` (the id, or "namespace:version"), `secret` the fresh random
      secret. An unknown task or one without inputs is refused; the new run
      starts CREATED with that secret. */
  function CreateRun(key: string, task: Option<seq<TaskParameter>>, secret: string): (r: Result<RunLifecycle.Run, RunTaskError>)
    ensures task.None? ==> r == Failure(RunTaskError("task {" + key + "} not found to associate with this run"))
    ensures r.Success? <==> task.Some? && exists i :: 0 <= i < |task.value| && task.value[i].kind == INPUT
    ensures r.Success? ==> r.value == RunLifecycle.Run(RunLifecycle.CREATED, secret)
  {
    match task
    case None => Failure(RunTaskError("task {" + key + "} not found to associate with this run"))
    case Some(params) =>
      if forall i :: 0 <= i < |params| ==> params[i].kind != INPUT then
        Failure(RunTaskError("task {" + key + "} has no inputs"))
      else
        Success(RunLifecycle.Run(RunLifecycle.CREATED, secret))
  }
}
