/**
 * The core's side of a task run: recording a run launched on the app-engine and
 * the annotation layer its geometry outputs go to, the guard on operations that
 * name an existing run, and the reshaping of the provisions a client sends
 * before they are forwarded to the app-engine.
 *
 * The app-engine's replies, the access-control checks and the annotation
 * service are parameters: `permitted` stands for every ACL check passing, and
 * `geometryOf` for reading an annotation id off a node, fetching the annotation
 * and converting its WKT location to GeoJSON text (None when there is no such
 * annotation).
 */
module TaskRuns {
  import opened Wrappers
  import opened Json
  import opened TaskTypes

  /** Why an operation stops: the run is unknown to the project, an ACL check
      refuses, an app-engine reply is not the expected JSON, a provision lacks a
      field it is read through (the NullPointerException) or is no object (the
      ClassCastException of the copy), or an annotation id designates nothing. */
  datatype Fault = RunNotFound | AccessDenied | Unparsable | Crash | AnnotationNotFound

  // ---------------------------------------------------------------- provisions

  /** `node.get("id").asText()` on the node a `get` gave; None for the
      NullPointerException of a missing node or field. */
  function IdOf(node: Option<Json>): (r: Option<string>)
    ensures r.Some? <==> node.Some? && Has(node.value, "id")
  {
    match node
    case None => None
    case Some(n) =>
      match Get(n, "id")
      case None => None
      case Some(id) => Some(AsText(id))
  }

  /** The id of a provision's type. */
  function TypeId(p: Json): Option<string> {
    IdOf(Get(p, "type"))
  }

  /** The id of the subtype of a provision's type. */
  function SubtypeId(p: Json): Option<string> {
    match Get(p, "type")
    case None => None
    case Some(t) => IdOf(Get(t, "subType"))
  }

  /** One element of a reshaped array: its position, then its value. */
  function Item(index: int, value: Json): (r: Json)
    ensures Get(r, "index") == Some(JNum(index)) && Get(r, "value") == Some(value)
  {
    var fields := [("index", JNum(index)), ("value", value)];
    assert fields[1..] == [("value", value)];
    assert "index" != "value" by { assert "index"[0] != "value"[0]; }
    assert Lookup(fields[1..], "value") == Some(value);
    JObj(fields)
  }

  /** The elements of an array value wrapped with their positions 0, 1, …. */
  function Indexed(values: seq<Json>): (r: seq<Json>)
    ensures |r| == |values|
    ensures forall k :: 0 <= k < |r| ==> Get(r[k], "index") == Some(JNum(k)) && Get(r[k], "value") == Some(values[k])
  {
    seq(|values|, k requires 0 <= k < |values| => Item(k, values[k]))
  }

  /** The values of wrapped elements, in order. */
  function Unindexed(items: seq<Json>): (r: seq<Json>)
    ensures |r| == |items|
  {
    seq(|items|, k requires 0 <= k < |items| => Get(items[k], "value").GetOr(JNull))
  }

  /** Unwrapping the reshaped elements gives the original elements back. */
  lemma UnindexIndexed(values: seq<Json>)
    ensures Unindexed(Indexed(values)) == values
  {
  }

  /** The GeoJSON text of the annotation each element designates; the first
      element that designates none stops the loop. */
  function Converted(values: seq<Json>, geometryOf: Json -> Option<string>): (r: Result<seq<Json>, Fault>)
    ensures r.Success? <==> forall k :: 0 <= k < |values| ==> geometryOf(values[k]).Some?
    ensures r.Success? ==> (|r.value| == |values|
      && forall k :: 0 <= k < |values| ==> r.value[k] == JStr(geometryOf(values[k]).value))
    ensures r.Failure? ==> r.error == AnnotationNotFound
  {
    if values == [] then Success([])
    else
      match geometryOf(values[0])
      case None => Failure(AnnotationNotFound)
      case Some(g) =>
        match Converted(values[1..], geometryOf)
        case Failure(e) => Failure(e)
        case Success(rest) =>
          assert forall k :: 1 <= k < |values| ==> values[k] == values[1..][k - 1];
          Success([JStr(g)] + rest)
  }

  /** The array branch applies: the type id is "array" and the value an array. */
  predicate ReshapesArray(p: Json) {
    TypeId(p) == Some("array") && Get(p, "value").Some? && Get(p, "value").value.JArr?
  }

  /** One turn of `processProvisions`: a copy of the provision without "type";
      a geometry's value replaced by the annotation's GeoJSON; an array value
      replaced by its elements wrapped with their positions, each element
      converted when the subtype is geometry; any other value kept. */
  function ProcessProvision(p: Json, geometryOf: Json -> Option<string>): (r: Result<Json, Fault>)
    ensures r.Success? ==> r.value.JObj? && !Has(r.value, "type")
    ensures r.Success? ==> forall k :: k != "type" && k != "value" ==> Get(r.value, k) == Get(p, k)
    ensures r.Success? && TypeId(p) != Some("geometry") && !ReshapesArray(p) ==> Get(r.value, "value") == Get(p, "value")
    ensures r.Failure? ==> r.error in {Crash, AnnotationNotFound}
    ensures !p.JObj? || TypeId(p).None? ==> r == Failure(Crash)
  {
    if !p.JObj? then Failure(Crash)
    else
      var processed := Remove(p, "type");
      var id := TypeId(p);
      if id.None? then Failure(Crash)
      else if id.value == "geometry" then
        match Get(p, "value")
        case None => Failure(Crash)
        case Some(v) =>
          match geometryOf(v)
          case None => Failure(AnnotationNotFound)
          case Some(g) => Success(Put(processed, "value", JStr(g)))
      else if id.value == "array" then
        match Get(p, "value")
        case None => Failure(Crash)
        case Some(v) =>
          if !v.JArr? then Success(processed)
          else
            match SubtypeId(p)
            case None => Failure(Crash)
            case Some(sub) =>
              if sub == "geometry" then
                match Converted(v.items, geometryOf)
                case Failure(e) => Failure(e)
                case Success(gs) => Success(Put(processed, "value", JArr(Indexed(gs))))
              else Success(Put(processed, "value", JArr(Indexed(v.items))))
      else Success(processed)
  }

  /** An array provision of a non-geometry subtype keeps its elements, in their
      order, each under the "value" of an item whose "index" is its position. */
  lemma ArrayProvisionReindexed(p: Json, geometryOf: Json -> Option<string>)
    requires p.JObj? && ReshapesArray(p)
    requires SubtypeId(p).Some? && SubtypeId(p) != Some("geometry")
    ensures var r := ProcessProvision(p, geometryOf);
      && r.Success? && Get(r.value, "value") == Some(JArr(Indexed(Get(p, "value").value.items)))
      && Unindexed(Indexed(Get(p, "value").value.items)) == Get(p, "value").value.items
  {
    UnindexIndexed(Get(p, "value").value.items);
  }

  /** An array provision of geometry subtype has each element replaced by its
      annotation's GeoJSON, in order and under its position, or stops when an
      element designates no annotation. */
  lemma {:induction false} GeometryArrayConverted(p: Json, geometryOf: Json -> Option<string>)
    requires p.JObj? && ReshapesArray(p) && SubtypeId(p) == Some("geometry")
    ensures var es := Get(p, "value").value.items;
      var r := ProcessProvision(p, geometryOf);
      && (r.Success? <==> forall k :: 0 <= k < |es| ==> geometryOf(es[k]).Some?)
      && (r.Success? ==> exists items :: (Get(r.value, "value") == Some(JArr(items)) && |items| == |es|
           && forall k :: 0 <= k < |es| ==> items[k] == Item(k, JStr(geometryOf(es[k]).value))))
  {
    var es := Get(p, "value").value.items;
    var c := Converted(es, geometryOf);
    var r := ProcessProvision(p, geometryOf);
    var processed := Remove(p, "type");
    if c.Success? {
      var items := Indexed(c.value);
      assert r == Success(Put(processed, "value", JArr(items)));
      assert Get(r.value, "value") == Some(JArr(items));
      forall k | 0 <= k < |es|
        ensures items[k] == Item(k, JStr(geometryOf(es[k]).value))
      {
        assert c.value[k] == JStr(geometryOf(es[k]).value);
      }
    } else {
      assert r == Failure(c.error);
    }
  }

  /** A missing subtype stops an array provision even when its array is empty. */
  lemma MissingSubtypeCrashes(p: Json, geometryOf: Json -> Option<string>)
    requires p.JObj? && ReshapesArray(p) && SubtypeId(p).None?
    ensures ProcessProvision(p, geometryOf) == Failure(Crash)
  {
  }

  /** `processProvisions`: every provision processed in order; the first that
      fails stops the loop. */
  function ProcessProvisions(json: seq<Json>, geometryOf: Json -> Option<string>): (r: Result<seq<Json>, Fault>)
    ensures r.Success? <==> forall i :: 0 <= i < |json| ==> ProcessProvision(json[i], geometryOf).Success?
    ensures r.Success? ==> (|r.value| == |json|
      && forall i :: 0 <= i < |json| ==> ProcessProvision(json[i], geometryOf) == Success(r.value[i]))
    ensures r.Failure? ==> exists i :: (0 <= i < |json| && ProcessProvision(json[i], geometryOf) == Failure(r.error)
      && forall j :: 0 <= j < i ==> ProcessProvision(json[j], geometryOf).Success?)
  {
    var steps := seq(|json|, i requires 0 <= i < |json| => ProcessProvision(json[i], geometryOf));
    assert forall i :: 0 <= i < |json| ==> steps[i] == ProcessProvision(json[i], geometryOf);
    UntilFailure(steps)
  }

  /** A loop over results that stops at the first failure: all the values
      when every step succeeds, else the error of the first step that fails. */
  function UntilFailure(steps: seq<Result<Json, Fault>>): (r: Result<seq<Json>, Fault>)
    ensures r.Success? <==> forall i :: 0 <= i < |steps| ==> steps[i].Success?
    ensures r.Success? ==> (|r.value| == |steps| && forall i :: 0 <= i < |steps| ==> steps[i] == Success(r.value[i]))
    ensures r.Failure? ==> exists i :: (0 <= i < |steps| && steps[i] == Failure(r.error)
      && forall j :: 0 <= j < i ==> steps[j].Success?)
  {
    if steps == [] then Success([])
    else
      match steps[0]
      case Failure(e) => Failure(e)
      case Success(first) =>
        assert forall i :: 1 <= i < |steps| ==> steps[i] == steps[1..][i - 1];
        match UntilFailure(steps[1..])
        case Failure(e) =>
          var i :| 0 <= i < |steps[1..]| && steps[1..][i] == Failure(e)
            && forall j :: 0 <= j < i ==> steps[1..][j].Success?;
          assert steps[i + 1] == Failure(e);
          Failure(e)
        case Success(rest) => Success([first] + rest)
  }

  /** No provision forwarded to the app-engine carries its "type". */
  lemma ForwardedProvisionsUntyped(json: seq<Json>, geometryOf: Json -> Option<string>)
    requires ProcessProvisions(json, geometryOf).Success?
    ensures forall i :: 0 <= i < |json| ==> !Has(ProcessProvisions(json, geometryOf).value[i], "type")
  {
    var out := ProcessProvisions(json, geometryOf).value;
    forall i | 0 <= i < |json|
      ensures !Has(out[i], "type")
    {
      assert ProcessProvision(json[i], geometryOf) == Success(out[i]);
    }
  }

  // ---------------------------------------------------------------- runs

  /** A run the core records: its project, the user who launched it, the
      app-engine's id for it and the image it works on. */
  datatype TaskRun = TaskRun(projectId: int, username: string, taskRunId: string, imageId: int)

  /** The annotation layer a run's geometries are drawn on, at an offset. */
  datatype TaskRunLayer = TaskRunLayer(layerName: string, taskRunId: string, imageId: int, xOffset: int, yOffset: int)

  /** The two repositories. */
  datatype RunStore = RunStore(runs: seq<TaskRun>, layers: seq<TaskRunLayer>)

  /** An output the core draws as annotations: a geometry, or an array of them. */
  predicate GeometryOutput(t: ParamType) {
    t.GeometryType? || (t.CollectionType? && t.subType.GeometryType?)
  }

  predicate AnyGeometryOutput(outputs: seq<ParamType>) {
    exists i :: 0 <= i < |outputs| && GeometryOutput(outputs[i])
  }

  /** The `hasGeometry` loop of `addTaskRun`: the scan stops at the first output
      that is a geometry or an array of geometries. */
  method HasGeometry(outputs: seq<ParamType>) returns (hasGeometry: bool)
    ensures hasGeometry <==> AnyGeometryOutput(outputs)
  {
    hasGeometry := false;
    var i := 0;
    while i < |outputs|
      invariant 0 <= i <= |outputs|
      invariant !hasGeometry
      invariant forall j :: 0 <= j < i ==> !GeometryOutput(outputs[j])
    {
      var t := outputs[i];
      if t.GeometryType? {
        hasGeometry := true;
        break;
      }
      if t.CollectionType? && t.subType.GeometryType? {
        hasGeometry := true;
        break;
      }
      i := i + 1;
    }
  }

  /** `addTaskRun`: once the ACL checks pass and the app-engine's reply to the
      launch parses (`runId`), the run is saved; then the task's outputs are
      fetched (`outputs`, None when they do not parse) and, when one of them is
      a geometry, a layer named `layerName` at offset (0, 0) is saved for the
      run's image. The app-engine's reply is returned as it came. */
  method AddTaskRun(store: RunStore, projectId: int, username: string, imageId: int, permitted: bool,
                    response: string, runId: Option<string>, outputs: Option<seq<ParamType>>, layerName: string)
    returns (after: RunStore, r: Result<string, Fault>)
    ensures !permitted ==> r == Failure(AccessDenied) && after == store
    ensures permitted && runId.None? ==> r == Failure(Unparsable) && after == store
    ensures permitted && runId.Some? ==> after.runs == store.runs + [TaskRun(projectId, username, runId.value, imageId)]
    ensures permitted && runId.Some? && outputs.None? ==> r == Failure(Unparsable) && after.layers == store.layers
    ensures permitted && runId.Some? && outputs.Some? ==> (r == Success(response)
      && (after.layers != store.layers <==> AnyGeometryOutput(outputs.value))
      && (after.layers == store.layers || after.layers == store.layers + [TaskRunLayer(layerName, runId.value, imageId, 0, 0)]))
  {
    if !permitted {
      return store, Failure(AccessDenied);
    }
    if runId.None? {
      return store, Failure(Unparsable);
    }
    var run := TaskRun(projectId, username, runId.value, imageId);
    after := store.(runs := store.runs + [run]);
    if outputs.None? {
      return after, Failure(Unparsable);
    }
    var hasGeometry := HasGeometry(outputs.value);
    if hasGeometry {
      var layer := TaskRunLayer(layerName, run.taskRunId, run.imageId, 0, 0);
      after := after.(layers := after.layers + [layer]);
      assert after.layers != store.layers by { assert |after.layers| == |store.layers| + 1; }
    }
    r := Success(response);
  }

  /** The project holds a run with that id. */
  predicate HasRun(store: RunStore, projectId: int, runId: string) {
    exists i :: 0 <= i < |store.runs| && store.runs[i].projectId == projectId && store.runs[i].taskRunId == runId
  }

  /** `findByProjectIdAndTaskRunId`: the first such run. */
  function FindRun(runs: seq<TaskRun>, projectId: int, runId: string): (r: Option<TaskRun>)
    ensures r.Some? <==> exists i :: 0 <= i < |runs| && runs[i].projectId == projectId && runs[i].taskRunId == runId
    ensures r.Some? ==> r.value in runs && r.value.projectId == projectId && r.value.taskRunId == runId
  {
    if runs == [] then None
    else if runs[0].projectId == projectId && runs[0].taskRunId == runId then Some(runs[0])
    else
      assert forall i :: 1 <= i < |runs| ==> runs[i] == runs[1..][i - 1];
      FindRun(runs[1..], projectId, runId)
  }

  /** `checkTaskRun`: ObjectNotFoundException when the project has no run with
      that id, checked before any ACL check; then the ACL checks. */
  function CheckTaskRun(store: RunStore, projectId: int, runId: string, permitted: bool): (r: Option<Fault>)
    ensures r == Some(RunNotFound) <==> !HasRun(store, projectId, runId)
    ensures r.None? <==> HasRun(store, projectId, runId) && permitted
    ensures r.Some? ==> r.value in {RunNotFound, AccessDenied}
  {
    if FindRun(store.runs, projectId, runId).None? then Some(RunNotFound)
    else if !permitted then Some(AccessDenied)
    else None
  }

  /** `batchProvisionTaskRun`: the run guard, then the reshaping, then a PUT of
      the reshaped provisions to the run's "input-provisions" resource; the
      result is the path and body of that request. */
  function BatchProvisionTaskRun(store: RunStore, requestBody: seq<Json>, projectId: int, runId: string,
                                 permitted: bool, geometryOf: Json -> Option<string>): (r: Result<(string, seq<Json>), Fault>)
    ensures !HasRun(store, projectId, runId) ==> r == Failure(RunNotFound)
    ensures r.Success? ==> (HasRun(store, projectId, runId) && permitted
      && r.value.0 == "task-runs/" + runId + "/input-provisions"
      && ProcessProvisions(requestBody, geometryOf) == Success(r.value.1))
    ensures HasRun(store, projectId, runId) && permitted ==>
      (r.Success? <==> ProcessProvisions(requestBody, geometryOf).Success?)
  {
    match CheckTaskRun(store, projectId, runId, permitted)
    case Some(fault) => Failure(fault)
    case None =>
      match ProcessProvisions(requestBody, geometryOf)
      case Failure(e) => Failure(e)
      case Success(body) => Success(("task-runs/" + runId + "/input-provisions", body))
  }
}
