/**
 * The web UI's task-run model: the run states it knows, which of them are
 * terminal, the run's app-engine path, and the guards that decide whether
 * inputs and outputs are fetched at all.
 *
 * The HTTP calls are left out; a fetch is modelled by the path it would
 * request.
 */
module WebTaskRun {
  import opened Wrappers
  import Text
  import AppUtils

  /** `TaskRun.STATES`. */
  datatype RunState = Created | Provisioned | Queuing | Queued | Pending | Running | Failed | Finished

  const ALL_STATES: seq<RunState> :=
    [Created, Provisioned, Queuing, Queued, Pending, Running, Failed, Finished]

  /** The state's name as the app engine sends it. */
  function StateName(s: RunState): string {
    match s
    case Created => "CREATED"
    case Provisioned => "PROVISIONED"
    case Queuing => "QUEUING"
    case Queued => "QUEUED"
    case Pending => "PENDING"
    case Running => "RUNNING"
    case Failed => "FAILED"
    case Finished => "FINISHED"
  }

  /** The state a name stands for; None for a name the UI does not know. */
  function ParseState(name: string): (r: Option<RunState>)
    ensures r.Some? ==> StateName(r.value) == name
  {
    if name == "CREATED" then Some(Created)
    else if name == "PROVISIONED" then Some(Provisioned)
    else if name == "QUEUING" then Some(Queuing)
    else if name == "QUEUED" then Some(Queued)
    else if name == "PENDING" then Some(Pending)
    else if name == "RUNNING" then Some(Running)
    else if name == "FAILED" then Some(Failed)
    else if name == "FINISHED" then Some(Finished)
    else None
  }

  /** There are exactly eight states, each listed once, each with its own
      name, and every name reads back as its state. */
  lemma EightStates()
    ensures |ALL_STATES| == 8
    ensures forall s: RunState :: s in ALL_STATES
    ensures forall i, j :: 0 <= i < j < |ALL_STATES| ==> StateName(ALL_STATES[i]) != StateName(ALL_STATES[j])
    ensures forall s: RunState :: ParseState(StateName(s)) == Some(s)
  {
    forall s: RunState
      ensures s in ALL_STATES
    {
      match s
      case Created => assert ALL_STATES[0] == s;
      case Provisioned => assert ALL_STATES[1] == s;
      case Queuing => assert ALL_STATES[2] == s;
      case Queued => assert ALL_STATES[3] == s;
      case Pending => assert ALL_STATES[4] == s;
      case Running => assert ALL_STATES[5] == s;
      case Failed => assert ALL_STATES[6] == s;
      case Finished => assert ALL_STATES[7] == s;
    }
  }

  /** `TERMINAL_STATES`. */
  const TERMINAL_STATES: set<RunState> := {Failed, Finished}

  /** A run as the UI holds it: `project` and `id` are null (None) until
      known, `state` is null until fetched. */
  datatype TaskRun = TaskRun(project: Option<int>, id: Option<int>, state: Option<RunState>)

  /** `isFinished`. */
  predicate IsFinished(run: TaskRun) {
    run.state == Some(Finished)
  }

  /** `isTerminalState`: the state is in `TERMINAL_STATES`. */
  function IsTerminalState(run: TaskRun): (r: bool)
    ensures r <==> run.state == Some(Failed) || run.state == Some(Finished)
  {
    run.state.Some? && run.state.value in TERMINAL_STATES
  }

  /** A finished run is in a terminal state; a run still waiting or running
      is not. */
  lemma FinishedIsTerminal(run: TaskRun)
    ensures IsFinished(run) ==> IsTerminalState(run)
    ensures run.state.None? || run.state.value in {Created, Provisioned, Queuing, Queued, Pending, Running} ==>
      !IsTerminalState(run)
  {
  }

  /** `uri`: a run without a project (null or the falsy id 0) throws (None);
      a new run is posted to the project's collection; a saved one is
      addressed by its id below it. A run is new while it has no id. */
  function Uri(run: TaskRun): (r: Option<string>)
    ensures run.project.None? || run.project == Some(0) ==> r.None?
    ensures r.Some? ==> Text.StartsWith(r.value, "/app-engine/project/")
    ensures r.Some? && run.id.None? ==> Text.EndsWith(r.value, "/task-runs")
  {
    match run.project
    case None => None
    case Some(p) =>
      if p == 0 then None
      else
        var base := "/app-engine/project/" + Text.IntToString(p) + "/task-runs";
        assert base[..20] == "/app-engine/project/";
        assert base[|base| - 10..] == "/task-runs";
        match run.id
        case None => Some(base)
        case Some(i) =>
          var r := base + "/" + Text.IntToString(i);
          assert r[..20] == "/app-engine/project/";
          Some(r)
  }

  /** Once a run has an id, its path is the collection path followed by
      "/<id>". */
  lemma SavedRunBelowCollection(run: TaskRun, i: int)
    requires Uri(run).Some?
    ensures Uri(run.(id := Some(i))) == Some(Uri(run.(id := None)).value + "/" + Text.IntToString(i))
  {
  }

  /** `start`: a POST to "<uri>/state-actions" asking for RUNNING; None when
      the path cannot be built. */
  function Start(run: TaskRun): (r: Option<(string, string)>)
    ensures r.None? <==> Uri(run).None?
    ensures r.Some? ==> Text.StartsWith(r.value.0, Uri(run).value) && r.value.1 == StateName(Running)
  {
    match Uri(run)
    case None => None
    case Some(u) =>
      var path := u + "/state-actions";
      assert path[..|u|] == u;
      Some((path, "RUNNING"))
  }

  /** What a fetch of inputs or outputs does: return null without a request,
      throw, or GET a path. */
  datatype Fetch = ReturnsNull | Throws | Get(path: string)

  /** `fetchInputs`: nothing to fetch while the run is only created, before
      the path is even built. */
  function FetchInputs(run: TaskRun): (r: Fetch)
    ensures run.state == Some(Created) ==> r == ReturnsNull
    ensures run.state != Some(Created) ==> (r.Throws? <==> Uri(run).None?)
    ensures r.Get? ==> r.path == Uri(run).value + "/inputs"
  {
    if run.state == Some(Created) then ReturnsNull
    else
      match Uri(run)
      case None => Throws
      case Some(u) => Get(u + "/inputs")
  }

  /** `fetchOutputs`: outputs exist only for a finished run. */
  function FetchOutputs(run: TaskRun): (r: Fetch)
    ensures !IsFinished(run) ==> r == ReturnsNull
    ensures IsFinished(run) ==> (r.Throws? <==> Uri(run).None?)
    ensures r.Get? ==> r.path == Uri(run).value + "/outputs"
  {
    if !IsFinished(run) then ReturnsNull
    else
      match Uri(run)
      case None => Throws
      case Some(u) => Get(u + "/outputs")
  }

  /** Whenever outputs are requested, inputs would be too. */
  lemma OutputsImplyInputs(run: TaskRun)
    ensures FetchOutputs(run).Get? ==> FetchInputs(run).Get?
  {
  }

  /** An input or output as listed by the app engine. */
  datatype IoParam = IoParam(paramName: string, typeName: string)

  /** The parameters whose values are fetched one by one: those whose type,
      lower-cased, is a binary type. */
  function BinaryParams(ios: seq<IoParam>): (r: seq<IoParam>)
    ensures forall p :: p in r <==> p in ios && Text.ToLower(p.typeName) in AppUtils.BINARY_TYPES
    ensures |r| <= |ios|
  {
    if ios == [] then []
    else
      assert forall p :: p in ios <==> p == ios[0] || p in ios[1..];
      var rest := BinaryParams(ios[1..]);
      if Text.ToLower(ios[0].typeName) in AppUtils.BINARY_TYPES then [ios[0]] + rest else rest
  }

  /** `fetchSingleIO`'s path for one parameter: "<uri>/<kind>/<name>". */
  function SingleIoPath(runUri: string, kind: string, p: IoParam): (r: string)
    ensures Text.StartsWith(r, runUri + "/" + kind + "/") && Text.EndsWith(r, p.paramName)
  {
    var pre := runUri + "/" + kind + "/";
    var r := pre + p.paramName;
    assert r[..|pre|] == pre;
    assert r[|r| - |p.paramName|..] == p.paramName;
    r
  }

  /** Upper-case binary type names count: "IMAGE" and "File" are fetched. */
  lemma BinaryTypesIgnoreCase()
    ensures BinaryParams([IoParam("a", "IMAGE"), IoParam("b", "integer")]) == [IoParam("a", "IMAGE")]
  {
    assert Text.ToLower("IMAGE") == "image";
    assert Text.ToLower("integer") == "integer";
  }
}
