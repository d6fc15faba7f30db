/**
 * The state machine of a task run in `TaskProvisioningService`: the desired
 * state requests (`updateRunState` and its three handlers), the promotion to
 * PROVISIONED once every input is stored, and the guards of the scheduler's
 * output upload (`postOutputsZipArchive` / `processOutputFiles`).
 *
 * Repositories, the file storage and the scheduler are abstract: each call
 * receives what they would answer. Every handler returns the run as saved
 * after the call together with what the call returned, because several error
 * paths save a new state before throwing.
 */
module RunLifecycle {
  import opened Wrappers
  import Text
  import opened ErrorCodes
  import CollectionMatching

  /** `TaskRunState`. */
  datatype RunState = CREATED | PROVISIONED | QUEUING | QUEUED | PENDING | RUNNING | FAILED | FINISHED

  /** The part of a `Run` the lifecycle reads and writes. */
  datatype Run = Run(state: RunState, secret: string)

  /** What a call can throw: a coded error, a batch of parameter errors, a
      scheduler failure, or a runtime exception. */
  datatype Fault =
    | Error(code: ErrorCode)
    | BatchError(errors: seq<ParameterError>)
    | SchedulingFailed
    | Crash

  /** The run as saved after a call, and the call's result. */
  datatype Outcome<T> = Outcome(run: Run, result: Result<T, Fault>)

  /** The task and storage facts the state requests consult. */
  datatype Environment = Environment(
    inputs: set<string>,                 // names of the task's input parameters
    provisioned: map<string, bool>,      // persisted input records of the run: name -> isProvisioned
    matches: seq<CollectionMatching.Match>,
    inputCollections: map<string, CollectionMatching.Collection>,
    collections: map<string, CollectionMatching.Collection>,
    scheduled: bool,                     // the scheduler accepted the run
    outputs: seq<OutputReading>)         // the task's outputs, in iteration order

  /** What `updateToFinished` finds for one output parameter in the run's storage. */
  datatype OutputReading = OutputReading(
    name: string,
    stored: bool,                        // a non-empty storage entry exists
    validation: Option<ErrorCode>,       // the type's file validation error, if any
    checksumOk: bool)                    // every entry's CRC32 could be computed

  /** Every input parameter has a persisted record, and every record is provisioned. */
  predicate AllProvisioned(inputs: set<string>, provisioned: map<string, bool>) {
    forall n :: n in inputs ==> n in provisioned && provisioned[n]
  }

  lemma {:induction false} SubsetSize<T>(a: set<T>, b: set<T>)
    requires a <= b
    ensures |a| <= |b|
    decreases |b|
  {
    if a != {} {
      var x :| x in a;
      SubsetSize(a - {x}, b - {x});
    }
  }

  lemma SubsetOfSameSize<T>(a: set<T>, b: set<T>)
    requires a <= b && |a| == |b|
    ensures a == b
  {
    if a != b {
      var x :| x in b && x !in a;
      SubsetSize(a, b - {x});
    }
  }

  /** `changeStateToProvisioned`: the records found for the input names are
      counted against the inputs and must all be provisioned; the run becomes
      PROVISIONED exactly then and is left untouched otherwise. */
  function ChangeStateToProvisioned(run: Run, inputs: set<string>, provisioned: map<string, bool>): (r: Run)
    ensures AllProvisioned(inputs, provisioned) ==> r == run.(state := PROVISIONED)
    ensures !AllProvisioned(inputs, provisioned) ==> r == run
  {
    var found := set n | n in inputs && n in provisioned;
    if |inputs| == |found| && forall n :: n in found ==> provisioned[n] then
      SubsetOfSameSize(found, inputs);
      run.(state := PROVISIONED)
    else
      assert AllProvisioned(inputs, provisioned) ==> found == inputs;
      run
  }

  /** `updateToProvisioned`: only a CREATED run may ask; the answer reports
      PROVISIONED even when some input is still missing and the run stays CREATED. */
  function UpdateToProvisioned(run: Run, env: Environment): (o: Outcome<RunState>)
    ensures run.state != CREATED ==> o == Outcome(run, Failure(Error(INTERNAL_INVALID_TASK_RUN_STATE)))
    ensures run.state == CREATED ==> o.result == Success(PROVISIONED)
    ensures run.state == CREATED ==>
      o.run == ChangeStateToProvisioned(run, env.inputs, env.provisioned)
  {
    if run.state != CREATED then Outcome(run, Failure(Error(INTERNAL_INVALID_TASK_RUN_STATE)))
    else Outcome(ChangeStateToProvisioned(run, env.inputs, env.provisioned), Success(PROVISIONED))
  }

  /** The fault a failed before-execution match check throws. */
  function MatchFault(f: CollectionMatching.MatchFault): Fault {
    match f
    case Coded(c) => Error(c)
    case Crash => Crash
  }

  /** `run`: CREATED is refused as not provisioned and every state but
      PROVISIONED as invalid; then the before-execution matches are checked and
      the run is handed to the scheduler, after which it is QUEUING. */
  function Schedule(run: Run, env: Environment): (o: Outcome<RunState>)
    ensures o.run.state != run.state ==> run.state == PROVISIONED && o.run.state == QUEUING
    ensures o.result.Success? <==>
      run.state == PROVISIONED && env.scheduled
      && CollectionMatching.CheckBefore(env.matches, env.inputCollections).None?
    ensures o.result.Success? ==> o.run == run.(state := QUEUING) && o.result.value == QUEUING
    ensures run.state == CREATED ==> o.result == Failure(Error(INTERNAL_NOT_PROVISIONED))
    ensures run.state != CREATED && run.state != PROVISIONED ==>
      o.result == Failure(Error(INTERNAL_INVALID_TASK_RUN_STATE))
  {
    match run.state
    case CREATED => Outcome(run, Failure(Error(INTERNAL_NOT_PROVISIONED)))
    case PROVISIONED =>
      (match CollectionMatching.CheckBefore(env.matches, env.inputCollections)
       case Some(f) => Outcome(run, Failure(MatchFault(f)))
       case None =>
         if !env.scheduled then Outcome(run, Failure(SchedulingFailed))
         else Outcome(run.(state := QUEUING), Success(QUEUING)))
    case _ => Outcome(run, Failure(Error(INTERNAL_INVALID_TASK_RUN_STATE)))
  }

  /** The output loop of `updateToFinished`: a missing output or a failed
      checksum throws at once; validation errors are collected, one per output. */
  function CollectOutputErrors(outputs: seq<OutputReading>): (r: Result<seq<ParameterError>, ErrorCode>)
    ensures r.Failure? ==> r.error in {INTERNAL_MISSING_OUTPUT_FILE_FOR_PARAMETER, INTERNAL_CRC32_CALC_FAILED}
    ensures r.Failure? <==> exists i :: 0 <= i < |outputs| && Aborts(outputs[i])
    ensures r.Success? ==> |r.value| <= |outputs|
    ensures r.Success? ==> forall e :: e in r.value <==>
      exists i :: 0 <= i < |outputs| && outputs[i].validation.Some?
                  && e == ParameterError(outputs[i].validation.value, outputs[i].name)
  {
    if outputs == [] then Success([])
    else
      var o := outputs[0];
      assert forall i :: 1 <= i < |outputs| ==> outputs[i] == outputs[1..][i - 1];
      if !o.stored then Failure(INTERNAL_MISSING_OUTPUT_FILE_FOR_PARAMETER)
      else if o.validation.None? && !o.checksumOk then Failure(INTERNAL_CRC32_CALC_FAILED)
      else
        var rest :- CollectOutputErrors(outputs[1..]);
        if o.validation.Some? then Success([ParameterError(o.validation.value, o.name)] + rest)
        else Success(rest)
  }

  /** An output whose reading stops `updateToFinished` with an exception. */
  predicate Aborts(o: OutputReading) {
    !o.stored || (o.validation.None? && !o.checksumOk)
  }

  /** `updateToFinished`: only a QUEUING run may finish. Collected validation and
      after-execution match errors make it FAILED; otherwise it is FINISHED. */
  function UpdateToFinished(run: Run, env: Environment): (o: Outcome<RunState>)
    ensures run.state != QUEUING ==> o == Outcome(run, Failure(Error(INTERNAL_INVALID_TASK_RUN_STATE)))
    ensures o.run.state != run.state ==> run.state == QUEUING && o.run.state in {FAILED, FINISHED}
    ensures o.result.Success? <==> run.state == QUEUING && o.run.state == FINISHED
    ensures o.result.Success? ==> (run.state == QUEUING && o.result.value == FINISHED
      && (forall i :: 0 <= i < |env.outputs| ==> env.outputs[i].stored && env.outputs[i].validation.None?)
      && CollectionMatching.CheckAfter(env.matches, env.collections) == Success([]))
    ensures run.state == QUEUING && (exists i :: 0 <= i < |env.outputs| && Aborts(env.outputs[i])) ==>
      (o.run == run && o.result.Failure? && o.result.error.Error?
       && o.result.error.code in {INTERNAL_MISSING_OUTPUT_FILE_FOR_PARAMETER, INTERNAL_CRC32_CALC_FAILED})
    ensures (run.state == QUEUING && (forall i :: 0 <= i < |env.outputs| ==> !Aborts(env.outputs[i]))
             && CollectionMatching.CheckAfter(env.matches, env.collections).Failure?) ==>
      o == Outcome(run, Failure(Crash))
    ensures (run.state == QUEUING
             && (forall i :: 0 <= i < |env.outputs| ==> !Aborts(env.outputs[i]) && env.outputs[i].validation.None?)
             && CollectionMatching.CheckAfter(env.matches, env.collections) == Success([])) ==>
      o == Outcome(run.(state := FINISHED), Success(FINISHED))
    ensures (run.state == QUEUING && (forall i :: 0 <= i < |env.outputs| ==> !Aborts(env.outputs[i]))
             && CollectionMatching.CheckAfter(env.matches, env.collections).Success?
             && ((exists i :: 0 <= i < |env.outputs| && env.outputs[i].validation.Some?)
                 || CollectionMatching.CheckAfter(env.matches, env.collections).value != [])) ==>
      o == Outcome(run.(state := FAILED), Failure(BatchError(
        CollectOutputErrors(env.outputs).value + CollectionMatching.CheckAfter(env.matches, env.collections).value)))
  {
    if run.state != QUEUING then Outcome(run, Failure(Error(INTERNAL_INVALID_TASK_RUN_STATE)))
    else match CollectOutputErrors(env.outputs)
      case Failure(c) => Outcome(run, Failure(Error(c)))
      case Success(errors) =>
        assert forall i :: 0 <= i < |env.outputs| && env.outputs[i].validation.Some? ==>
          ParameterError(env.outputs[i].validation.value, env.outputs[i].name) in errors;
        assert errors != [] ==> exists i :: 0 <= i < |env.outputs| && env.outputs[i].validation.Some? by {
          if errors != [] { assert errors[0] in errors; }
        }
        match CollectionMatching.CheckAfter(env.matches, env.collections)
        case Failure(_) => Outcome(run, Failure(Crash))
        case Success(matchErrors) =>
          if errors + matchErrors != [] then
            Outcome(run.(state := FAILED), Failure(BatchError(errors + matchErrors)))
          else
            Outcome(run.(state := FINISHED), Success(FINISHED))
  }

  /** `updateRunState`: an unknown run id is RUN_NOT_FOUND; the desired states
      PROVISIONED, RUNNING and FINISHED go to their handlers and any other
      desired state is UNKNOWN_STATE. */
  function UpdateRunState(found: Option<Run>, desired: RunState, env: Environment)
    : (r: Result<Outcome<RunState>, Fault>)
    ensures found.None? <==> r == Failure(Error(RUN_NOT_FOUND))
    ensures found.Some? && desired !in {PROVISIONED, RUNNING, FINISHED} ==>
      r == Success(Outcome(found.value, Failure(Error(UNKNOWN_STATE))))
    ensures found.Some? && desired == PROVISIONED ==> r == Success(UpdateToProvisioned(found.value, env))
    ensures found.Some? && desired == RUNNING ==> r == Success(Schedule(found.value, env))
    ensures found.Some? && desired == FINISHED ==> r == Success(UpdateToFinished(found.value, env))
  {
    match found
    case None => Failure(Error(RUN_NOT_FOUND))
    case Some(run) =>
      Success(match desired
        case PROVISIONED => UpdateToProvisioned(run, env)
        case RUNNING => Schedule(run, env)
        case FINISHED => UpdateToFinished(run, env)
        case _ => Outcome(run, Failure(Error(UNKNOWN_STATE))))
  }

  /** The moves a desired-state request can make. */
  predicate Forward(a: RunState, b: RunState) {
    (a == CREATED && b == PROVISIONED) || (a == PROVISIONED && b == QUEUING)
    || (a == QUEUING && (b == FINISHED || b == FAILED))
  }

  /** A desired-state request never moves a run backwards or sideways: it either
      leaves the state alone or makes one step CREATED -> PROVISIONED ->
      QUEUING -> FINISHED/FAILED. */
  lemma RequestsOnlyMoveForward(run: Run, desired: RunState, env: Environment)
    ensures var r := UpdateRunState(Some(run), desired, env);
      r.Success? && (r.value.run.state == run.state || Forward(run.state, r.value.run.state))
  {
  }

  /** The states in which the scheduler may post outputs. */
  predicate SchedulerManaged(s: RunState) {
    s == RUNNING || s == PENDING || s == QUEUED || s == QUEUING
  }

  /** One output of the task as the archive check sees it. */
  datatype Output = Output(name: string, isCollection: bool)

  /** What storing a claimed archive entry gives: it is written and its CRC32
      recorded, the write fails with an IOException, or the CRC32 computation
      fails with one. */
  datatype EntryIo = Saved | WriteFails | ChecksumFails

  /** One archive entry, with what storing it would give. */
  datatype Entry = Entry(name: string, isDirectory: bool, io: EntryIo)

  /** An archive entry is claimed by an output: by equal name (a file), or as
      a path inside the output's directory (a collection part). */
  predicate Claims(o: Output, e: Entry) {
    o.name == e.name || Text.StartsWith(e.name, o.name + "/")
  }

  /** The search for the output an entry belongs to, among the outputs not yet
      seen as files, from position `k`: the first output that claims the entry,
      and whether it claims it by equal name (which removes it from the search). */
  function ClaimFrom(remaining: seq<Output>, e: Entry, k: nat): (r: Option<(nat, bool)>)
    requires k <= |remaining|
    ensures r.None? <==> forall i :: k <= i < |remaining| ==> !Claims(remaining[i], e)
    ensures r.Some? ==> (k <= r.value.0 < |remaining| && Claims(remaining[r.value.0], e)
      && (forall i :: k <= i < r.value.0 ==> !Claims(remaining[i], e))
      && (r.value.1 <==> remaining[r.value.0].name == e.name))
    decreases |remaining| - k
  {
    if k == |remaining| then None
    else if remaining[k].name == e.name then Some((k, true))
    else if Text.StartsWith(e.name, remaining[k].name + "/") then Some((k, false))
    else ClaimFrom(remaining, e, k + 1)
  }

  /** The outputs still searched after entry `e`, or None when no output claims it. */
  function ClaimEntry(remaining: seq<Output>, e: Entry): (r: Option<seq<Output>>)
    ensures r.None? <==> forall i :: 0 <= i < |remaining| ==> !Claims(remaining[i], e)
    ensures r.Some? ==> (r.value == remaining ||
      exists i :: 0 <= i < |remaining| && remaining[i].name == e.name
                  && r.value == remaining[..i] + remaining[i + 1..])
  {
    match ClaimFrom(remaining, e, 0)
    case None => None
    case Some((i, removed)) =>
      if removed then Some(remaining[..i] + remaining[i + 1..]) else Some(remaining)
  }

  /** The entry loop of `processOutputFiles`: the outputs never seen as files,
      or None at the first entry no output claims. */
  function ClaimEntries(remaining: seq<Output>, entries: seq<Entry>): (r: Option<seq<Output>>)
    ensures r.Some? ==> |r.value| <= |remaining| && forall o :: o in r.value ==> o in remaining
    decreases |entries|
  {
    if entries == [] then Some(remaining)
    else match ClaimEntry(remaining, entries[0])
      case None => None
      case Some(rest) =>
        assert |rest| <= |remaining| && forall o :: o in rest ==> o in remaining by {
          if rest != remaining {
            var i :| 0 <= i < |remaining| && rest == remaining[..i] + remaining[i + 1..];
            assert forall o :: o in rest ==> o in remaining[..i] || o in remaining[i + 1..];
          }
        }
        ClaimEntries(rest, entries[1..])
  }

  /** What storing an entry throws, given whether it is claimed by equal name.
      A failed write is an IOException that `postOutputsZipArchive` rethrows
      as a RuntimeException; a failed checksum is INTERNAL_CRC32_CALC_FAILED,
      and only files are checksummed: a directory inside a collection output
      is merely created. */
  function StoreFault(e: Entry, byName: bool): (r: Option<Fault>)
    ensures r.None? <==> e.io == Saved || (e.io == ChecksumFails && !byName && e.isDirectory)
    ensures r.Some? ==> (r.value == Crash <==> e.io == WriteFails)
    ensures r.Some? && r.value != Crash ==> r.value == Error(INTERNAL_CRC32_CALC_FAILED)
  {
    match e.io
    case Saved => None
    case WriteFails => Some(Crash)
    case ChecksumFails =>
      if byName || !e.isDirectory then Some(Error(INTERNAL_CRC32_CALC_FAILED)) else None
  }

  /** Every entry of the archive is written and checksummed without error. */
  predicate AllSaved(entries: seq<Entry>) {
    forall i :: 0 <= i < |entries| ==> entries[i].io == Saved
  }

  /** The entry loop of `processOutputFiles` with the storing it does: each
      entry is claimed, then stored, and the loop stops at the first entry no
      output claims (UNKNOWN_OUTPUT) or whose storing throws. */
  function StoreEntries(remaining: seq<Output>, entries: seq<Entry>): (r: Result<seq<Output>, Fault>)
    ensures r.Failure? ==> r.error in {Error(INTERNAL_UNKNOWN_OUTPUT), Error(INTERNAL_CRC32_CALC_FAILED), Crash}
    ensures r.Success? ==> ClaimEntries(remaining, entries) == Some(r.value)
    ensures r.Success? ==> forall i :: 0 <= i < |entries| ==>
      entries[i].io != WriteFails && (entries[i].io == ChecksumFails ==> entries[i].isDirectory)
    ensures r == Failure(Error(INTERNAL_UNKNOWN_OUTPUT)) ==> ClaimEntries(remaining, entries).None?
    ensures r == Failure(Error(INTERNAL_CRC32_CALC_FAILED)) ==>
      exists i :: 0 <= i < |entries| && entries[i].io == ChecksumFails
    ensures r == Failure(Crash) ==> exists i :: 0 <= i < |entries| && entries[i].io == WriteFails
    ensures AllSaved(entries) ==> (r.Success? <==> ClaimEntries(remaining, entries).Some?)
    ensures AllSaved(entries) && r.Failure? ==> r.error == Error(INTERNAL_UNKNOWN_OUTPUT)
    decreases |entries|
  {
    if entries == [] then Success(remaining)
    else
      var e := entries[0];
      assert forall i :: 1 <= i < |entries| ==> entries[i] == entries[1..][i - 1];
      match ClaimFrom(remaining, e, 0)
      case None => Failure(Error(INTERNAL_UNKNOWN_OUTPUT))
      case Some((_, byName)) =>
        match StoreFault(e, byName)
        case Some(f) => Failure(f)
        case None => StoreEntries(ClaimEntry(remaining, e).value, entries[1..])
  }

  /** A claimed file entry whose checksum cannot be computed stops the upload
      at once: whatever the later entries are, even ones no output claims,
      the loop throws INTERNAL_CRC32_CALC_FAILED. */
  lemma ChecksumFailureStopsUpload(remaining: seq<Output>, e: Entry, later: seq<Entry>)
    requires e.io == ChecksumFails && !e.isDirectory
    requires exists i :: 0 <= i < |remaining| && Claims(remaining[i], e)
    ensures StoreEntries(remaining, [e] + later) == Failure(Error(INTERNAL_CRC32_CALC_FAILED))
  {
    assert ([e] + later)[0] == e;
  }

  /** How many of the outputs are collections. */
  function CountCollections(outputs: seq<Output>): (n: nat)
    ensures n <= |outputs|
    ensures n == |outputs| <==> forall i :: 0 <= i < |outputs| ==> outputs[i].isCollection
  {
    if outputs == [] then 0
    else
      assert forall i :: 1 <= i < |outputs| ==> outputs[i] == outputs[1..][i - 1];
      (if outputs[0].isCollection then 1 else 0) + CountCollections(outputs[1..])
  }

  /** The source's test on the outputs left after the entry loop: non-empty and
      not made only of collections, counted as `count > 0 && count == size`. */
  function MissingOutputs(remaining: seq<Output>): (r: bool)
    ensures r <==> exists i :: 0 <= i < |remaining| && !remaining[i].isCollection
  {
    var collections := CountCollections(remaining);
    remaining != [] && !(collections > 0 && collections == |remaining|)
  }

  /** The checks of the scheduler's output upload that decide the run's fate,
      in the source's order. `validation` answers each output's file check;
      each entry carries what storing it gives. */
  function PostOutputs(
    run: Run,
    secret: string,
    outputs: seq<Output>,
    entries: seq<Entry>,
    validation: Output -> Option<ErrorCode>,
    matchResult: Result<seq<ParameterError>, CollectionMatching.MatchFault>)
    : (o: Outcome<()>)
    ensures run.secret != secret ==>
      o == Outcome(run, Failure(Error(SCHEDULER_UNAUTHENTICATED_OUTPUT_PROVISIONING)))
    ensures run.secret == secret && !SchedulerManaged(run.state) ==>
      o == Outcome(run, Failure(Error(INTERNAL_INVALID_TASK_RUN_STATE)))
    ensures (run.secret == secret && SchedulerManaged(run.state)
             && StoreEntries(outputs, entries) == Failure(Error(INTERNAL_UNKNOWN_OUTPUT))) ==>
      o == Outcome(run.(state := FAILED), Failure(Error(INTERNAL_UNKNOWN_OUTPUT)))
    ensures (run.secret == secret && SchedulerManaged(run.state) && StoreEntries(outputs, entries).Failure?
             && StoreEntries(outputs, entries).error != Error(INTERNAL_UNKNOWN_OUTPUT)) ==>
      o == Outcome(run, Failure(StoreEntries(outputs, entries).error))
    ensures (run.secret == secret && SchedulerManaged(run.state) && AllSaved(entries)
             && ClaimEntries(outputs, entries).None?) ==>
      o == Outcome(run.(state := FAILED), Failure(Error(INTERNAL_UNKNOWN_OUTPUT)))
    ensures (run.secret == secret && SchedulerManaged(run.state) && StoreEntries(outputs, entries).Success?
             && MissingOutputs(StoreEntries(outputs, entries).value)) ==>
      o == Outcome(run.(state := FAILED), Failure(Error(INTERNAL_MISSING_OUTPUTS)))
    ensures o.result.Success? ==> o.run == run.(state := FINISHED)
    ensures o.run.state != run.state ==> SchedulerManaged(run.state) && o.run.state in {FAILED, FINISHED}
    ensures o.result.Success? <==> (run.secret == secret && SchedulerManaged(run.state)
      && StoreEntries(outputs, entries).Success? && !MissingOutputs(StoreEntries(outputs, entries).value)
      && FirstInvalid(outputs, validation).None? && matchResult == Success([]))
    ensures (run.secret == secret && SchedulerManaged(run.state) && StoreEntries(outputs, entries).Success?
             && !MissingOutputs(StoreEntries(outputs, entries).value) && FirstInvalid(outputs, validation).Some?) ==>
      (o.run == run.(state := FAILED) && o.result.Failure?
       && (matchResult.Success? ==>
             o.result.error == BatchError([FirstInvalid(outputs, validation).value] + matchResult.value)))
  {
    if run.secret != secret then Outcome(run, Failure(Error(SCHEDULER_UNAUTHENTICATED_OUTPUT_PROVISIONING)))
    else if !SchedulerManaged(run.state) then Outcome(run, Failure(Error(INTERNAL_INVALID_TASK_RUN_STATE)))
    else match StoreEntries(outputs, entries)
      case Failure(f) =>
        if f == Error(INTERNAL_UNKNOWN_OUTPUT) then Outcome(run.(state := FAILED), Failure(f))
        else Outcome(run, Failure(f))
      case Success(remaining) =>
        if MissingOutputs(remaining) then Outcome(run.(state := FAILED), Failure(Error(INTERNAL_MISSING_OUTPUTS)))
        else
          var invalid := FirstInvalid(outputs, validation);
          var run' := if invalid.Some? then run.(state := FAILED) else run;
          var errors := if invalid.Some? then [invalid.value] else [];
          match matchResult
          case Failure(_) => Outcome(run', Failure(Crash))
          case Success(matchErrors) =>
            if errors + matchErrors != [] then Outcome(run', Failure(BatchError(errors + matchErrors)))
            else Outcome(run.(state := FINISHED), Success(()))
  }

  /** The validation loop over the outputs stops at the first invalid one. */
  function FirstInvalid(outputs: seq<Output>, validation: Output -> Option<ErrorCode>)
    : (r: Option<ParameterError>)
    ensures r.None? <==> forall i :: 0 <= i < |outputs| ==> validation(outputs[i]).None?
    ensures r.Some? ==> exists i :: (0 <= i < |outputs| && validation(outputs[i]).Some?
      && r.value == ParameterError(validation(outputs[i]).value, outputs[i].name)
      && forall j :: 0 <= j < i ==> validation(outputs[j]).None?)
  {
    if outputs == [] then None
    else
      assert forall i :: 1 <= i < |outputs| ==> outputs[i] == outputs[1..][i - 1];
      match validation(outputs[0])
      case Some(c) => Some(ParameterError(c, outputs[0].name))
      case None =>
        var r := FirstInvalid(outputs[1..], validation);
        if r.Some? then
          var i :| 0 <= i < |outputs[1..]| && validation(outputs[1..][i]).Some?
            && r.value == ParameterError(validation(outputs[1..][i]).value, outputs[1..][i].name)
            && forall j :: 0 <= j < i ==> validation(outputs[1..][j]).None?;
          assert outputs[i + 1] == outputs[1..][i];
          r
        else r
  }

  /** After-execution match errors alone are thrown as a batch without saving a
      new state: the run stays in its scheduler-managed state. */
  lemma MatchErrorsAloneKeepState(run: Run, outputs: seq<Output>, entries: seq<Entry>,
                                  validation: Output -> Option<ErrorCode>, errs: seq<ParameterError>)
    requires SchedulerManaged(run.state)
    requires StoreEntries(outputs, entries).Success? && !MissingOutputs(StoreEntries(outputs, entries).value)
    requires forall i :: 0 <= i < |outputs| ==> validation(outputs[i]).None?
    requires errs != []
    ensures PostOutputs(run, run.secret, outputs, entries, validation, Success(errs)) ==
      Outcome(run, Failure(BatchError(errs)))
  {
    assert FirstInvalid(outputs, validation).None?;
    assert [] + errs == errs;
  }
}
