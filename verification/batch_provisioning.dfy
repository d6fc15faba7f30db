/**
 * `TaskProvisioningService.provisionMultipleRunParameters`: a list of input
 * provisions is validated in full before anything is stored, then each
 * provision is stored and persisted, and finally the run is promoted to
 * PROVISIONED when every input has a provisioned record. Also the parameter
 * lookup `getParameter` and the state guard of `retrieveIOZipArchive`.
 *
 * Jackson's binding of a provision, a type's validation, the file storage and
 * the response a type builds are parameters of the model.
 */
module BatchProvisioning {
  import opened Wrappers
  import Text
  import Json
  import opened ErrorCodes
  import opened RunLifecycle

  /** Whether a parameter is an input or an output of the task. */
  datatype ParameterKind = INPUT | OUTPUT

  /** A task parameter; `typeCheck` is its type's `validate`, answering the
      error code it throws, if any. */
  datatype Parameter = Parameter(name: string, kind: ParameterKind, typeCheck: Json.Json -> Option<ErrorCode>)

  /** A bound `GenericParameterProvision`; the name is None when the JSON had
      no `param_name`. */
  datatype Provision = Provision(name: Option<string>, value: Json.Json)

  /** `getParameter`: the first parameter of the given kind whose name equals
      `name` ignoring case, or None. */
  function GetParameter(params: seq<Parameter>, name: string, kind: ParameterKind): (r: Option<nat>)
    ensures r.None? <==>
      forall i :: 0 <= i < |params| ==> !(Text.EqualsIgnoreCase(params[i].name, name) && params[i].kind == kind)
    ensures r.Some? ==> (r.value < |params|
      && Text.EqualsIgnoreCase(params[r.value].name, name) && params[r.value].kind == kind
      && forall i :: 0 <= i < r.value ==> !(Text.EqualsIgnoreCase(params[i].name, name) && params[i].kind == kind))
  {
    GetParameterFrom(params, name, kind, 0)
  }

  function GetParameterFrom(params: seq<Parameter>, name: string, kind: ParameterKind, k: nat): (r: Option<nat>)
    requires k <= |params|
    ensures r.None? <==>
      forall i :: k <= i < |params| ==> !(Text.EqualsIgnoreCase(params[i].name, name) && params[i].kind == kind)
    ensures r.Some? ==> (k <= r.value < |params|
      && Text.EqualsIgnoreCase(params[r.value].name, name) && params[r.value].kind == kind
      && forall i :: k <= i < r.value ==> !(Text.EqualsIgnoreCase(params[i].name, name) && params[i].kind == kind))
    decreases |params| - k
  {
    if k == |params| then None
    else if Text.EqualsIgnoreCase(params[k].name, name) && params[k].kind == kind then Some(k)
    else GetParameterFrom(params, name, kind, k + 1)
  }

  /** Input parameter `p` is the one a provision names. A provision without a
      name matches no parameter. */
  predicate Names(p: Parameter, name: Option<string>) {
    p.kind == INPUT && name.Some? && Text.EqualsIgnoreCase(p.name, name.value)
  }

  /** The loop of `validateProvisionValuesAgainstTaskType` from parameter `k`:
      every input the provision names validates the value, the first failure
      throws, and no named input at all is PARAMETER_DOES_NOT_EXIST. */
  function CheckNamedInputs(params: seq<Parameter>, pr: Provision, k: nat, found: bool): (r: Option<ErrorCode>)
    requires k <= |params|
    ensures r.None? <==>
      (found || exists i :: k <= i < |params| && Names(params[i], pr.name))
      && forall i :: k <= i < |params| && Names(params[i], pr.name) ==> params[i].typeCheck(pr.value).None?
    ensures !found && (forall i :: k <= i < |params| ==> !Names(params[i], pr.name)) ==>
      r == Some(INTERNAL_PARAMETER_DOES_NOT_EXIST)
    decreases |params| - k
  {
    if k == |params| then
      if found then None else Some(INTERNAL_PARAMETER_DOES_NOT_EXIST)
    else if Names(params[k], pr.name) then
      match params[k].typeCheck(pr.value)
      case Some(c) => Some(c)
      case None => CheckNamedInputs(params, pr, k + 1, true)
    else CheckNamedInputs(params, pr, k + 1, found)
  }

  /** `validateProvisionValuesAgainstTaskType`: a provision is valid exactly
      when it names some input and every input it names accepts its value. */
  function ValidateProvision(params: seq<Parameter>, pr: Provision): (r: Option<ErrorCode>)
    ensures r.None? <==>
      (exists i :: 0 <= i < |params| && Names(params[i], pr.name))
      && forall i :: 0 <= i < |params| && Names(params[i], pr.name) ==> params[i].typeCheck(pr.value).None?
    ensures (forall i :: 0 <= i < |params| ==> !Names(params[i], pr.name)) ==>
      r == Some(INTERNAL_PARAMETER_DOES_NOT_EXIST)
  {
    CheckNamedInputs(params, pr, 0, false)
  }

  /** The error the first phase records for one provision: a JSON binding
      failure, or the code its validation throws, tied to the provision's name
      (the empty string where the source has none). */
  function ItemError(params: seq<Parameter>, decode: Json.Json -> Option<Provision>, j: Json.Json)
    : (r: Option<ParameterError>)
    ensures decode(j).None? ==> r == Some(ParameterError(INTERNAL_JSON_PROCESSING_ERROR, ""))
    ensures decode(j).Some? ==> (r.None? <==> ValidateProvision(params, decode(j).value).None?)
  {
    match decode(j)
    case None => Some(ParameterError(INTERNAL_JSON_PROCESSING_ERROR, ""))
    case Some(pr) =>
      match ValidateProvision(params, pr)
      case Some(c) => Some(ParameterError(c, pr.name.GetOr("")))
      case None => None
  }

  /** The first phase: every provision is validated and every error collected,
      in order. */
  function ValidationErrors(params: seq<Parameter>, decode: Json.Json -> Option<Provision>, provisions: seq<Json.Json>)
    : (r: seq<ParameterError>)
    ensures |r| <= |provisions|
    ensures r == [] <==> forall i :: 0 <= i < |provisions| ==> ItemError(params, decode, provisions[i]).None?
    ensures forall e :: e in r ==>
      exists i :: 0 <= i < |provisions| && ItemError(params, decode, provisions[i]) == Some(e)
  {
    if provisions == [] then []
    else
      assert forall i :: 1 <= i < |provisions| ==> provisions[i] == provisions[1..][i - 1];
      var rest := ValidationErrors(params, decode, provisions[1..]);
      match ItemError(params, decode, provisions[0])
      case Some(e) => [e] + rest
      case None => rest
  }

  /** The persisted input records of a run (parameter name -> provisioned), and
      what the second phase leaves behind. */
  datatype Stored = Stored(records: map<string, bool>, errors: seq<ParameterError>, responses: seq<Json.Json>)

  /** How the second phase ends: every provision handled, or a null
      dereference part-way, with the records persisted until then. */
  datatype StoreOutcome = Completed(stored: Stored) | Crashed(records: map<string, bool>)

  /** The `param_name` text the second phase reads, None where `get` is null. */
  function ParamName(j: Json.Json): Option<string> {
    match Json.Get(j, "param_name")
    case None => None
    case Some(n) => Some(Json.AsText(n))
  }

  /** `persistProvision` on the run's input records: a new record is created
      provisioned, while an existing one is left as it is. A collection record
      that item provisioning left below its minimum size thus stays
      unprovisioned when the whole collection is provisioned again. */
  function Persist(records: map<string, bool>, name: string): (r: map<string, bool>)
    ensures name in r && r.Keys == records.Keys + {name}
    ensures name in records ==> r[name] == records[name]
    ensures name !in records ==> r[name]
    ensures forall n :: n in records && n != name ==> r[n] == records[n]
  {
    if name in records then records else records[name := true]
  }

  /** The second phase from a given state: each provision is stored (a failure
      is collected as STORAGE_STORING_INPUT_FAILED and the provision skipped),
      then persisted under its name, then answered. */
  function StoreAll(
    params: seq<Parameter>,
    provisions: seq<Json.Json>,
    acc: Stored,
    storeOk: (string, Json.Json) -> bool,
    respond: (string, Json.Json) -> Json.Json)
    : (r: StoreOutcome)
    ensures r.Completed? ==>
      |r.stored.errors| + |r.stored.responses| == |acc.errors| + |acc.responses| + |provisions|
    ensures r.Completed? ==> acc.errors <= r.stored.errors && acc.responses <= r.stored.responses
    ensures r.Completed? ==> forall n :: n in acc.records ==>
      n in r.stored.records && r.stored.records[n] == acc.records[n]
    ensures r.Completed? ==> forall n :: n in r.stored.records && n !in acc.records ==> r.stored.records[n]
    ensures r.Crashed? ==> forall n :: n in acc.records ==> n in r.records && r.records[n] == acc.records[n]
    decreases |provisions|
  {
    if provisions == [] then Completed(acc)
    else
      var j := provisions[0];
      match ParamName(j)
      case None => Crashed(acc.records)
      case Some(name) =>
        if GetParameter(params, name, INPUT).None? then Crashed(acc.records)
        else if !storeOk(name, j) then
          StoreAll(params, provisions[1..],
            acc.(errors := acc.errors + [ParameterError(STORAGE_STORING_INPUT_FAILED, name)]), storeOk, respond)
        else
          StoreAll(params, provisions[1..],
            acc.(records := Persist(acc.records, name), responses := acc.responses + [respond(name, j)]),
            storeOk, respond)
  }

  /** When the second phase completes without a storage error, every provision
      has a record under its `param_name`: provisioned when it is new, and
      keeping its earlier flag when it existed before the call. */
  lemma {:induction false} StoredWithoutErrorsRecordsAll(
    params: seq<Parameter>, provisions: seq<Json.Json>, acc: Stored,
    storeOk: (string, Json.Json) -> bool, respond: (string, Json.Json) -> Json.Json)
    ensures var r := StoreAll(params, provisions, acc, storeOk, respond);
      r.Completed? && r.stored.errors == acc.errors ==>
        forall i :: 0 <= i < |provisions| ==>
          ParamName(provisions[i]).Some? && ParamName(provisions[i]).value in r.stored.records
          && (r.stored.records[ParamName(provisions[i]).value] <==>
                ParamName(provisions[i]).value !in acc.records || acc.records[ParamName(provisions[i]).value])
    decreases |provisions|
  {
    if provisions != [] {
      var j := provisions[0];
      assert forall i :: 1 <= i < |provisions| ==> provisions[i] == provisions[1..][i - 1];
      match ParamName(j)
      case None =>
      case Some(name) =>
        if GetParameter(params, name, INPUT).Some? {
          if !storeOk(name, j) {
            var acc' := acc.(errors := acc.errors + [ParameterError(STORAGE_STORING_INPUT_FAILED, name)]);
            var r := StoreAll(params, provisions[1..], acc', storeOk, respond);
            assert r.Completed? ==> |r.stored.errors| > |acc.errors|;
          } else {
            var acc' := acc.(records := Persist(acc.records, name), responses := acc.responses + [respond(name, j)]);
            StoredWithoutErrorsRecordsAll(params, provisions[1..], acc', storeOk, respond);
          }
        }
    }
  }

  /** The names of the task's input parameters. */
  function InputNames(params: seq<Parameter>): set<string> {
    set i | 0 <= i < |params| && params[i].kind == INPUT :: params[i].name
  }

  /** The run and the input records as saved after the call, and its result. */
  datatype BatchOutcome = BatchOutcome(run: Run, records: map<string, bool>, result: Result<seq<Json.Json>, Fault>)

  /** `provisionMultipleRunParameters` on the run found for the id (None when
      there is none) with its persisted input records. */
  function ProvisionMultiple(
    found: Option<Run>,
    params: seq<Parameter>,
    provisions: seq<Json.Json>,
    records: map<string, bool>,
    decode: Json.Json -> Option<Provision>,
    storeOk: (string, Json.Json) -> bool,
    respond: (string, Json.Json) -> Json.Json)
    : (r: Result<BatchOutcome, Fault>)
    ensures found.None? <==> r == Failure(Error(RUN_NOT_FOUND))
    ensures found.Some? && ValidationErrors(params, decode, provisions) != [] ==>
      r == Success(BatchOutcome(found.value, records, Failure(BatchError(ValidationErrors(params, decode, provisions)))))
    ensures r.Success? && r.value.result.Success? ==>
      ValidationErrors(params, decode, provisions) == []
      && |r.value.result.value| == |provisions|
      && (forall i :: 0 <= i < |provisions| ==>
            ParamName(provisions[i]).Some? && ParamName(provisions[i]).value in r.value.records
            && (r.value.records[ParamName(provisions[i]).value] <==>
                  ParamName(provisions[i]).value !in records || records[ParamName(provisions[i]).value]))
      && r.value.run == ChangeStateToProvisioned(found.value, InputNames(params), r.value.records)
    ensures r.Success? && r.value.run != found.value ==>
      r.value.result.Success? && r.value.run.state == PROVISIONED
  {
    match found
    case None => Failure(Error(RUN_NOT_FOUND))
    case Some(run) =>
      var errors := ValidationErrors(params, decode, provisions);
      if errors != [] then Success(BatchOutcome(run, records, Failure(BatchError(errors))))
      else
        var start := Stored(records, [], []);
        StoredWithoutErrorsRecordsAll(params, provisions, start, storeOk, respond);
        match StoreAll(params, provisions, start, storeOk, respond)
        case Crashed(recs) => Success(BatchOutcome(run, recs, Failure(Crash)))
        case Completed(st) =>
          if st.errors != [] then Success(BatchOutcome(run, st.records, Failure(BatchError(st.errors))))
          else
            var run' := ChangeStateToProvisioned(run, InputNames(params), st.records);
            Success(BatchOutcome(run', st.records, Success(st.responses)))
  }

  /** Batch provisioning never looks at the run's state: a run in any state,
      FINISHED included, is set back to PROVISIONED once every input is recorded
      as provisioned. */
  lemma BatchIgnoresRunState(
    run: Run, params: seq<Parameter>, provisions: seq<Json.Json>, records: map<string, bool>,
    decode: Json.Json -> Option<Provision>, storeOk: (string, Json.Json) -> bool,
    respond: (string, Json.Json) -> Json.Json)
    ensures var r := ProvisionMultiple(Some(run), params, provisions, records, decode, storeOk, respond);
      r.Success? && r.value.result.Success? && AllProvisioned(InputNames(params), r.value.records) ==>
        r.value.run == run.(state := PROVISIONED)
  {
  }

  /** An input whose record exists unprovisioned before the batch (a
      collection that item provisioning left below its minimum size) keeps the
      run out of PROVISIONED, even when the batch provisions that input again. */
  lemma UnprovisionedRecordBlocksPromotion(
    run: Run, params: seq<Parameter>, provisions: seq<Json.Json>, records: map<string, bool>,
    decode: Json.Json -> Option<Provision>, storeOk: (string, Json.Json) -> bool,
    respond: (string, Json.Json) -> Json.Json, name: string)
    requires name in InputNames(params) && name in records && !records[name]
    ensures var r := ProvisionMultiple(Some(run), params, provisions, records, decode, storeOk, respond);
      r.Success? && r.value.run == run && name in r.value.records && !r.value.records[name]
  {
  }

  /** The state guard of `retrieveIOZipArchive`: inputs can be read once the
      run has left CREATED, outputs only when it is FINISHED, and there must be
      at least one persisted record of the requested kind. */
  function RetrieveGuard(state: RunState, kind: ParameterKind, recordCount: nat): (r: Option<ErrorCode>)
    ensures r.None? <==>
      (kind == INPUT ==> state != CREATED) && (kind == OUTPUT ==> state == FINISHED) && recordCount > 0
    ensures r.Some? ==> r.value in {INTERNAL_INVALID_TASK_RUN_STATE, INTERNAL_PROVISIONS_NOT_FOUND}
  {
    if (kind == INPUT && state == CREATED) || (kind == OUTPUT && state != FINISHED) then
      Some(INTERNAL_INVALID_TASK_RUN_STATE)
    else if recordCount == 0 then Some(INTERNAL_PROVISIONS_NOT_FOUND)
    else None
  }
}
