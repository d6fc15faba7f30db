/**
 * The PIMS metadata validator: a dataset's six metadata documents are checked
 * against their XML schemas in a fixed order, and the first missing schema or
 * invalid document rejects the dataset.
 *
 * XML parsing and schema validation are not modelled; what a document's
 * validation comes to is a parameter, and so is whether each schema file
 * exists and parses.
 */
module MetadataValidation {
  import opened Wrappers

  /** `MetadataStructure`, in declaration order, which is the order of the
      checks. */
  const STRUCTURES: seq<string> := ["dataset", "image", "observation", "policy", "sample", "staining"]

  /** What validating one document comes to. */
  datatype DocCheck = DocValid | DocInvalid | SyntaxError | OtherError

  /** `XMLValidator.validate`: true only for a valid document; a syntax error
      and any other error are logged and give false. */
  function ValidateDocument(check: DocCheck): (r: bool)
    ensures r <==> check == DocValid
  {
    match check
    case DocValid => true
    case DocInvalid => false
    case SyntaxError => false
    case OtherError => false
  }

  /** The schema files: present keys are the structures whose schema exists,
      mapped to whether it parses (the validator's constructor raises
      otherwise). */
  type Schemas = map<string, bool>

  /** Structure `i` passes: its schema exists and parses, and its document
      validates. */
  predicate Passes(i: int, schemas: Schemas, docs: string -> DocCheck)
    requires 0 <= i < |STRUCTURES|
  {
    STRUCTURES[i] in schemas && schemas[STRUCTURES[i]] && docs(STRUCTURES[i]) == DocValid
  }

  /** `MetadataValidator.validate`: None when a schema that exists does not
      parse (the constructor is outside any handler), otherwise whether every
      structure passed. `stoppedAt` is the structure the loop stopped at, or
      six when it went through. */
  method Validate(schemas: Schemas, docs: string -> DocCheck) returns (r: Option<bool>, stoppedAt: nat)
    ensures stoppedAt <= |STRUCTURES|
    ensures forall i :: 0 <= i < stoppedAt ==> Passes(i, schemas, docs)
    ensures stoppedAt < |STRUCTURES| ==> !Passes(stoppedAt, schemas, docs)
    ensures r == Some(true) <==> forall i :: 0 <= i < |STRUCTURES| ==> Passes(i, schemas, docs)
    ensures r == Some(true) <==> stoppedAt == |STRUCTURES|
    ensures r.None? <==> (stoppedAt < |STRUCTURES| && STRUCTURES[stoppedAt] in schemas
      && !schemas[STRUCTURES[stoppedAt]])
    ensures stoppedAt < |STRUCTURES| && STRUCTURES[stoppedAt] !in schemas ==> r == Some(false)
  {
    var i := 0;
    while i < |STRUCTURES|
      invariant 0 <= i <= |STRUCTURES|
      invariant forall k :: 0 <= k < i ==> Passes(k, schemas, docs)
    {
      var structure := STRUCTURES[i];
      if structure !in schemas {
        return Some(false), i;
      }
      if !schemas[structure] {
        return None, i;
      }
      if !ValidateDocument(docs(structure)) {
        return Some(false), i;
      }
      i := i + 1;
    }
    return Some(true), i;
  }
}
