/**
 * The PIMS ontology importer: the dataset's ontology is found by name, or
 * created with one term per entry of its JSON term file.
 *
 * The term file is given already parsed (None when it is missing or is no
 * JSON: `open`/`json.load` raise); the catalogue's ontologies and the id the
 * server gives a new one are parameters.
 */
module OntologyImport {
  import opened Wrappers
  import opened Json
  import opened PimsCatalog

  /** A term as the importer creates it: `Term(term.get("type"), ontology.id,
      term.get("color"))`, with absent keys passed as None. */
  datatype NewTerm = NewTerm(termType: Option<Json>, ontologyId: int, color: Option<Json>)

  /** What `run` returns, and the ontologies and terms it saved. */
  datatype OntologyRun = OntologyRun(ontology: Ontology, created: seq<Ontology>, terms: seq<NewTerm>)

  /** The terms of the term file's entries, in order; None where Python
      raises: an entry that is no object, or a document other than an array
      that is not empty (iterating an object or a string yields strings). */
  function TermsOf(data: Json, ontologyId: int): (r: Option<seq<NewTerm>>)
    ensures data.JArr? && (forall i :: 0 <= i < |data.items| ==> data.items[i].JObj?) ==>
      (r.Some? && |r.value| == |data.items|
      && forall i :: 0 <= i < |data.items| ==>
        r.value[i] == NewTerm(Get(data.items[i], "type"), ontologyId, Get(data.items[i], "color")))
    ensures data.JArr? && (exists i :: 0 <= i < |data.items| && !data.items[i].JObj?) ==> r.None?
    ensures data == JObj([]) || data == JStr("") ==> r == Some([])
  {
    match data
    case JArr(items) =>
      if forall i :: 0 <= i < |items| ==> items[i].JObj? then
        Some(seq(|items|, i requires 0 <= i < |items| => NewTerm(Get(items[i], "type"), ontologyId, Get(items[i], "color"))))
      else None
    case JObj(fields) => if fields == [] then Some([]) else None
    case JStr(s) => if s == "" then Some([]) else None
    case _ => None
  }

  /** `run`: the term file is read first, so a missing file raises whatever the
      catalogue holds; an ontology already named `name` is returned with
      nothing created; otherwise a new ontology is saved, then its terms. None
      where the run raises, including after the ontology was saved. */
  function Run(name: string, termFile: Option<Json>, ontologies: seq<Ontology>, newId: int): (r: Option<OntologyRun>)
    ensures termFile.None? ==> r.None?
    ensures termFile.Some? && GetOntology(name, ontologies).Some? ==>
      r == Some(OntologyRun(GetOntology(name, ontologies).value, [], []))
    ensures r.Some? && GetOntology(name, ontologies).None? ==> (r.value.ontology == Ontology(name, newId)
      && r.value.created == [Ontology(name, newId)]
      && Some(r.value.terms) == TermsOf(termFile.value, newId))
    ensures r.Some? ==> r.value.ontology.name == name
  {
    match termFile
    case None => None
    case Some(data) =>
      match GetOntology(name, ontologies)
      case Some(existing) => Some(OntologyRun(existing, [], []))
      case None =>
        var ontology := Ontology(name, newId);
        match TermsOf(data, ontology.id)
        case None => None
        case Some(terms) => Some(OntologyRun(ontology, [ontology], terms))
  }

  /** Running the importer again after it created an ontology finds that
      ontology and creates nothing more. */
  lemma RerunFindsCreated(name: string, data: Json, ontologies: seq<Ontology>, id1: int, id2: int)
    requires GetOntology(name, ontologies).None?
    requires Run(name, Some(data), ontologies, id1).Some?
    ensures Run(name, Some(data), ontologies + Run(name, Some(data), ontologies, id1).value.created, id2)
      == Some(OntologyRun(Ontology(name, id1), [], []))
  {
    var after := ontologies + [Ontology(name, id1)];
    assert after[|ontologies|] == Ontology(name, id1);
    var found := GetOntology(name, after).value;
    assert found == Ontology(name, id1) by {
      var k :| 0 <= k < |after| && after[k] == found && after[k].name == name
        && forall j :: 0 <= j < k ==> after[j].name != name;
      assert forall j :: 0 <= j < |ontologies| ==> after[j].name != name;
      assert k == |ontologies|;
    }
  }
}
