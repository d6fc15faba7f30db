/**
 * The catalogue records the PIMS importers read and create (projects, images,
 * ontologies, terms), the first-by-name lookups of the importer utilities, and
 * the per-item results and summary every importer reports.
 */
module PimsCatalog {
  import opened Wrappers

  datatype Project = Project(name: string, id: int)
  datatype ImageInstance = ImageInstance(instanceFilename: string, id: int, height: int)
  datatype Ontology = Ontology(name: string, id: int)
  datatype Term = Term(name: string, id: int, ontologyId: int, color: string)

  /** The position of the first element whose key is `name`, or -1. */
  function FirstIndex<T>(xs: seq<T>, name: string, key: T -> string): (i: int)
    ensures -1 <= i < |xs|
    ensures i >= 0 ==> key(xs[i]) == name
    ensures forall j :: 0 <= j < |xs| && (i < 0 || j < i) ==> key(xs[j]) != name
  {
    if xs == [] then -1
    else if key(xs[0]) == name then 0
    else
      assert forall j :: 1 <= j < |xs| ==> xs[j] == xs[1..][j - 1];
      var k := FirstIndex(xs[1..], name, key);
      if k < 0 then -1 else k + 1
  }

  /** `next((x for x in xs if key(x) == name), None)`: the first element whose
      key is `name`. */
  function FirstNamed<T>(xs: seq<T>, name: string, key: T -> string): (r: Option<T>)
    ensures r.Some? <==> exists i :: 0 <= i < |xs| && key(xs[i]) == name
    ensures r.Some? ==> exists i :: (0 <= i < |xs| && xs[i] == r.value && key(xs[i]) == name
      && forall j :: 0 <= j < i ==> key(xs[j]) != name)
  {
    var i := FirstIndex(xs, name, key);
    if i < 0 then None else Some(xs[i])
  }

  /** `get_image`: the first image whose `instanceFilename` is `name`. */
  function GetImage(name: string, images: seq<ImageInstance>): (r: Option<ImageInstance>)
    ensures r.Some? <==> exists i :: 0 <= i < |images| && images[i].instanceFilename == name
    ensures r.Some? ==> r.value in images && r.value.instanceFilename == name
  {
    FirstNamed(images, name, (i: ImageInstance) => i.instanceFilename)
  }

  /** `get_ontology`: the first ontology named `name`. */
  function GetOntology(name: string, ontologies: seq<Ontology>): (r: Option<Ontology>)
    ensures r.Some? <==> exists i :: 0 <= i < |ontologies| && ontologies[i].name == name
    ensures r.Some? ==> r.value in ontologies && r.value.name == name
  {
    FirstNamed(ontologies, name, (o: Ontology) => o.name)
  }

  /** `get_term`: the first term named `name`; a name that is not a string
      (None here) equals no term name. */
  function GetTerm(name: Option<string>, terms: seq<Term>): (r: Option<Term>)
    ensures r.Some? <==> name.Some? && exists i :: 0 <= i < |terms| && terms[i].name == name.value
    ensures r.Some? ==> r.value in terms && r.value.name == name.value
  {
    match name
    case None => None
    case Some(n) => FirstNamed(terms, n, (t: Term) => t.name)
  }

  /** `get_project`: `projects.setdefault(key, Project(name=key).save())`. The
      argument is evaluated first, so a project named `key` with id `newId` is
      saved to `server` whether or not the map already has the key; the map
      keeps an existing entry and gains the new project otherwise. */
  function GetProject(key: string, projects: map<string, Project>, server: seq<Project>, newId: int)
    : (r: (Project, map<string, Project>, seq<Project>))
    ensures key in r.1 && r.0 == r.1[key]
    ensures key in projects ==> r.0 == projects[key] && r.1 == projects
    ensures key !in projects ==> r.0 == Project(key, newId)
    ensures forall k :: k != key ==> (k in r.1 <==> k in projects) && (k in projects ==> r.1[k] == projects[k])
    ensures r.2 == server + [Project(key, newId)]
  {
    var created := Project(key, newId);
    var after := if key in projects then projects else projects[key := created];
    (after[key], after, server + [created])
  }

  /** A second `get_project` with the same key finds what the first one put in
      the map and changes the map no further, though it saves once more. */
  lemma GetProjectStable(key: string, projects: map<string, Project>, server: seq<Project>, id1: int, id2: int)
    ensures var (p1, m1, s1) := GetProject(key, projects, server, id1);
      var (p2, m2, s2) := GetProject(key, m1, s1, id2);
      p2 == p1 && m2 == m1 && |s2| == |server| + 2
  {
  }

  // ---------------------------------------------------------------- results

  /** `ImportResult`: the item's name, whether it succeeded, and a message. */
  datatype ImportResult = ImportResult(name: string, success: bool, message: Option<string>)

  /** `ImportSummary`. */
  datatype ImportSummary = ImportSummary(total: int, successful: int, failed: int, results: seq<ImportResult>)

  function CountSuccessful(results: seq<ImportResult>): (n: nat)
    ensures n <= |results|
  {
    if results == [] then 0 else (if results[0].success then 1 else 0) + CountSuccessful(results[1..])
  }

  function CountFailed(results: seq<ImportResult>): (n: nat)
  {
    if results == [] then 0 else (if results[0].success then 0 else 1) + CountFailed(results[1..])
  }

  /** The summary both importers build: the count of results, of successes,
      and the difference. */
  function Summarize(results: seq<ImportResult>): (r: ImportSummary)
    ensures r.results == results && r.total == |results|
    ensures 0 <= r.successful <= r.total && r.failed == r.total - r.successful
  {
    var successful := CountSuccessful(results);
    ImportSummary(|results|, successful, |results| - successful, results)
  }

  /** Every result is counted once: the failed count is the number of
      unsuccessful results. */
  lemma {:induction false} SuccessfulAndFailedPartition(results: seq<ImportResult>)
    ensures CountSuccessful(results) + CountFailed(results) == |results|
    ensures Summarize(results).failed == CountFailed(results)
  {
    if results != [] {
      SuccessfulAndFailedPartition(results[1..]);
    }
  }
}
