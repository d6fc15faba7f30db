/**
 * The PIMS annotation importer: GeoJSON features become annotation records
 * whose y axis is flipped against the image height, each annotation file is
 * attached to the image and ontology its metadata names, and a term is linked
 * when the feature's "path_class_name" names one of the ontology's terms.
 *
 * Geometries are kept as their kind and coordinate sequence, with real
 * coordinates; shapely's reading of a GeoJSON geometry (`shape`) is a
 * parameter, and the WKT text rendering is left to it.
 */
module AnnotationImport {
  import opened Wrappers
  import opened Json
  import opened PimsCatalog

  datatype Point = Point(x: real, y: real)

  /** A shapely geometry: its kind and its coordinates in order. */
  datatype Geometry = Geometry(kind: string, coordinates: seq<Point>)

  /** `transform(lambda x, y: (x, image_height - y), geometry)`. */
  function FlipY(g: Geometry, height: real): (r: Geometry)
    ensures r.kind == g.kind && |r.coordinates| == |g.coordinates|
    ensures forall i :: 0 <= i < |g.coordinates| ==>
      r.coordinates[i].x == g.coordinates[i].x && r.coordinates[i].y == height - g.coordinates[i].y
  {
    Geometry(g.kind, seq(|g.coordinates|, i requires 0 <= i < |g.coordinates| =>
      Point(g.coordinates[i].x, height - g.coordinates[i].y)))
  }

  /** Flipping twice against the same height restores every coordinate. */
  lemma FlipYInvolutive(g: Geometry, height: real)
    ensures FlipY(FlipY(g, height), height) == g
  {
    var twice := FlipY(FlipY(g, height), height);
    assert twice.coordinates == g.coordinates;
  }

  /** The properties of a `WktAnnotation`: the record only accepts an object of
      string values, and raises a validation error for anything else. */
  function StringProperties(j: Json): (r: Option<seq<(string, string)>>)
    ensures r.Some? <==> j.JObj? && forall i :: 0 <= i < |j.fields| ==> j.fields[i].1.JStr?
    ensures r.Some? ==> |r.value| == |j.fields|
  {
    if j.JObj? && forall i :: 0 <= i < |j.fields| ==> j.fields[i].1.JStr? then
      Some(seq(|j.fields|, i requires 0 <= i < |j.fields| && j.fields[i].1.JStr? => (j.fields[i].0, j.fields[i].1.s)))
    else None
  }

  /** `WktAnnotation`: the geometry and its string properties. */
  datatype WktAnnotation = WktAnnotation(geometry: Geometry, properties: seq<(string, string)>)

  /** Python's truth value of a JSON value: null, false, 0, 0.0, "" and the empty
      array and object are falsy. */
  predicate Falsy(j: Json) {
    j == JNull || j == JBool(false) || j == JNum(0) || (j.JDouble? && j.d == Finite(0.0)) || j == JStr("") || j == JArr([]) || j == JObj([])
  }

  /** The properties `feature.get("properties", {})` reads from an object as
      `geojson.load` leaves it. An object typed "Feature" is rebuilt by the
      library's Feature factory, which stores `properties or {}`; any other
      object is the decoded dict, where only a missing key gives {}. */
  function LoadedProperties(feature: Json): (r: Json)
    ensures Get(feature, "type") == Some(JStr("Feature")) ==>
      (if Get(feature, "properties").None? || Falsy(Get(feature, "properties").value) then r == JObj([])
       else r == Get(feature, "properties").value)
    ensures Get(feature, "type") != Some(JStr("Feature")) ==> r == Get(feature, "properties").GetOr(JObj([]))
  {
    var p := Get(feature, "properties");
    if Get(feature, "type") == Some(JStr("Feature")) && (p.None? || Falsy(p.value)) then JObj([])
    else p.GetOr(JObj([]))
  }

  /** `feature_to_wkt`: the feature's geometry flipped, with its properties
      as loaded; None where Python raises (no "geometry" key, not an object,
      or properties that are no string map). */
  function FeatureToWkt(feature: Json, height: int, shape: Json -> Geometry): (r: Option<WktAnnotation>)
    ensures r.Some? <==> (feature.JObj? && Has(feature, "geometry")
      && StringProperties(LoadedProperties(feature)).Some?)
    ensures r.Some? ==> (feature.JObj? && Has(feature, "geometry")
      && r.value.geometry == FlipY(shape(Get(feature, "geometry").value), height as real))
    ensures feature.JObj? && Has(feature, "geometry") && !Has(feature, "properties") ==>
      r == Some(WktAnnotation(FlipY(shape(Get(feature, "geometry").value), height as real), []))
    ensures (feature.JObj? && Has(feature, "geometry") && Get(feature, "type") == Some(JStr("Feature"))
      && Has(feature, "properties") && Falsy(Get(feature, "properties").value)) ==>
      r == Some(WktAnnotation(FlipY(shape(Get(feature, "geometry").value), height as real), []))
  {
    if !feature.JObj? then None
    else
      match Get(feature, "geometry")
      case None => None
      case Some(g) =>
        match StringProperties(LoadedProperties(feature))
        case None => None
        case Some(props) => Some(WktAnnotation(FlipY(shape(g), height as real), props))
  }

  /** Every feature converted in order; None as soon as one raises. */
  function FeaturesToWkt(features: seq<Json>, height: int, shape: Json -> Geometry): (r: Option<seq<WktAnnotation>>)
    ensures r.Some? <==> forall i :: 0 <= i < |features| ==> FeatureToWkt(features[i], height, shape).Some?
    ensures r.Some? ==> (|r.value| == |features|
      && forall i :: 0 <= i < |features| ==> FeatureToWkt(features[i], height, shape) == Some(r.value[i]))
  {
    if features == [] then Some([])
    else
      assert forall i :: 1 <= i < |features| ==> features[i] == features[1..][i - 1];
      match FeatureToWkt(features[0], height, shape)
      case None => None
      case Some(a) =>
        match FeaturesToWkt(features[1..], height, shape)
        case None => None
        case Some(rest) => Some([a] + rest)
  }

  /** `geojson_to_wkt`: one annotation per feature of a FeatureCollection,
      one for a Feature, and for any other object one annotation of its own
      geometry, not flipped, with no properties. A collection without
      "features" has already raised in `geojson.load` (its factory requires
      them); an empty object or string iterates as no features, and any
      other value that is not an array raises when iterated or read. */
  function GeoJsonToWkt(geojson: Json, height: int, shape: Json -> Geometry): (r: Option<seq<WktAnnotation>>)
    ensures !geojson.JObj? ==> r.None?
    ensures geojson.JObj? && Get(geojson, "type") == Some(JStr("Feature")) ==>
      r.Some? == FeatureToWkt(geojson, height, shape).Some?
      && (r.Some? ==> r.value == [FeatureToWkt(geojson, height, shape).value])
    ensures (geojson.JObj? && Get(geojson, "type") != Some(JStr("Feature"))
      && Get(geojson, "type") != Some(JStr("FeatureCollection"))) ==>
      r == Some([WktAnnotation(shape(geojson), [])])
    ensures Get(geojson, "type") == Some(JStr("FeatureCollection")) && !Has(geojson, "features") ==> r.None?
    ensures (geojson.JObj? && Get(geojson, "type") == Some(JStr("FeatureCollection"))
      && Get(geojson, "features") in {Some(JArr([])), Some(JObj([])), Some(JStr(""))}) ==> r == Some([])
    ensures (geojson.JObj? && Get(geojson, "type") == Some(JStr("FeatureCollection"))
      && Has(geojson, "features") && Get(geojson, "features").value.JArr?) ==>
      var features := Get(geojson, "features").value.items;
      (r.Some? <==> forall i :: 0 <= i < |features| ==> FeatureToWkt(features[i], height, shape).Some?)
      && (r.Some? ==> |r.value| == |features|)
    ensures r.Some? && Get(geojson, "type") == Some(JStr("FeatureCollection")) ==>
      Has(geojson, "features") && (!Get(geojson, "features").value.JArr? ==> r.value == [])
  {
    if !geojson.JObj? then None
    else
      var kind := Get(geojson, "type");
      if kind == Some(JStr("FeatureCollection")) then
        match Get(geojson, "features")
        case None => None
        case Some(JArr(features)) => FeaturesToWkt(features, height, shape)
        case Some(other) => if other == JObj([]) || other == JStr("") then Some([]) else None
      else if kind == Some(JStr("Feature")) then
        match FeatureToWkt(geojson, height, shape)
        case None => None
        case Some(a) => Some([a])
      else Some([WktAnnotation(shape(geojson), [])])
  }

  /** `load`: the annotations of the GeoJSON file at `path`. `files` maps the
      paths that exist to their parsed JSON, None when the text is no JSON;
      a missing file and a decoding error give [], and anything that raises
      while converting (None) propagates. */
  function Load(files: map<string, Option<Json>>, path: string, height: int, shape: Json -> Geometry)
    : (r: Option<seq<WktAnnotation>>)
    ensures path !in files || files[path].None? ==> r == Some([])
    ensures path in files && files[path].Some? ==> r == GeoJsonToWkt(files[path].value, height, shape)
  {
    if path !in files then Some([])
    else
      match files[path]
      case None => Some([])
      case Some(j) => GeoJsonToWkt(j, height, shape)
  }

  // ---------------------------------------------------------------- import

  /** The metadata of one ANNOTATION element: its file and the aliases of the
      image and ontology it refers to. */
  datatype AnnotationEntry = AnnotationEntry(filename: string, imageRef: string, ontologyRef: string)

  /** An annotation saved to the catalogue, with the term linked to it. */
  datatype SavedAnnotation = SavedAnnotation(geometry: Geometry, imageId: int, termId: Option<int>)

  /** The value of "path_class_name" among the properties. */
  function ClassName(properties: seq<(string, string)>): (r: Option<string>)
    ensures r.Some? ==> (exists i :: 0 <= i < |properties| && properties[i] == ("path_class_name", r.value))
    ensures r.None? ==> forall i :: 0 <= i < |properties| ==> properties[i].0 != "path_class_name"
  {
    if properties == [] then None
    else if properties[0].0 == "path_class_name" then Some(properties[0].1)
    else
      assert forall i :: 1 <= i < |properties| ==> properties[i] == properties[1..][i - 1];
      ClassName(properties[1..])
  }

  /** The saving loop: each annotation saved on the image, with the term whose
      name is its class name when the ontology has one. */
  function SaveAll(annotations: seq<WktAnnotation>, imageId: int, terms: seq<Term>): (r: seq<SavedAnnotation>)
    ensures |r| == |annotations|
    ensures forall i :: 0 <= i < |r| ==> r[i].geometry == annotations[i].geometry && r[i].imageId == imageId
    ensures forall i :: 0 <= i < |r| ==>
      (r[i].termId.Some? <==> GetTerm(ClassName(annotations[i].properties), terms).Some?)
  {
    seq(|annotations|, i requires 0 <= i < |annotations| =>
      var term := GetTerm(ClassName(annotations[i].properties), terms);
      SavedAnnotation(annotations[i].geometry, imageId, if term.Some? then Some(term.value.id) else None))
  }

  /** `import_annotation`: an unknown image, then an unknown ontology, gives a
      failed result naming it and saves nothing; otherwise every annotation
      of the file is saved. None where Python raises: an alias without entry,
      or a file whose conversion raises. */
  function ImportAnnotation(alias: string, entries: map<string, AnnotationEntry>, images: seq<ImageInstance>,
                            ontologies: seq<Ontology>, termsOf: int -> seq<Term>,
                            files: map<string, Option<Json>>, shape: Json -> Geometry)
    : (r: Option<(ImportResult, seq<SavedAnnotation>)>)
    ensures alias !in entries ==> r.None?
    ensures alias in entries && GetImage(entries[alias].imageRef, images).None? ==>
      r == Some((ImportResult(alias, false, Some("Image " + entries[alias].imageRef + " does not exist")), []))
    ensures (alias in entries && GetImage(entries[alias].imageRef, images).Some?
      && GetOntology(entries[alias].ontologyRef, ontologies).None?) ==>
      r == Some((ImportResult(alias, false, Some("Ontology " + entries[alias].ontologyRef + " does not exist")), []))
    ensures r.Some? && r.value.0.success ==> (r.value.0 == ImportResult(alias, true, None)
      && GetImage(entries[alias].imageRef, images).Some? && GetOntology(entries[alias].ontologyRef, ontologies).Some?)
  {
    if alias !in entries then None
    else
      var entry := entries[alias];
      match GetImage(entry.imageRef, images)
      case None => Some((ImportResult(alias, false, Some("Image " + entry.imageRef + " does not exist")), []))
      case Some(image) =>
        match GetOntology(entry.ontologyRef, ontologies)
        case None => Some((ImportResult(alias, false, Some("Ontology " + entry.ontologyRef + " does not exist")), []))
        case Some(ontology) =>
          match Load(files, entry.filename, image.height, shape)
          case None => None
          case Some(annotations) =>
            Some((ImportResult(alias, true, None), SaveAll(annotations, image.id, termsOf(ontology.id))))
  }

  /** `run`: one import per ANNOTATION_REF alias, in document order, and their
      summary; the first import that raises ends the run. */
  function Run(aliases: seq<string>, entries: map<string, AnnotationEntry>, images: seq<ImageInstance>,
               ontologies: seq<Ontology>, termsOf: int -> seq<Term>,
               files: map<string, Option<Json>>, shape: Json -> Geometry)
    : (r: Option<(ImportSummary, seq<SavedAnnotation>)>)
    ensures r.Some? ==> (r.value.0 == Summarize(r.value.0.results) && r.value.0.total == |aliases|
      && forall i :: 0 <= i < |aliases| ==> r.value.0.results[i].name == aliases[i])
    ensures r.Some? <==> forall i :: 0 <= i < |aliases| ==>
      ImportAnnotation(aliases[i], entries, images, ontologies, termsOf, files, shape).Some?
  {
    match ImportAll(aliases, entries, images, ontologies, termsOf, files, shape)
    case None => None
    case Some((results, saved)) => Some((Summarize(results), saved))
  }

  function ImportAll(aliases: seq<string>, entries: map<string, AnnotationEntry>, images: seq<ImageInstance>,
                     ontologies: seq<Ontology>, termsOf: int -> seq<Term>,
                     files: map<string, Option<Json>>, shape: Json -> Geometry)
    : (r: Option<(seq<ImportResult>, seq<SavedAnnotation>)>)
    ensures r.Some? <==> forall i :: 0 <= i < |aliases| ==>
      ImportAnnotation(aliases[i], entries, images, ontologies, termsOf, files, shape).Some?
    ensures r.Some? ==> (|r.value.0| == |aliases| && forall i :: 0 <= i < |aliases| ==>
      r.value.0[i] == ImportAnnotation(aliases[i], entries, images, ontologies, termsOf, files, shape).value.0)
  {
    if aliases == [] then Some(([], []))
    else
      assert forall i :: 1 <= i < |aliases| ==> aliases[i] == aliases[1..][i - 1];
      match ImportAnnotation(aliases[0], entries, images, ontologies, termsOf, files, shape)
      case None => None
      case Some((result, saved)) =>
        match ImportAll(aliases[1..], entries, images, ontologies, termsOf, files, shape)
        case None => None
        case Some((results, more)) => Some(([result] + results, saved + more))
  }
}
