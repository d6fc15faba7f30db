/**
 * Two smaller checks of `CollectionType`: the size bounds set from descriptor
 * constraints, and the shape check of a GeoJSON FeatureCollection value.
 */
module CollectionChecks {
  import opened Wrappers
  import Text
  import Json
  import opened ErrorCodes
  import opened TaskTypes
  import opened CollectionNodes

  /** The constraints a collection parameter's descriptor can carry; any other
      one is ignored by the collection type. */
  datatype CollectionConstraint = MIN_SIZE | MAX_SIZE | OtherConstraint(name: string)

  /** `setConstraint`: the named bound is set from the decimal text, nothing
      else changes; None is the NumberFormatException of `Integer.parseInt`. */
  function SetConstraint(t: ParamType, constraint: CollectionConstraint, value: string): (r: Option<ParamType>)
    requires t.CollectionType?
    ensures constraint.OtherConstraint? ==> r == Some(t)
    ensures !constraint.OtherConstraint? ==> (r.Some? <==> Text.ParseInt(value).Some?)
    ensures r.Some? ==> r.value.CollectionType? && r.value.subType == t.subType
    ensures r.Some? && constraint == MIN_SIZE ==>
      r.value.minSize == Text.ParseInt(value) && r.value.maxSize == t.maxSize
    ensures r.Some? && constraint == MAX_SIZE ==>
      r.value.maxSize == Text.ParseInt(value) && r.value.minSize == t.minSize
  {
    match constraint
    case MIN_SIZE => (match Text.ParseInt(value) case None => None case Some(v) => Some(t.(minSize := Some(v))))
    case MAX_SIZE => (match Text.ParseInt(value) case None => None case Some(v) => Some(t.(maxSize := Some(v))))
    case OtherConstraint(_) => Some(t)
  }

  /** Setting the two bounds, in either order, gives the same type. */
  lemma SetConstraintsCommute(t: ParamType, lo: string, hi: string)
    requires t.CollectionType?
    ensures var a := SetConstraint(t, MIN_SIZE, lo);
      var b := SetConstraint(t, MAX_SIZE, hi);
      (a.Some? && b.Some?) ==> SetConstraint(a.value, MAX_SIZE, hi) == SetConstraint(b.value, MIN_SIZE, lo)
  {
  }

  // ---------------------------------------------------------------- FeatureCollection

  /** The geometry check of `GeometryType.validate` on a feature's serialised
      geometry; it is not part of this model. */
  type GeometryCheck = Json.Json -> Option<ErrorCode>

  /** `has(key) && get(key).asText().equals(text)`. */
  predicate FieldIs(j: Json.Json, key: string, text: string) {
    Json.Get(j, key).Some? && Json.AsText(Json.Get(j, key).value) == text
  }

  /** A feature of type "Feature" with a geometry field the check accepts. */
  predicate FeatureOk(f: Json.Json, geometry: GeometryCheck) {
    FieldIs(f, "type", "Feature") && Json.Get(f, "geometry").Some?
    && geometry(Json.Get(f, "geometry").value).None?
  }

  /** The loop over the features: the first one that is refused, and why. */
  function CheckFeatures(features: seq<Json.Json>, geometry: GeometryCheck): (r: Option<NodeFault>)
    ensures r.None? <==> forall i :: 0 <= i < |features| ==> FeatureOk(features[i], geometry)
    ensures r.Some? ==> r.value.Rejected?
  {
    if features == [] then None
    else
      var f := features[0];
      assert forall i :: 1 <= i < |features| ==> features[i] == features[1..][i - 1];
      if !FieldIs(f, "type", "Feature") then Some(Rejected(INTERNAL_PARAMETER_INVALID_GEOJSON))
      else if Json.Get(f, "geometry").None? then Some(Rejected(INTERNAL_PARAMETER_INVALID_GEOJSON))
      else
        match geometry(Json.Get(f, "geometry").value)
        case Some(e) => Some(Rejected(e))
        case None => CheckFeatures(features[1..], geometry)
  }

  /** The root is a FeatureCollection with an array of features. */
  predicate CollectionShape(root: Json.Json) {
    FieldIs(root, "type", "FeatureCollection")
    && Json.Get(root, "features").Some? && Json.Get(root, "features").value.JArr?
  }

  /** `validateFeatureCollection` on collection type `t`; `root` is the parsed
      text, None when Jackson cannot read it. */
  function ValidateFeatureCollection(t: ParamType, root: Option<Json.Json>, geometry: GeometryCheck): (r: Option<NodeFault>)
    requires t.CollectionType?
    ensures root.None? ==> r == Some(Rejected(INTERNAL_INVALID_FEATURE_COLLECTION))
    ensures root.Some? && !CollectionShape(root.value) ==> r == Some(Rejected(INTERNAL_PARAMETER_INVALID_GEOJSON))
    ensures r.None? <==>
      root.Some? && CollectionShape(root.value)
      && SizeCheck(t, |Json.Get(root.value, "features").value.items|).None?
      && forall i :: 0 <= i < |Json.Get(root.value, "features").value.items| ==>
        FeatureOk(Json.Get(root.value, "features").value.items[i], geometry)
  {
    match root
    case None => Some(Rejected(INTERNAL_INVALID_FEATURE_COLLECTION))
    case Some(j) =>
      if !CollectionShape(j) then Some(Rejected(INTERNAL_PARAMETER_INVALID_GEOJSON))
      else
        var features := Json.Get(j, "features").value.items;
        match SizeCheck(t, |features|)
        case Some(f) => Some(f)
        case None => CheckFeatures(features, geometry)
  }

  lemma SecondField(k1: string, v1: Json.Json, k2: string, v2: Json.Json)
    requires k1 != k2
    ensures Json.Get(Json.JObj([(k1, v1), (k2, v2)]), k2) == Some(v2)
  {
    var fields := [(k1, v1), (k2, v2)];
    assert fields[1..] == [(k2, v2)];
    assert Json.Lookup(fields[1..], k2) == Some(v2);
  }

  /** The FeatureCollection holding `features`, in the field order a client
      writes it. */
  function FeatureCollectionOf(features: seq<Json.Json>): Json.Json {
    Json.JObj([("type", Json.JStr("FeatureCollection")), ("features", Json.JArr(features))])
  }

  lemma CollectionOfShape(features: seq<Json.Json>)
    ensures CollectionShape(FeatureCollectionOf(features))
    ensures Json.Get(FeatureCollectionOf(features), "features") == Some(Json.JArr(features))
  {
    assert "type" != "features" by { assert "type"[0] != "features"[0]; }
    SecondField("type", Json.JStr("FeatureCollection"), "features", Json.JArr(features));
    assert Json.Get(FeatureCollectionOf(features), "type") == Some(Json.JStr("FeatureCollection"));
  }

  /** A rotation holds the same features. */
  lemma {:induction false} RotationSameMembers(features: seq<Json.Json>, k: nat)
    requires k <= |features|
    ensures var reordered := features[k..] + features[..k];
      |reordered| == |features|
      && (forall i :: 0 <= i < |reordered| ==> reordered[i] in features)
      && (forall i :: 0 <= i < |features| ==> features[i] in reordered)
  {
    var reordered := features[k..] + features[..k];
    forall i | 0 <= i < |features| ensures features[i] in reordered {
      if i < k {
        assert features[i] == reordered[|features| - k + i];
      } else {
        assert features[i] == reordered[i - k];
      }
    }
  }

  /** A FeatureCollection passes exactly when its feature count lies within the
      bounds and every feature passes, whatever order the features come in. */
  lemma {:induction false} FeatureOrderIrrelevant(t: ParamType, features: seq<Json.Json>, geometry: GeometryCheck, k: nat)
    requires t.CollectionType? && k <= |features|
    ensures var reordered := features[k..] + features[..k];
      (ValidateFeatureCollection(t, Some(FeatureCollectionOf(features)), geometry).None?
       <==> ValidateFeatureCollection(t, Some(FeatureCollectionOf(reordered)), geometry).None?)
  {
    var reordered := features[k..] + features[..k];
    CollectionOfShape(features);
    CollectionOfShape(reordered);
    RotationSameMembers(features, k);
  }
}
