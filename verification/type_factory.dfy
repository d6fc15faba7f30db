/**
 * `TypeFactory`: the parameter type a task descriptor's type node stands for.
 * A node may be the bare id text, an object with an "id", or an object whose
 * "type" child is one of those; the ten known ids build their type with the
 * constraints the node carries, any other id builds a plain type, and "array"
 * builds its item type from the "subtype" child, recursively.
 *
 * The constraint enums of the ten types are not part of this model: their
 * keys, in enum order, are the `ConstraintKeys` parameter.
 */
module TypeFactory {
  import opened Wrappers
  import Text
  import Json
  import opened TaskTypes
  import opened CollectionChecks
  import opened ImageValidation

  /** The keys each type's constraint enum lists, in declaration order; the
      image and collection keys come with the constraint they set.
      `numberBounds` are the keys of the four number bounds (>=, >, <=, <),
      whose text `NumberType.setConstraint` parses as a double; the two
      number flags go through `Boolean.parseBoolean`, which cannot fail. */
  datatype ConstraintKeys = ConstraintKeys(
    integer: seq<string>,
    number: seq<string>,
    numberBounds: set<string>,
    text: seq<string>,
    enumeration: seq<string>,
    dateTime: seq<string>,
    image: seq<(string, ImageConstraint)>,
    file: seq<string>,
    collection: seq<(string, CollectionConstraint)>)

  /** A type node fails to build: no id text (`textValue()` null, or no "id"
      at all), no "subtype" under an array, an array bound that is not a
      decimal `int`, or a number bound that is not a double. */
  datatype TypeFault = NoTypeId | NoSubtype | BadBound | BadNumberBound

  const KNOWN_IDS: set<string> :=
    {"boolean", "integer", "number", "string", "enumeration", "datetime", "geometry", "image", "file", "array"}

  lemma GetBelow(j: Json.Json, key: string)
    requires Json.Get(j, key).Some?
    ensures Json.Get(j, key).value < j
  {
    var i :| 0 <= i < |j.fields| && j.fields[i] == (key, Json.Get(j, key).value);
    assert j.fields[i] in j.fields;
  }

  /** `getTypeId`: the text of a textual node, otherwise the text of its "id". */
  function TypeId(typeNode: Json.Json): (r: Option<string>)
    ensures typeNode.JStr? ==> r == Some(typeNode.s)
    ensures !typeNode.JStr? ==> (r.Some? <==> Json.Get(typeNode, "id").Some? && Json.Get(typeNode, "id").value.JStr?)
    ensures !typeNode.JStr? && r.Some? ==> Json.Get(typeNode, "id") == Some(Json.JStr(r.value))
  {
    if typeNode.JStr? then Some(typeNode.s)
    else Json.TextValue(Json.Get(typeNode, "id").GetOr(Json.JNull))
  }

  /** The node `createType` reads the id and constraints from: the "type"
      child when there is one, otherwise the node itself. */
  function TypeNode(node: Json.Json): (r: Json.Json)
    ensures r == node || Json.Get(node, "type") == Some(r)
    ensures Json.Get(node, "type").None? ==> r == node
    ensures r == node || r < node
  {
    match Json.Get(node, "type")
    case None => node
    case Some(t) => GetBelow(node, "type"); t
  }

  /** The keys of `keys` the node has, in the same order. */
  function Present(node: Json.Json, keys: seq<string>): (r: seq<string>)
    ensures forall k :: k in r <==> k in keys && Json.Has(node, k)
    ensures |r| <= |keys|
  {
    if keys == [] then []
    else
      var rest := Present(node, keys[1..]);
      assert forall k :: k in keys <==> k == keys[0] || k in keys[1..];
      if Json.Has(node, keys[0]) then [keys[0]] + rest else rest
  }

  /** The value of a present key. */
  function Value(node: Json.Json, key: string): Json.Json {
    Json.Get(node, key).GetOr(Json.JNull)
  }

  /** Integer and string constraints: `asInt()` of each present key. */
  function IntPairs(node: Json.Json, keys: seq<string>, parseDouble: Json.DoubleParser): (r: seq<(string, int)>)
    ensures forall i :: 0 <= i < |r| ==> (r[i].0 in keys && Json.Has(node, r[i].0)
      && r[i].1 == Json.AsInt(Json.Get(node, r[i].0).value, parseDouble))
    ensures forall k :: k in keys && Json.Has(node, k) ==> exists i :: 0 <= i < |r| && r[i].0 == k
  {
    var ks := Present(node, keys);
    var r := seq(|ks|, i requires 0 <= i < |ks| => (ks[i], Json.AsInt(Value(node, ks[i]), parseDouble)));
    assert forall i :: 0 <= i < |r| ==> Json.Has(node, r[i].0) && r[i].1 == Json.AsInt(Json.Get(node, r[i].0).value, parseDouble) by {
      forall i | 0 <= i < |r| ensures Json.Has(node, r[i].0) && r[i].1 == Json.AsInt(Json.Get(node, r[i].0).value, parseDouble) {
        assert r[i].0 == ks[i] && Json.Has(node, ks[i]);
      }
    }
    assert forall k :: k in keys && Json.Has(node, k) ==> exists i :: 0 <= i < |r| && r[i].0 == k by {
      forall k | k in keys && Json.Has(node, k) ensures exists i :: 0 <= i < |r| && r[i].0 == k {
        var i :| 0 <= i < |ks| && ks[i] == k;
        assert r[i].0 == k;
      }
    }
    r
  }

  /** Number, enumeration and date-time constraints: the text `show` gives
      each present value (`asText()` for numbers, `toString()` for the rest). */
  function TextPairs(node: Json.Json, keys: seq<string>, show: Json.Json -> string): (r: seq<(string, string)>)
    ensures forall i :: 0 <= i < |r| ==> (r[i].0 in keys && Json.Has(node, r[i].0)
      && r[i].1 == show(Json.Get(node, r[i].0).value))
    ensures forall k :: k in keys && Json.Has(node, k) ==> exists i :: 0 <= i < |r| && r[i].0 == k
  {
    var ks := Present(node, keys);
    var r := seq(|ks|, i requires 0 <= i < |ks| => (ks[i], show(Value(node, ks[i]))));
    assert forall i :: 0 <= i < |ks| ==> ks[i] in ks && Json.Has(node, ks[i]);
    assert forall i :: 0 <= i < |ks| ==> Value(node, ks[i]) == Json.Get(node, ks[i]).value;
    assert forall i :: 0 <= i < |ks| ==> r[i].1 == show(Json.Get(node, ks[i]).value);
    assert forall k :: k in keys && Json.Has(node, k) ==> exists i :: 0 <= i < |r| && r[i].0 == k by {
      forall k | k in keys && Json.Has(node, k) ensures exists i :: 0 <= i < |r| && r[i].0 == k {
        var i :| 0 <= i < |ks| && ks[i] == k;
        assert r[i].0 == k;
      }
    }
    r
  }

  /** File constraints keep each present value as a node. */
  function NodePairs(node: Json.Json, keys: seq<string>): (r: seq<(string, Json.Json)>)
    ensures forall i :: 0 <= i < |r| ==> r[i].0 in keys && Json.Get(node, r[i].0) == Some(r[i].1)
    ensures forall k :: k in keys && Json.Has(node, k) ==> exists i :: 0 <= i < |r| && r[i].0 == k
  {
    var ks := Present(node, keys);
    var r := seq(|ks|, i requires 0 <= i < |ks| => (ks[i], Value(node, ks[i])));
    assert forall i :: 0 <= i < |ks| ==> ks[i] in ks && Json.Has(node, ks[i]);
    assert forall i :: 0 <= i < |r| ==> r[i].1 == Json.Get(node, ks[i]).value;
    assert forall k :: k in keys && Json.Has(node, k) ==> exists i :: 0 <= i < |r| && r[i].0 == k by {
      forall k | k in keys && Json.Has(node, k) ensures exists i :: 0 <= i < |r| && r[i].0 == k {
        var i :| 0 <= i < |ks| && ks[i] == k;
        assert r[i].0 == k;
      }
    }
    r
  }

  /** The image constraints: each present key, in enum order, is handed to
      the image type's `setConstraint`. */
  function ImageFrom(node: Json.Json, keys: seq<(string, ImageConstraint)>, parse: string -> seq<string>,
                     parseDouble: Json.DoubleParser, c: ImageConstraints): (r: ImageConstraints)
    ensures forall k: ImageConstraint :: !k.OtherImageConstraint? ==>
      (HasConstraint(r, k) <==> HasConstraint(c, k) || exists i :: 0 <= i < |keys| && keys[i].1 == k && Json.Has(node, keys[i].0))
    ensures (forall i :: 0 <= i < |keys| ==> !Json.Has(node, keys[i].0)) ==> r == c
    decreases |keys|
  {
    if keys == [] then c
    else
      var next := if Json.Has(node, keys[0].0) then SetImageConstraint(c, keys[0].1, Value(node, keys[0].0), parse, parseDouble) else c;
      assert forall i :: 1 <= i < |keys| ==> keys[i] == keys[1..][i - 1];
      var r := ImageFrom(node, keys[1..], parse, parseDouble, next);
      assert forall k: ImageConstraint :: !k.OtherImageConstraint? ==>
        (HasConstraint(next, k) <==> HasConstraint(c, k) || (keys[0].1 == k && Json.Has(node, keys[0].0)));
      r
  }

  /** The array bounds: each present key, in enum order, is set from its
      `asText()`; the first that is not a decimal `int` throws. */
  function CollectionFrom(node: Json.Json, keys: seq<(string, CollectionConstraint)>, t: ParamType): (r: Option<ParamType>)
    requires t.CollectionType?
    ensures r.Some? ==> r.value.CollectionType? && r.value.subType == t.subType
    ensures r.None? <==> exists i :: 0 <= i < |keys| && BadBoundAt(node, keys, i)
    ensures (forall i :: 0 <= i < |keys| ==> !Json.Has(node, keys[i].0)) ==> r == Some(t)
    decreases |keys|
  {
    if keys == [] then Some(t)
    else
      assert forall i :: 1 <= i < |keys| ==> keys[i] == keys[1..][i - 1];
      assert forall i :: 1 <= i < |keys| ==> BadBoundAt(node, keys, i) == BadBoundAt(node, keys[1..], i - 1);
      if !Json.Has(node, keys[0].0) then
        assert !BadBoundAt(node, keys, 0);
        BadBoundShift(node, keys);
        CollectionFrom(node, keys[1..], t)
      else
        match SetConstraint(t, keys[0].1, Json.AsText(Value(node, keys[0].0)))
        case None =>
          assert BadBoundAt(node, keys, 0);
          None
        case Some(t') =>
          assert !BadBoundAt(node, keys, 0);
          BadBoundShift(node, keys);
          CollectionFrom(node, keys[1..], t')
  }

  /** Key `i` is a size bound the node has, whose text is not a decimal `int`. */
  predicate BadBoundAt(node: Json.Json, keys: seq<(string, CollectionConstraint)>, i: nat)
    requires i < |keys|
  {
    !keys[i].1.OtherConstraint? && Json.Has(node, keys[i].0)
    && Text.ParseInt(Json.AsText(Value(node, keys[i].0))).None?
  }

  /** The type a known id other than "array" builds, with the constraints
      its node carries; an unknown id builds the plain type. Each id builds
      its own kind of type and no other id builds it. */
  function LeafType(typeNode: Json.Json, id: string, keys: ConstraintKeys, parse: string -> seq<string>,
                    parseDouble: Json.DoubleParser): (r: ParamType)
    requires id != "array"
    ensures id !in KNOWN_IDS <==> r == PlainType
    ensures r == BooleanType <==> id == "boolean"
    ensures r == GeometryType <==> id == "geometry"
    ensures r.IntegerType? <==> id == "integer"
    ensures r.NumberType? <==> id == "number"
    ensures r.StringType? <==> id == "string"
    ensures r.EnumerationType? <==> id == "enumeration"
    ensures r.DateTimeType? <==> id == "datetime"
    ensures r.ImageType? <==> id == "image"
    ensures r.FileType? <==> id == "file"
    ensures !r.CollectionType?
  {
    if id == "boolean" then BooleanType
    else if id == "integer" then IntegerType(IntPairs(typeNode, keys.integer, parseDouble))
    else if id == "number" then NumberType(TextPairs(typeNode, keys.number, Json.AsText))
    else if id == "string" then StringType(IntPairs(typeNode, keys.text, parseDouble))
    else if id == "enumeration" then EnumerationType(TextPairs(typeNode, keys.enumeration, Json.Serialize))
    else if id == "datetime" then DateTimeType(TextPairs(typeNode, keys.dateTime, Json.Serialize))
    else if id == "geometry" then GeometryType
    else if id == "image" then ImageType(ImageFrom(typeNode, keys.image, parse, parseDouble, ImageConstraints(None, None, None, None)))
    else if id == "file" then FileType(NodePairs(typeNode, keys.file))
    else PlainType
  }

  /** Some size bound of the node is not a decimal `int`. */
  predicate HasBadBound(node: Json.Json, keys: seq<(string, CollectionConstraint)>) {
    exists i :: 0 <= i < |keys| && BadBoundAt(node, keys, i)
  }

  lemma BadBoundShift(node: Json.Json, keys: seq<(string, CollectionConstraint)>)
    requires |keys| > 0 && !BadBoundAt(node, keys, 0)
    ensures (exists i :: 0 <= i < |keys| && BadBoundAt(node, keys, i))
        <==> (exists i :: 0 <= i < |keys| - 1 && BadBoundAt(node, keys[1..], i))
  {
    if exists i :: 0 <= i < |keys| && BadBoundAt(node, keys, i) {
      var i :| 0 <= i < |keys| && BadBoundAt(node, keys, i);
      assert keys[1..][i - 1] == keys[i];
      assert BadBoundAt(node, keys[1..], i - 1);
    }
    if exists i :: 0 <= i < |keys| - 1 && BadBoundAt(node, keys[1..], i) {
      var i :| 0 <= i < |keys| - 1 && BadBoundAt(node, keys[1..], i);
      assert keys[1..][i] == keys[i + 1];
      assert BadBoundAt(node, keys, i + 1);
    }
  }

  /** `NumberType.parseDouble`: "nan", "inf" and "-inf" in any case, else the
      JDK's `Double.parseDouble` (not part of this model). Only ASCII letters lower-case to
      'n', 'a', 'i' or 'f', so folding ASCII letters alone decides the three
      words. */
  predicate NumberText(s: string, parseDouble: Json.DoubleParser) {
    Text.ToLower(s) in {"nan", "inf", "-inf"} || parseDouble(s).Some?
  }

  /** Some number bound the node carries does not parse: `setConstraint`
      throws `NumberFormatException` on it. */
  predicate HasBadNumberBound(node: Json.Json, keys: ConstraintKeys, parseDouble: Json.DoubleParser) {
    exists k :: k in keys.number && k in keys.numberBounds && Json.Has(node, k)
      && !NumberText(Json.AsText(Value(node, k)), parseDouble)
  }

  /** `createType`: the type the node stands for. Once the id is known, a
      number fails on a bound that is not a double, and an array on a bad
      bound, on a missing "subtype", or because its item type fails. */
  function CreateType(node: Json.Json, keys: ConstraintKeys, parse: string -> seq<string>, parseDouble: Json.DoubleParser): (r: Result<ParamType, TypeFault>)
    ensures TypeId(TypeNode(node)).None? ==> r == Failure(NoTypeId)
    ensures TypeId(TypeNode(node)) == Some("number") ==>
      (r == Failure(BadNumberBound) <==> HasBadNumberBound(TypeNode(node), keys, parseDouble))
    ensures (TypeId(TypeNode(node)).Some? && TypeId(TypeNode(node)).value != "array"
      && !(TypeId(TypeNode(node)) == Some("number") && HasBadNumberBound(TypeNode(node), keys, parseDouble))) ==>
      r == Success(LeafType(TypeNode(node), TypeId(TypeNode(node)).value, keys, parse, parseDouble))
    ensures TypeId(TypeNode(node)) == Some("array") && HasBadBound(TypeNode(node), keys.collection) ==> r == Failure(BadBound)
    ensures (TypeId(TypeNode(node)) == Some("array") && !HasBadBound(TypeNode(node), keys.collection)
      && Json.Get(TypeNode(node), "subtype").None?) ==> r == Failure(NoSubtype)
    ensures TypeId(TypeNode(node)) == Some("array") && r.Success? ==>
      r.value.CollectionType? && Json.Get(TypeNode(node), "subtype").Some?
    decreases node
  {
    var typeNode := TypeNode(node);
    match TypeId(typeNode)
    case None => Failure(NoTypeId)
    case Some(id) =>
      if id == "number" && HasBadNumberBound(typeNode, keys, parseDouble) then Failure(BadNumberBound)
      else if id != "array" then Success(LeafType(typeNode, id, keys, parse, parseDouble))
      else
        match CollectionFrom(typeNode, keys.collection, CollectionType(None, None, PlainType))
        case None => Failure(BadBound)
        case Some(bounded) =>
          match Json.Get(typeNode, "subtype")
          case None => Failure(NoSubtype)
          case Some(subtype) =>
            GetBelow(typeNode, "subtype");
            match CreateType(subtype, keys, parse, parseDouble)
            case Failure(e) => Failure(e)
            case Success(sub) => Success(bounded.(subType := sub))
  }

  /** An array with valid bounds and a "subtype" builds exactly when its
      item type does, and the item type is the type built from "subtype". */
  lemma ArraySubtype(node: Json.Json, keys: ConstraintKeys, parse: string -> seq<string>, parseDouble: Json.DoubleParser)
    requires TypeId(TypeNode(node)) == Some("array") && !HasBadBound(TypeNode(node), keys.collection)
    requires Json.Get(TypeNode(node), "subtype").Some?
    ensures var sub := CreateType(Json.Get(TypeNode(node), "subtype").value, keys, parse, parseDouble);
      (CreateType(node, keys, parse, parseDouble).Success? <==> sub.Success?)
      && (sub.Failure? ==> CreateType(node, keys, parse, parseDouble) == Failure(sub.error))
      && (sub.Success? ==> CreateType(node, keys, parse, parseDouble).value.subType == sub.value)
  {
  }

  /** No constraint enum has a key named `name`. */
  predicate KeysAvoid(keys: ConstraintKeys, name: string) {
    name !in keys.integer && name !in keys.number && name !in keys.text && name !in keys.enumeration
    && name !in keys.dateTime && name !in keys.file
    && (forall i :: 0 <= i < |keys.image| ==> keys.image[i].0 != name)
    && (forall i :: 0 <= i < |keys.collection| ==> keys.collection[i].0 != name)
  }

  /** Without any of its keys the node yields no constraint list entries. */
  lemma PresentNone(node: Json.Json, keys: seq<string>)
    requires forall i :: 0 <= i < |keys| ==> !Json.Has(node, keys[i])
    ensures Present(node, keys) == []
  {
  }

  /** The type built for an id depends on the node only through the
      constraints read from it. */
  lemma {:induction false} LeafTypeCongruent(a: Json.Json, b: Json.Json, id: string, keys: ConstraintKeys, parse: string -> seq<string>,
                                                         parseDouble: Json.DoubleParser)
    requires id != "array"
    requires Present(a, keys.integer) == Present(b, keys.integer) == []
    requires Present(a, keys.number) == Present(b, keys.number) == []
    requires Present(a, keys.text) == Present(b, keys.text) == []
    requires Present(a, keys.enumeration) == Present(b, keys.enumeration) == []
    requires Present(a, keys.dateTime) == Present(b, keys.dateTime) == []
    requires Present(a, keys.file) == Present(b, keys.file) == []
    requires forall i :: 0 <= i < |keys.image| ==> !Json.Has(a, keys.image[i].0) && !Json.Has(b, keys.image[i].0)
    ensures LeafType(a, id, keys, parse, parseDouble) == LeafType(b, id, keys, parse, parseDouble)
  {
  }

  /** The node has none of the constraint keys, being an object whose only
      field is `name` where no key is `name`, or not an object at all. */
  lemma NoKeysPresent(node: Json.Json, name: string, keys: ConstraintKeys)
    requires KeysAvoid(keys, name)
    requires forall k :: Json.Has(node, k) ==> k == name
    ensures Present(node, keys.integer) == [] && Present(node, keys.number) == []
    ensures Present(node, keys.text) == [] && Present(node, keys.enumeration) == []
    ensures Present(node, keys.dateTime) == [] && Present(node, keys.file) == []
    ensures forall i :: 0 <= i < |keys.image| ==> !Json.Has(node, keys.image[i].0)
    ensures forall i :: 0 <= i < |keys.collection| ==> !Json.Has(node, keys.collection[i].0)
  {
    PresentNone(node, keys.integer);
    PresentNone(node, keys.number);
    PresentNone(node, keys.text);
    PresentNone(node, keys.enumeration);
    PresentNone(node, keys.dateTime);
    PresentNone(node, keys.file);
  }

  /** The bare id text and the object holding only that id build the same
      type, provided no constraint is named "id". */
  lemma TextualShorthand(id: string, keys: ConstraintKeys, parse: string -> seq<string>, parseDouble: Json.DoubleParser)
    requires KeysAvoid(keys, "id")
    ensures CreateType(Json.JObj([("id", Json.JStr(id))]), keys, parse, parseDouble) == CreateType(Json.JStr(id), keys, parse, parseDouble)
  {
    var obj := Json.JObj([("id", Json.JStr(id))]);
    assert "type" != "id" by { assert "type"[0] != "id"[0]; }
    assert "subtype" != "id" by { assert "subtype"[0] != "id"[0]; }
    assert Json.Get(obj, "id") == Some(Json.JStr(id));
    assert TypeNode(obj) == obj;
    assert forall k :: Json.Has(obj, k) ==> k == "id";
    NoKeysPresent(obj, "id", keys);
    NoKeysPresent(Json.JStr(id), "id", keys);
    if id != "array" {
      LeafTypeCongruent(obj, Json.JStr(id), id, keys, parse, parseDouble);
    }
  }

  /** An array node whose item type is an array node, `n` levels deep, over
      a leaf node. */
  function NestedArray(n: nat, leaf: Json.Json): Json.Json {
    if n == 0 then leaf else Json.JObj([("id", Json.JStr("array")), ("subtype", NestedArray(n - 1, leaf))])
  }

  /** An array node without bounds builds the collection of its item type. */
  lemma ArrayNode(node: Json.Json, sub: Json.Json, keys: ConstraintKeys, parse: string -> seq<string>, parseDouble: Json.DoubleParser)
    requires TypeNode(node) == node && TypeId(node) == Some("array")
    requires forall i :: 0 <= i < |keys.collection| ==> !Json.Has(node, keys.collection[i].0)
    requires Json.Get(node, "subtype") == Some(sub) && CreateType(sub, keys, parse, parseDouble).Success?
    ensures CreateType(node, keys, parse, parseDouble) == Success(CollectionType(None, None, CreateType(sub, keys, parse, parseDouble).value))
  {
    assert CollectionFrom(node, keys.collection, CollectionType(None, None, PlainType)) == Some(CollectionType(None, None, PlainType));
  }

  /** The shape of one array level of `NestedArray`. */
  lemma ArrayLevel(sub: Json.Json, keys: ConstraintKeys)
    requires KeysAvoid(keys, "id") && KeysAvoid(keys, "subtype")
    ensures var node := Json.JObj([("id", Json.JStr("array")), ("subtype", sub)]);
      TypeNode(node) == node && TypeId(node) == Some("array") && Json.Get(node, "subtype") == Some(sub)
      && forall i :: 0 <= i < |keys.collection| ==> !Json.Has(node, keys.collection[i].0)
  {
    var node := Json.JObj([("id", Json.JStr("array")), ("subtype", sub)]);
    assert "type" != "id" by { assert "type"[0] != "id"[0]; }
    assert "type" != "subtype" by { assert "type"[1] != "subtype"[1]; }
    assert "id" != "subtype" by { assert "id"[0] != "subtype"[0]; }
    SecondField("id", Json.JStr("array"), "subtype", sub);
    assert Json.Get(node, "id") == Some(Json.JStr("array"));
    assert Json.Get(node, "type").None?;
  }

  /** `n` nested arrays build a collection type `n` levels deeper than the
      leaf's type: the recursion on "subtype" follows the whole chain. */
  lemma NestedArrayDepth(n: nat, leaf: Json.Json, keys: ConstraintKeys, parse: string -> seq<string>, parseDouble: Json.DoubleParser)
    requires KeysAvoid(keys, "id") && KeysAvoid(keys, "subtype")
    requires CreateType(leaf, keys, parse, parseDouble).Success?
    ensures CreateType(NestedArray(n, leaf), keys, parse, parseDouble).Success?
    ensures Depth(CreateType(NestedArray(n, leaf), keys, parse, parseDouble).value) == n + Depth(CreateType(leaf, keys, parse, parseDouble).value)
  {
    if n > 0 {
      NestedArrayDepth(n - 1, leaf, keys, parse, parseDouble);
      var sub := NestedArray(n - 1, leaf);
      var inner := CreateType(sub, keys, parse, parseDouble);
      assert inner.Success?;
      ArrayLevel(sub, keys);
      var node := Json.JObj([("id", Json.JStr("array")), ("subtype", sub)]);
      ArrayNode(node, sub, keys, parse, parseDouble);
      assert node == NestedArray(n, leaf);
    }
  }
}
