/**
 * The parameter types of an app-engine task, as `TypeFactory` builds them from
 * a descriptor. Only the fields that the modelled operations read are kept.
 */
module TaskTypes {
  import opened Wrappers
  import Json

  /** The four nullable constraints of an image parameter. */
  datatype ImageConstraints = ImageConstraints(
    formats: Option<seq<string>>,
    maxFileSize: Option<string>,
    maxWidth: Option<int>,
    maxHeight: Option<int>)

  /** The type of a parameter. Integer, number, string, enumeration, datetime and
      file types keep their present constraints as (key, value) pairs in the
      order of their constraint enum. `PlainType` is the bare `Type` that an
      unknown id produces. */
  datatype ParamType =
    | PlainType
    | BooleanType
    | IntegerType(intConstraints: seq<(string, int)>)
    | NumberType(textConstraints: seq<(string, string)>)
    | StringType(intConstraints: seq<(string, int)>)
    | EnumerationType(textConstraints: seq<(string, string)>)
    | DateTimeType(textConstraints: seq<(string, string)>)
    | GeometryType
    | ImageType(image: ImageConstraints)
    | FileType(nodeConstraints: seq<(string, Json.Json)>)
    | CollectionType(minSize: Option<int>, maxSize: Option<int>, subType: ParamType)

  /** How deep the collections nest: 0 for a non-collection. */
  function Depth(t: ParamType): (d: nat)
    ensures t.CollectionType? <==> d > 0
  {
    if t.CollectionType? then 1 + Depth(t.subType) else 0
  }

  /** The type found `k` steps down the chain of collection subtypes
      (`Level(t, 0) == t`); it stays at the leaf once the chain ends. */
  function Level(t: ParamType, k: nat): (r: ParamType)
    ensures k < Depth(t) ==> r.CollectionType?
    ensures k >= Depth(t) ==> !r.CollectionType?
  {
    if k == 0 || !t.CollectionType? then t else Level(t.subType, k - 1)
  }

  /** The non-collection type at the bottom of the chain. */
  function Leaf(t: ParamType): (r: ParamType)
    ensures !r.CollectionType?
    ensures r == Level(t, Depth(t))
  {
    if t.CollectionType? then Leaf(t.subType) else t
  }
}
