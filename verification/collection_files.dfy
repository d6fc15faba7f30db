/**
 * `CollectionType.validateFiles`: the check of a collection output read back
 * from a run's archive. The archive entries are gathered into a list for the
 * parameter's main directory (directory entries of nested collections are not
 * registered, so their items fail on a null list); the list must hold an
 * `array.yml` entry and is then walked by `validateNode`.
 *
 * The `array.yml` entry is added to the same list as the items, so the size
 * check sees one element more than the output holds. `ValidateFiles` models
 * the code as written and `ValidateFilesCorrected` checks the items alone.
 */
module CollectionFiles {
  import opened Wrappers
  import Text
  import Json
  import opened ErrorCodes
  import opened TaskTypes
  import opened CollectionNodes

  /** A `StorageDataEntry`: its name, whether it is a DIRECTORY entry, and for
      a file its text. */
  datatype StorageEntry = StorageEntry(name: string, isDirectory: bool, data: string)

  /** What the gathering puts into a list: the content of an `array.yml`, or an
      item map with its parsed index and value. */
  datatype FileItem = Metadata(content: string) | Item(index: int, value: Node)

  /** `getClass().getSimpleName()` of a leaf type. */
  function SimpleName(t: ParamType): string {
    match t
    case PlainType => "Type"
    case BooleanType => "BooleanType"
    case IntegerType(_) => "IntegerType"
    case NumberType(_) => "NumberType"
    case StringType(_) => "StringType"
    case EnumerationType(_) => "EnumerationType"
    case DateTimeType(_) => "DateTimeType"
    case GeometryType => "GeometryType"
    case ImageType(_) => "ImageType"
    case FileType(_) => "FileType"
    case CollectionType(_, _, _) => "CollectionType"
  }

  /** The JDK parsers item texts go through: `Double.parseDouble`, and
      `Instant.parse` as the set of texts it accepts without throwing. They
      are not part of this model. */
  datatype JdkParsers = JdkParsers(parseDouble: Json.DoubleParser, isInstant: string -> bool)

  /** The item value read from an entry for the leaf type: integers, numbers
      and datetimes are parsed and crash on text that does not parse,
      booleans are `Boolean.parseBoolean`, strings, enumerations, geometries,
      images and files keep the text; the bare `Type` and a collection are
      refused as unknown leaf types. */
  function ReadValue(leafType: ParamType, data: string, jdk: JdkParsers): (r: Result<Node, NodeFault>)
    ensures leafType.PlainType? ==> r == Failure(RejectedWithMessage("unknown leaf type: Type"))
    ensures leafType.CollectionType? ==> r == Failure(RejectedWithMessage("unknown leaf type: CollectionType"))
    ensures leafType.IntegerType? ==> (r.Success? <==> Text.ParseInt(data).Some?)
    ensures leafType.NumberType? ==> (r.Success? <==> jdk.parseDouble(data).Some?)
    ensures leafType.DateTimeType? ==> (r.Success? <==> jdk.isInstant(data))
    ensures (leafType.IntegerType? || leafType.NumberType? || leafType.DateTimeType?) && r.Failure? ==> r.error == Crash
    ensures (leafType.StringType? || leafType.EnumerationType? || leafType.GeometryType?
      || leafType.ImageType? || leafType.FileType?) ==> r == Success(NScalar(data))
    ensures leafType.BooleanType? ==> r.Success? && (r.value == NScalar("true") <==> Text.EqualsIgnoreCase(data, "true"))
    ensures r.Success? ==> r.value.NScalar?
  {
    match leafType
    case IntegerType(_) =>
      (match Text.ParseInt(data) case None => Failure(Crash) case Some(v) => Success(NScalar(Text.IntToString(v))))
    case NumberType(_) => if jdk.parseDouble(data).Some? then Success(NScalar(data)) else Failure(Crash)
    case DateTimeType(_) => if jdk.isInstant(data) then Success(NScalar(data)) else Failure(Crash)
    case BooleanType => Success(NScalar(if Text.EqualsIgnoreCase(data, "true") then "true" else "false"))
    case PlainType => Failure(RejectedWithMessage("unknown leaf type: Type"))
    case CollectionType(_, _, _) =>
      assert SimpleName(leafType) == "CollectionType";
      assert "unknown leaf type: " + "CollectionType" == "unknown leaf type: CollectionType";
      Failure(RejectedWithMessage("unknown leaf type: " + SimpleName(leafType)))
    case _ => Success(NScalar(data))
  }

  /** The directory part of an entry name, up to and including the last '/'. */
  function ParentName(name: string): (r: string)
    ensures Text.StartsWith(name, r)
    ensures r == "" || r[|r| - 1] == '/'
  {
    var cut := Text.LastIndexOfChar(name, '/') + 1;
    assert name[..cut][..cut] == name[..cut];
    name[..cut]
  }

  /** The text after the last '/'. */
  function BaseName(name: string): string {
    name[Text.LastIndexOfChar(name, '/') + 1..]
  }

  /** The loop over the entries from position `k`; `list` is the main
      directory's list once registered (None while `lists` is empty). A file
      whose directory is not the registered main directory meets a null list. */
  function Gather(main: string, leafType: ParamType, entries: seq<StorageEntry>, k: nat, list: Option<seq<FileItem>>, jdk: JdkParsers)
    : (r: Result<Option<seq<FileItem>>, NodeFault>)
    requires k <= |entries|
    ensures r.Success? && r.value.None? ==> list.None?
    ensures (r.Success? && r.value.Some?
      && (forall j :: k <= j < |entries| ==> !Text.EndsWith(entries[j].name, "array.yml"))
      && (list.Some? ==> MetadataCount(list.value) == 0)) ==> MetadataCount(r.value.value) == 0
    decreases |entries| - k
  {
    if k == |entries| then Success(list)
    else
      var e := entries[k];
      var parent := ParentName(e.name);
      if Text.EndsWith(e.name, "/") then
        Gather(main, leafType, entries, k + 1, if e.name == main + "/" then Some([]) else list, jdk)
      else if Text.EndsWith(e.name, "array.yml") then
        if list.None? || parent != main + "/" then Failure(Crash)
        else Gather(main, leafType, entries, k + 1, Some(list.value + [Metadata(e.data)]), jdk)
      else
        match Text.ParseInt(BaseName(e.name))
        case None => Failure(Crash)
        case Some(index) =>
          match ReadValue(leafType, e.data, jdk)
          case Failure(f) => Failure(f)
          case Success(v) =>
            if list.None? || parent != main + "/" then Failure(Crash)
            else
              MetadataCountAppend(list.value, Item(index, v));
              Gather(main, leafType, entries, k + 1, Some(list.value + [Item(index, v)]), jdk)
  }

  /** How many `array.yml` maps a list holds. */
  function MetadataCount(items: seq<FileItem>): nat {
    if items == [] then 0 else (if items[0].Metadata? then 1 else 0) + MetadataCount(items[1..])
  }

  /** How many item maps a list holds. */
  function ItemCount(items: seq<FileItem>): nat {
    if items == [] then 0 else (if items[0].Item? then 1 else 0) + ItemCount(items[1..])
  }

  lemma {:induction false} MetadataCountAppend(items: seq<FileItem>, x: FileItem)
    ensures MetadataCount(items + [x]) == MetadataCount(items) + (if x.Metadata? then 1 else 0)
    decreases |items|
  {
    if items == [] {
      assert items + [x] == [x];
    } else {
      assert (items + [x])[1..] == items[1..] + [x];
      MetadataCountAppend(items[1..], x);
    }
  }

  lemma {:induction false} CountsAddUp(items: seq<FileItem>)
    ensures MetadataCount(items) + ItemCount(items) == |items|
  {
    if items != [] {
      CountsAddUp(items[1..]);
    }
  }

  /** The maps `validateNode` sees: an `array.yml` map has no "value". */
  function AsNode(x: FileItem): Node {
    match x
    case Metadata(_) => NMap(NNull)
    case Item(_, v) => NMap(v)
  }

  function AsNodes(items: seq<FileItem>): (r: seq<Node>)
    ensures |r| == |items|
  {
    seq(|items|, i requires 0 <= i < |items| => AsNode(items[i]))
  }

  /** The item maps alone. */
  function ItemNodes(items: seq<FileItem>): (r: seq<Node>)
    ensures |r| == ItemCount(items)
  {
    if items == [] then []
    else (if items[0].Item? then [AsNode(items[0])] else []) + ItemNodes(items[1..])
  }

  /** `validateFiles` as written, on parameter `main` of collection type `t`;
      `leaf` is the leaf type's own `validate`. */
  function ValidateFiles(t: ParamType, main: string, entries: seq<StorageEntry>, leaf: LeafCheck, jdk: JdkParsers): (r: Option<NodeFault>)
    requires t.CollectionType?
    ensures entries == [] ==> r == Some(Crash)
    ensures (entries != [] && Gather(main, Leaf(t), entries, 0, None, jdk).Success?
      && Gather(main, Leaf(t), entries, 0, None, jdk).value.Some?
      && MetadataCount(Gather(main, Leaf(t), entries, 0, None, jdk).value.value) == 0)
      ==> r == Some(Rejected(INTERNAL_MISSING_METADATA))
    ensures entries != [] && Gather(main, Leaf(t), entries, 0, None, jdk) == Success(None) ==> r.None?
  {
    if entries == [] then Some(Crash)
    else
      match Gather(main, Leaf(t), entries, 0, None, jdk)
      case Failure(f) => Some(f)
      case Success(None) => None
      case Success(Some(items)) =>
        if MetadataCount(items) == 0 then Some(Rejected(INTERNAL_MISSING_METADATA))
        else ValidateNative(t, leaf, NList(AsNodes(items)))
  }

  /** The corrected check: the same gathering, with only the items walked. */
  function ValidateFilesCorrected(t: ParamType, main: string, entries: seq<StorageEntry>, leaf: LeafCheck, jdk: JdkParsers): (r: Option<NodeFault>)
    requires t.CollectionType?
    ensures entries == [] ==> r == Some(Crash)
    ensures (entries != [] && Gather(main, Leaf(t), entries, 0, None, jdk).Success?
      && Gather(main, Leaf(t), entries, 0, None, jdk).value.Some?
      && MetadataCount(Gather(main, Leaf(t), entries, 0, None, jdk).value.value) == 0)
      ==> r == Some(Rejected(INTERNAL_MISSING_METADATA))
    ensures entries != [] && Gather(main, Leaf(t), entries, 0, None, jdk).Failure? ==>
      r == ValidateFiles(t, main, entries, leaf, jdk)
  {
    if entries == [] then Some(Crash)
    else
      match Gather(main, Leaf(t), entries, 0, None, jdk)
      case Failure(f) => Some(f)
      case Success(None) => None
      case Success(Some(items)) =>
        if MetadataCount(items) == 0 then Some(Rejected(INTERNAL_MISSING_METADATA))
        else ValidateNative(t, leaf, NList(ItemNodes(items)))
  }

  /** A main directory without any `array.yml` entry fails with
      MISSING_METADATA, whatever its items. */
  lemma NoArrayYmlIsMissingMetadata(t: ParamType, main: string, entries: seq<StorageEntry>, leaf: LeafCheck, jdk: JdkParsers)
    requires t.CollectionType? && entries != []
    requires forall j :: 0 <= j < |entries| ==> !Text.EndsWith(entries[j].name, "array.yml")
    requires Gather(main, Leaf(t), entries, 0, None, jdk).Success?
    requires Gather(main, Leaf(t), entries, 0, None, jdk).value.Some?
    ensures ValidateFiles(t, main, entries, leaf, jdk) == Some(Rejected(INTERNAL_MISSING_METADATA))
  {
  }

  /** What the size check compares for a single-level collection: as written,
      the items and the `array.yml` entries together; corrected, the items. */
  lemma SizeCheckedOn(t: ParamType, main: string, entries: seq<StorageEntry>, leaf: LeafCheck, jdk: JdkParsers)
    requires t.CollectionType? && !t.subType.CollectionType?
    requires entries != []
    requires Gather(main, Leaf(t), entries, 0, None, jdk).Success?
    requires Gather(main, Leaf(t), entries, 0, None, jdk).value.Some?
    ensures var items := Gather(main, Leaf(t), entries, 0, None, jdk).value.value;
      ValidateFiles(t, main, entries, leaf, jdk).None? ==>
        SizeCheck(t, ItemCount(items) + MetadataCount(items)).None?
    ensures var items := Gather(main, Leaf(t), entries, 0, None, jdk).value.value;
      ValidateFilesCorrected(t, main, entries, leaf, jdk).None? ==> SizeCheck(t, ItemCount(items)).None?
  {
    var items := Gather(main, Leaf(t), entries, 0, None, jdk).value.value;
    CountsAddUp(items);
    if MetadataCount(items) > 0 {
      FlatCollectionsAgree(t, leaf, NList(AsNodes(items)));
      FlatCollectionsAgree(t, leaf, NList(ItemNodes(items)));
    }
  }

  /** A collection of at most two integers. */
  const Pair: ParamType := CollectionType(Some(0), Some(2), IntegerType([]))

  /** An output `out` holding two items and its `array.yml`. */
  const TwoItems: seq<StorageEntry> := [
    StorageEntry("out/", true, ""), StorageEntry("out/array.yml", false, "size: 2"),
    StorageEntry("out/0", false, "1"), StorageEntry("out/1", false, "2")]

  /** The two-item output of a collection allowing two items is refused as
      written and accepted by the corrected check. */
  lemma FullOutputRefused(jdk: JdkParsers)
    ensures ValidateFiles(Pair, "out", TwoItems, AcceptAll, jdk) == Some(Rejected(INTERNAL_INVALID_COLLECTION_DIMENSIONS))
    ensures ValidateFilesCorrected(Pair, "out", TwoItems, AcceptAll, jdk).None?
  {
    var items := TwoItemsGathered;
    GatherTwoItems(jdk);
    assert MetadataCount(items) == 1 by {
      assert items[1..] == [Item(0, NScalar("1")), Item(1, NScalar("2"))];
      assert items[1..][1..] == [Item(1, NScalar("2"))];
    }
    FlatCollectionsAgree(Pair, AcceptAll, NList(AsNodes(items)));
    FlatCollectionsAgree(Pair, AcceptAll, NList(ItemNodes(items)));
    TwoItemsAccepted();
  }

  const TwoItemsGathered: seq<FileItem> := [Metadata("size: 2"), Item(0, NScalar("1")), Item(1, NScalar("2"))]

  lemma TwoItemsAccepted()
    ensures CheckNode(Pair, AcceptAll, NList(ItemNodes(TwoItemsGathered))).None?
  {
    var items := TwoItemsGathered;
    var nodes := ItemNodes(items);
    assert nodes == [NMap(NScalar("1")), NMap(NScalar("2"))] by {
      assert items[1..] == [Item(0, NScalar("1")), Item(1, NScalar("2"))];
      assert items[1..][1..] == [Item(1, NScalar("2"))];
      assert items[1..][1..][1..] == [];
    }
    assert AcceptAll(IntegerType([]), NScalar("1")).None?;
    assert AcceptAll(IntegerType([]), NScalar("2")).None?;
    assert CheckNode(IntegerType([]), AcceptAll, NMap(NScalar("1"))).None?;
    assert CheckNode(IntegerType([]), AcceptAll, NMap(NScalar("2"))).None?;
    assert nodes[1..] == [NMap(NScalar("2"))];
    assert CheckItems(IntegerType([]), AcceptAll, NList(nodes), nodes[1..]).None? by {
      assert nodes[1..][1..] == [];
    }
  }

  /** The last '/' of `dir/base` is the one after `dir` when `base` has none. */
  lemma {:induction false} LastSlash(dir: string, base: string)
    requires '/' !in base
    ensures Text.LastIndexOfChar(dir + "/" + base, '/') == |dir|
    ensures ParentName(dir + "/" + base) == dir + "/"
    ensures BaseName(dir + "/" + base) == base
    decreases |base|
  {
    var s := dir + "/" + base;
    if base != [] {
      var b := base[..|base| - 1];
      assert s[..|s| - 1] == dir + "/" + b;
      assert s[|s| - 1] == base[|base| - 1];
      LastSlash(dir, b);
    }
    assert s[..|dir| + 1] == dir + "/";
    assert s[|dir| + 1..] == base;
  }

  lemma GatherStep3(jdk: JdkParsers)
    ensures Gather("out", IntegerType([]), TwoItems, 3, Some(TwoItemsGathered[..2]), jdk) == Success(Some(TwoItemsGathered))
  {
    var e := TwoItems[3];
    assert e.name == "out" + "/" + "1";
    LastSlash("out", "1");
    assert !Text.EndsWith(e.name, "/") && !Text.EndsWith(e.name, "array.yml");
    assert Text.ParseInt("1") == Some(1);
    assert Text.ParseInt("2") == Some(2);
    assert ReadValue(IntegerType([]), "2", jdk) == Success(NScalar("2"));
    assert TwoItemsGathered[..2] + [Item(1, NScalar("2"))] == TwoItemsGathered;
  }

  lemma GatherStep2(jdk: JdkParsers)
    ensures Gather("out", IntegerType([]), TwoItems, 2, Some(TwoItemsGathered[..1]), jdk) == Success(Some(TwoItemsGathered))
  {
    var e := TwoItems[2];
    assert e.name == "out" + "/" + "0";
    LastSlash("out", "0");
    assert !Text.EndsWith(e.name, "/") && !Text.EndsWith(e.name, "array.yml");
    assert Text.ParseInt("0") == Some(0);
    assert Text.ParseInt("1") == Some(1);
    assert ReadValue(IntegerType([]), "1", jdk) == Success(NScalar("1"));
    assert TwoItemsGathered[..1] + [Item(0, NScalar("1"))] == TwoItemsGathered[..2];
    GatherStep3(jdk);
  }

  lemma GatherStep1(jdk: JdkParsers)
    ensures Gather("out", IntegerType([]), TwoItems, 1, Some([]), jdk) == Success(Some(TwoItemsGathered))
  {
    var e := TwoItems[1];
    assert e.name == "out" + "/" + "array.yml";
    LastSlash("out", "array.yml");
    assert !Text.EndsWith(e.name, "/") by { assert e.name[|e.name| - 1..] != "/"; }
    assert Text.EndsWith(e.name, "array.yml") by { assert e.name[|e.name| - 9..] == "array.yml"; }
    assert [] + [Metadata("size: 2")] == TwoItemsGathered[..1];
    GatherStep2(jdk);
    assert Gather("out", IntegerType([]), TwoItems, 1, Some([]), jdk)
      == Gather("out", IntegerType([]), TwoItems, 2, Some(TwoItemsGathered[..1]), jdk);
  }

  lemma GatherTwoItems(jdk: JdkParsers)
    ensures Gather("out", IntegerType([]), TwoItems, 0, None, jdk) == Success(Some(TwoItemsGathered))
  {
    assert Text.EndsWith(TwoItems[0].name, "/");
    assert TwoItems[0].name == "out" + "/";
    GatherStep1(jdk);
  }
}
