/**
 * `CollectionType.mapNode`: how a provisioned collection value is laid out as
 * storage entries. An array becomes a directory entry and an `array.yml`
 * reading `size: n`; every item is stored under `path/index`. Each leaf item
 * drops every `array.yml` gathered so far and writes a fresh one counting the
 * entries kept, which for a single-level collection ends as `size: n`.
 */
module CollectionStorage {
  import opened Wrappers
  import Text
  import Json
  import opened ErrorCodes
  import opened CollectionNodes
  import opened CollectionFiles
  import CollectionNaming

  predicate IsMetadata(e: StorageEntry) {
    Text.EndsWith(e.name, "array.yml")
  }

  /** `removeIf(name ends with "array.yml")`. */
  function DropMetadata(entries: seq<StorageEntry>): (r: seq<StorageEntry>)
    ensures |r| <= |entries|
    ensures forall i :: 0 <= i < |r| ==> !IsMetadata(r[i])
    ensures (forall i :: 0 <= i < |entries| ==> !IsMetadata(entries[i])) ==> r == entries
  {
    if entries == [] then []
    else
      var rest := DropMetadata(entries[1..]);
      assert (forall i :: 0 <= i < |entries| ==> !IsMetadata(entries[i])) ==>
        forall i :: 0 <= i < |entries[1..]| ==> !IsMetadata(entries[1..][i]);
      assert ([entries[0]] + rest)[1..] == rest;
      if IsMetadata(entries[0]) then rest else [entries[0]] + rest
  }

  /** The GeoJSON collections get a `.geojson` suffix. */
  predicate IsGeoJsonCollection(value: Json.Json) {
    Json.Get(value, "type").Some?
    && (Json.AsText(Json.Get(value, "type").value) == "GeometryCollection"
        || Json.AsText(Json.Get(value, "type").value) == "FeatureCollection")
  }

  /** A leaf value: its entry at `path` holding `asText()` (for a file or
      image leaf the entry refers to the file of that name instead), then a
      fresh `array.yml` in the item's directory counting the entries kept. The
      directory is the path between the leading '/' and the last '/'; a path
      whose only '/' is the leading one makes `substring(1, 0)` throw. */
  function MapLeaf(path: string, value: Json.Json, container: seq<StorageEntry>): (r: Result<seq<StorageEntry>, NodeFault>)
    ensures r.Success? ==> (|r.value| >= 2 && r.value[..|r.value| - 2] == DropMetadata(container)
      && r.value[|r.value| - 1].data == CollectionNaming.ArrayYml(|r.value| - 2))
  {
    var p := if IsGeoJsonCollection(value) then path + ".geojson" else path;
    var item := StorageEntry(p, false, Json.AsText(value));
    var last := Text.LastIndexOfChar(p, '/');
    if 0 <= last < 1 then Failure(Crash)
    else
      var ymlPath := if last < 0 then "" else p[1..last];
      var kept := DropMetadata(container);
      var yml := StorageEntry(ymlPath + "/array.yml", false, CollectionNaming.ArrayYml(|kept|));
      var r := kept + [item, yml];
      assert r[..|r| - 2] == kept;
      Success(r)
  }

  /** `mapNode(path, value, container)` on a JSON value; a JSON null is the
      INTERNAL_NULL_PROVISION failure. */
  function MapNode(path: string, value: Json.Json, container: seq<StorageEntry>): (r: Result<seq<StorageEntry>, NodeFault>)
    ensures value.JNull? ==> r == Failure(Rejected(INTERNAL_NULL_PROVISION))
    decreases value, 1
  {
    match value
    case JNull => Failure(Rejected(INTERNAL_NULL_PROVISION))
    case JArr(items) =>
      var c := container + [StorageEntry(path, true, ""),
        StorageEntry(path + "/" + "array.yml", false, CollectionNaming.ArrayYml(|items|))];
      MapItems(path, value, items, c)
    case _ => MapLeaf(path, value, container)
  }

  /** The loop over an array's items: each is stored under its "index"; an item
      without "index" or "value" meets a Java null. */
  function MapItems(path: string, parent: Json.Json, items: seq<Json.Json>, container: seq<StorageEntry>)
    : (r: Result<seq<StorageEntry>, NodeFault>)
    requires forall i :: 0 <= i < |items| ==> items[i] < parent
    decreases parent, 0, |items|
  {
    if items == [] then Success(container)
    else
      var item := items[0];
      match (Json.Get(item, "index"), Json.Get(item, "value"))
      case (Some(index), Some(v)) =>
        assert v < parent by {
          var k :| 0 <= k < |item.fields| && item.fields[k] == ("value", v);
          assert item.fields[k].1 < item;
        }
        (match MapNode(path + "/" + Json.AsText(index), v, container)
         case Failure(f) => Failure(f)
         case Success(c) => MapItems(path, parent, items[1..], c))
      case _ => Failure(Crash)
  }

  // ---------------------------------------------------------------- single level

  /** A leaf item `{"index": i, "value": v}` with a scalar, non-null value. */
  predicate FlatItem(item: Json.Json) {
    Json.Get(item, "index").Some? && Json.Get(item, "index").value.JNum?
    && Json.Get(item, "index").value.n >= 0
    && Json.Get(item, "value").Some?
    && (Json.Get(item, "value").value.JStr? || Json.Get(item, "value").value.JNum?
        || Json.Get(item, "value").value.JBool?)
  }

  /** The entry a flat item of parameter `name` is stored as. */
  function ItemEntry(name: string, item: Json.Json): StorageEntry {
    StorageEntry("/" + name + "/" + Json.AsText(Json.Get(item, "index").GetOr(Json.JNull)), false,
      Json.AsText(Json.Get(item, "value").GetOr(Json.JNull)))
  }

  function ItemEntries(name: string, items: seq<Json.Json>): (r: seq<StorageEntry>)
    ensures |r| == |items|
    ensures forall i :: 0 <= i < |items| ==> r[i] == ItemEntry(name, items[i])
  {
    seq(|items|, i requires 0 <= i < |items| => ItemEntry(name, items[i]))
  }

  lemma ItemEntriesAppend(name: string, done: seq<Json.Json>, item: Json.Json)
    ensures ItemEntries(name, done + [item]) == ItemEntries(name, done) + [ItemEntry(name, item)]
  {
    var done' := done + [item];
    assert forall i :: 0 <= i < |done'| ==> done'[i] == if i < |done| then done[i] else item;
  }

  lemma ItemEntryNotMetadata(name: string, item: Json.Json)
    requires FlatItem(item)
    ensures !IsMetadata(ItemEntry(name, item))
    ensures '/' !in Json.AsText(Json.Get(item, "index").value)
  {
    var n := Json.Get(item, "index").value.n;
    var s := Text.IntToString(n);
    assert s == Text.NatToString(n);
    var e := ItemEntry(name, item);
    assert e.name[|e.name| - 1] == s[|s| - 1];
    assert Text.IsDigit(s[|s| - 1]);
    assert forall k :: 0 <= k < |s| ==> s[k] != '/';
  }

  /** The layout after the first `k` items of a single-level array. */
  function FlatLayout(name: string, done: seq<Json.Json>): seq<StorageEntry> {
    [StorageEntry("/" + name, true, "")] + ItemEntries(name, done)
      + [StorageEntry(name + "/array.yml", false, CollectionNaming.ArrayYml(|done|))]
  }

  /** A scalar stored at `/name/idx` lands after the kept entries, followed by
      `name/array.yml` counting them. */
  lemma MapLeafAt(name: string, idx: string, v: Json.Json, container: seq<StorageEntry>)
    requires name != "" && '/' !in idx
    requires v.JStr? || v.JNum? || v.JBool?
    ensures var kept := DropMetadata(container);
      MapNode("/" + name + "/" + idx, v, container) == Success(kept + [
        StorageEntry("/" + name + "/" + idx, false, Json.AsText(v)),
        StorageEntry(name + "/array.yml", false, CollectionNaming.ArrayYml(|kept|))])
  {
    var p := "/" + name + "/" + idx;
    assert !IsGeoJsonCollection(v);
    LastSlash("/" + name, idx);
    assert p[1..|name| + 1] == name;
    assert MapNode(p, v, container) == MapLeaf(p, v, container);
  }

  lemma MapFlatItem(name: string, done: seq<Json.Json>, item: Json.Json, container: seq<StorageEntry>)
    requires name != "" && '/' !in name
    requires FlatItem(item)
    requires DropMetadata(container) == [StorageEntry("/" + name, true, "")] + ItemEntries(name, done)
    ensures MapNode("/" + name + "/" + Json.AsText(Json.Get(item, "index").value), Json.Get(item, "value").value, container)
      == Success(FlatLayout(name, done + [item]))
  {
    var idx := Json.AsText(Json.Get(item, "index").value);
    var v := Json.Get(item, "value").value;
    ItemEntryNotMetadata(name, item);
    MapLeafAt(name, idx, v, container);
    ItemEntriesAppend(name, done, item);
    var kept := DropMetadata(container);
    var e := ItemEntry(name, item);
    var yml := StorageEntry(name + "/array.yml", false, CollectionNaming.ArrayYml(|kept|));
    Regroup([StorageEntry("/" + name, true, "")], ItemEntries(name, done), e, yml);
  }

  /** One turn of the item loop, for an item carrying both fields. */
  lemma MapItemsStep(path: string, parent: Json.Json, items: seq<Json.Json>, container: seq<StorageEntry>,
                     c: seq<StorageEntry>)
    requires items != [] && forall i :: 0 <= i < |items| ==> items[i] < parent
    requires Json.Get(items[0], "index").Some? && Json.Get(items[0], "value").Some?
    requires MapNode(path + "/" + Json.AsText(Json.Get(items[0], "index").value), Json.Get(items[0], "value").value,
      container) == Success(c)
    ensures MapItems(path, parent, items, container) == MapItems(path, parent, items[1..], c)
  {
  }

  lemma Associate<T>(a: seq<T>, b: seq<T>, c: seq<T>)
    ensures (a + b) + c == a + (b + c)
  {
  }

  lemma Regroup<T>(a: seq<T>, b: seq<T>, e: T, y: T)
    ensures (a + b) + [e, y] == a + (b + [e]) + [y]
  {
  }

  lemma {:induction false} MapFlatItems(name: string, parent: Json.Json, done: seq<Json.Json>, items: seq<Json.Json>,
                                        container: seq<StorageEntry>)
    requires name != "" && '/' !in name && !IsMetadata(StorageEntry("/" + name, true, ""))
    requires forall i :: 0 <= i < |done| ==> FlatItem(done[i])
    requires forall i :: 0 <= i < |items| ==> FlatItem(items[i]) && items[i] < parent
    requires items == [] ==> container == FlatLayout(name, done)
    requires DropMetadata(container) == [StorageEntry("/" + name, true, "")] + ItemEntries(name, done)
    requires items != [] || done != []
    ensures MapItems("/" + name, parent, items, container) == Success(FlatLayout(name, done + items))
    decreases |items|
  {
    if items == [] {
      assert done + items == done;
    } else {
      var item := items[0];
      MapFlatItem(name, done, item, container);
      var c := FlatLayout(name, done + [item]);
      MapItemsStep("/" + name, parent, items, container, c);
      var done' := done + [item];
      var rest := items[1..];
      NextDone(done, items);
      DropLayout(name, done');
      MapFlatItems(name, parent, done', rest, c);
    }
  }

  /** Moving the next item from `items` to `done` keeps both lists flat and
      their concatenation unchanged. */
  lemma {:induction false} NextDone(done: seq<Json.Json>, items: seq<Json.Json>)
    requires items != []
    requires forall i :: 0 <= i < |done| ==> FlatItem(done[i])
    requires forall i :: 0 <= i < |items| ==> FlatItem(items[i])
    ensures forall i :: 0 <= i < |done + [items[0]]| ==> FlatItem((done + [items[0]])[i])
    ensures forall i :: 0 <= i < |items[1..]| ==> FlatItem(items[1..][i])
    ensures (done + [items[0]]) + items[1..] == done + items
  {
    var done' := done + [items[0]];
    forall i | 0 <= i < |done'| ensures FlatItem(done'[i]) {
      if i < |done| { assert done'[i] == done[i]; }
    }
    forall i | 0 <= i < |items[1..]| ensures FlatItem(items[1..][i]) {
      assert items[1..][i] == items[i + 1];
    }
    assert items == [items[0]] + items[1..];
    Associate(done, [items[0]], items[1..]);
  }

  /** Dropping the `array.yml` from a layout keeps the directory and items. */
  lemma {:induction false} DropLayout(name: string, done: seq<Json.Json>)
    requires !IsMetadata(StorageEntry("/" + name, true, ""))
    requires forall i :: 0 <= i < |done| ==> FlatItem(done[i])
    ensures DropMetadata(FlatLayout(name, done)) == [StorageEntry("/" + name, true, "")] + ItemEntries(name, done)
  {
    var front := [StorageEntry("/" + name, true, "")] + ItemEntries(name, done);
    var yml := StorageEntry(name + "/array.yml", false, CollectionNaming.ArrayYml(|done|));
    FrontNotMetadata(name, done);
    YmlIsMetadata(name, |done|);
    DropAppendMetadata(front, yml);
  }

  lemma {:induction false} FrontNotMetadata(name: string, done: seq<Json.Json>)
    requires !IsMetadata(StorageEntry("/" + name, true, ""))
    requires forall i :: 0 <= i < |done| ==> FlatItem(done[i])
    ensures var front := [StorageEntry("/" + name, true, "")] + ItemEntries(name, done);
      forall i :: 0 <= i < |front| ==> !IsMetadata(front[i])
  {
    var items := ItemEntries(name, done);
    var front := [StorageEntry("/" + name, true, "")] + items;
    forall i | 0 <= i < |front| ensures !IsMetadata(front[i]) {
      if i > 0 {
        assert front[i] == items[i - 1] == ItemEntry(name, done[i - 1]);
        ItemEntryNotMetadata(name, done[i - 1]);
      }
    }
  }

  lemma YmlIsMetadata(name: string, n: nat)
    ensures IsMetadata(StorageEntry(name + "/array.yml", false, CollectionNaming.ArrayYml(n)))
  {
    var y := name + "/array.yml";
    assert y[|y| - 9..] == "array.yml";
  }

  lemma {:induction false} DropAppendMetadata(front: seq<StorageEntry>, yml: StorageEntry)
    requires forall i :: 0 <= i < |front| ==> !IsMetadata(front[i])
    requires IsMetadata(yml)
    ensures DropMetadata(front + [yml]) == front
    decreases |front|
  {
    if front == [] {
      assert front + [yml] == [yml];
      assert [yml][1..] == [];
    } else {
      assert (front + [yml])[1..] == front[1..] + [yml];
      DropAppendMetadata(front[1..], yml);
      assert [front[0]] + front[1..] == front;
    }
  }

  /** The container an array's item loop starts from: its directory entry
      and an `array.yml` for `n` items. */
  function StartContainer(path: string, n: nat): seq<StorageEntry> {
    [StorageEntry(path, true, ""), StorageEntry(path + "/" + "array.yml", false, CollectionNaming.ArrayYml(n))]
  }

  lemma ArrayStart(path: string, items: seq<Json.Json>)
    ensures forall i :: 0 <= i < |items| ==> items[i] < Json.JArr(items)
    ensures MapNode(path, Json.JArr(items), []) == MapItems(path, Json.JArr(items), items, StartContainer(path, |items|))
  {
    assert [] + StartContainer(path, |items|) == StartContainer(path, |items|);
  }

  lemma StartDropped(name: string, n: nat)
    requires !IsMetadata(StorageEntry("/" + name, true, ""))
    ensures DropMetadata(StartContainer("/" + name, n)) == [StorageEntry("/" + name, true, "")] + ItemEntries(name, [])
  {
    var c := StartContainer("/" + name, n);
    var yml := c[1];
    assert IsMetadata(yml) by {
      assert yml.name[|yml.name| - 9..] == "array.yml";
    }
    DropAppendMetadata([c[0]], yml);
    assert [c[0]] + [yml] == c;
  }

  /** Serialising a single-level array of `n >= 1` scalar items stored under
      parameter `name` gives its directory, the `n` item entries in order and
      one `array.yml` reading `size: n`. */
  lemma {:induction false} FlatArrayLayout(name: string, items: seq<Json.Json>)
    requires name != "" && '/' !in name && !IsMetadata(StorageEntry("/" + name, true, ""))
    requires items != [] && forall i :: 0 <= i < |items| ==> FlatItem(items[i])
    ensures MapNode("/" + name, Json.JArr(items), []) == Success(FlatLayout(name, items))
  {
    ArrayStart("/" + name, items);
    StartDropped(name, |items|);
    MapFlatItems(name, Json.JArr(items), [], items, StartContainer("/" + name, |items|));
    assert [] + items == items;
  }
}
