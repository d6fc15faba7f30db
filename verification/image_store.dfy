/**
 * The web UI's store of one open image: its instance, the slices loaded so
 * far keyed by rank, the active slices and panel, and the getters derived
 * from them.
 *
 * Slice ranks are the non-negative integers the server gives, so the slices
 * object is read in ascending rank order, as JavaScript orders integer keys.
 * Physical sizes are exact reals.
 */
module ImageStore {
  import opened Wrappers

  datatype ImageInstance = ImageInstance(
    id: int, zoom: int, depth: int, duration: int, channels: int,
    physicalSizeX: real, physicalSizeY: real, physicalSizeZ: real, fps: real,
    width: int, height: int)

  datatype Slice = Slice(id: int, rank: nat, channel: int, channelName: string, channelColor: string,
    zStack: int, time: int)

  datatype ImageGroupLink = ImageGroupLink(id: int, group: int)

  datatype ImageState = ImageState(
    imageInstance: Option<ImageInstance>,
    imageGroupLink: Option<ImageGroupLink>,
    sliceInstances: map<nat, Slice>,
    loadedSlicePages: seq<int>,
    activeSlices: Option<seq<Slice>>,
    activePanel: Option<string>)

  /** The initial state: nothing loaded, nothing active. */
  const INITIAL: ImageState := ImageState(None, None, map[], [], None, None)

  datatype Resolution = Resolution(x: real, y: real, z: real, t: real)

  /** `setResolution`: the three physical sizes and the frame rate, and
      nothing else, when an image is set; no change otherwise. */
  function SetResolution(st: ImageState, res: Resolution): (r: ImageState)
    ensures st.imageInstance.None? ==> r == st
    ensures st.imageInstance.Some? ==> (r.imageInstance.Some?
      && r.imageInstance.value.physicalSizeX == res.x && r.imageInstance.value.physicalSizeY == res.y
      && r.imageInstance.value.physicalSizeZ == res.z && r.imageInstance.value.fps == res.t
      && r.imageInstance.value.(physicalSizeX := 0.0, physicalSizeY := 0.0, physicalSizeZ := 0.0, fps := 0.0)
        == st.imageInstance.value.(physicalSizeX := 0.0, physicalSizeY := 0.0, physicalSizeZ := 0.0, fps := 0.0)
      && r.(imageInstance := st.imageInstance) == st)
  {
    match st.imageInstance
    case None => st
    case Some(img) =>
      st.(imageInstance := Some(img.(physicalSizeX := res.x, physicalSizeY := res.y,
        physicalSizeZ := res.z, fps := res.t)))
  }

  /** `togglePanel`: closes the panel when it is the active one, opens it
      otherwise. */
  function TogglePanel(st: ImageState, panel: string): (r: ImageState)
    ensures st.activePanel == Some(panel) ==> r.activePanel.None?
    ensures st.activePanel != Some(panel) ==> r.activePanel == Some(panel)
    ensures r.(activePanel := st.activePanel) == st
  {
    st.(activePanel := if st.activePanel == Some(panel) then None else Some(panel))
  }

  /** Toggling the same panel twice restores the state when no panel or that
      panel was open; with another panel open, it ends closed. */
  lemma ToggleTwice(st: ImageState, panel: string)
    ensures st.activePanel.None? || st.activePanel == Some(panel) ==>
      TogglePanel(TogglePanel(st, panel), panel) == st
    ensures st.activePanel.Some? && st.activePanel != Some(panel) ==>
      TogglePanel(TogglePanel(st, panel), panel) == st.(activePanel := None)
  {
  }

  /** `clearSliceInstances`. */
  function ClearSliceInstances(st: ImageState): (r: ImageState)
    ensures r.sliceInstances == map[] && r.loadedSlicePages == []
    ensures r.(sliceInstances := st.sliceInstances, loadedSlicePages := st.loadedSlicePages) == st
  {
    st.(sliceInstances := map[], loadedSlicePages := [])
  }

  /** The slices keyed by rank after `slices` were stored in order. */
  function StoreSlices(m: map<nat, Slice>, slices: seq<Slice>): (r: map<nat, Slice>)
    decreases |slices|
  {
    if slices == [] then m else StoreSlices(m[slices[0].rank := slices[0]], slices[1..])
  }

  /** The last slice of `slices` with rank `k`, if any. */
  function LastWithRank(slices: seq<Slice>, k: nat): (r: Option<Slice>)
    ensures r.Some? ==> r.value in slices && r.value.rank == k
    ensures r.None? <==> forall i :: 0 <= i < |slices| ==> slices[i].rank != k
  {
    if slices == [] then None
    else
      var last := slices[|slices| - 1];
      if last.rank == k then Some(last)
      else
        var r := LastWithRank(slices[..|slices| - 1], k);
        assert forall i :: 0 <= i < |slices| - 1 ==> slices[i] == slices[..|slices| - 1][i];
        r
  }

  /** `setSliceInstances`: every slice is stored under its rank, a later one
      replacing an earlier one of the same rank; other ranks keep their
      slices. */
  function SetSliceInstances(st: ImageState, slices: seq<Slice>): (r: ImageState)
    ensures r.(sliceInstances := st.sliceInstances) == st
  {
    st.(sliceInstances := StoreSlices(st.sliceInstances, slices))
  }

  lemma {:induction false} StoreSlicesSnoc(m: map<nat, Slice>, slices: seq<Slice>, s: Slice)
    ensures StoreSlices(m, slices + [s]) == StoreSlices(m, slices)[s.rank := s]
    decreases |slices|
  {
    if slices == [] {
      assert [s][1..] == [];
    } else {
      assert (slices + [s])[1..] == slices[1..] + [s];
      StoreSlicesSnoc(m[slices[0].rank := slices[0]], slices[1..], s);
    }
  }

  /** What `setSliceInstances` leaves under each rank: the last slice given
      with that rank, else what was there before. */
  lemma {:induction false} SliceInstancesByRank(m: map<nat, Slice>, slices: seq<Slice>, k: nat)
    ensures var r := StoreSlices(m, slices);
      (LastWithRank(slices, k).Some? ==> k in r && r[k] == LastWithRank(slices, k).value)
      && (LastWithRank(slices, k).None? ==> (k in r <==> k in m) && (k in m ==> r[k] == m[k]))
    decreases |slices|
  {
    if slices != [] {
      var front := slices[..|slices| - 1];
      var last := slices[|slices| - 1];
      assert slices == front + [last];
      StoreSlicesSnoc(m, front, last);
      SliceInstancesByRank(m, front, k);
    }
  }

  /** `setLoadedSlicePage`. */
  function SetLoadedSlicePage(st: ImageState, page: int): (r: ImageState)
    ensures r.loadedSlicePages == st.loadedSlicePages + [page]
    ensures r.(loadedSlicePages := st.loadedSlicePages) == st
  {
    st.(loadedSlicePages := st.loadedSlicePages + [page])
  }

  /** `setActiveSlice`: a list of that slice alone. */
  function SetActiveSlice(st: ImageState, slice: Slice): (r: ImageState)
    ensures r.activeSlices == Some([slice])
    ensures r.(activeSlices := st.activeSlices) == st
  {
    st.(activeSlices := Some([slice]))
  }

  /** `setActiveSlices`: the list replaced. */
  function SetActiveSlices(st: ImageState, slices: seq<Slice>): (r: ImageState)
    ensures r.activeSlices == Some(slices)
    ensures r.(activeSlices := st.activeSlices) == st
  {
    st.(activeSlices := Some(slices))
  }

  // ---------------------------------------------------------------- getters

  /** `maxZoom`: 0 without an image, else its zoom (the digital zoom increment
      is 0). */
  function MaxZoom(st: ImageState): (r: int)
    ensures st.imageInstance.None? ==> r == 0
    ensures st.imageInstance.Some? ==> r == st.imageInstance.value.zoom
  {
    if st.imageInstance.None? then 0 else st.imageInstance.value.zoom + 0
  }

  /** `maxRank`: 0 without an image, else depth × duration × channels. */
  function MaxRank(st: ImageState): (r: int)
    ensures st.imageInstance.None? ==> r == 0
    ensures st.imageInstance.Some? && st.imageInstance.value.channels == 1 ==>
      r == st.imageInstance.value.depth * st.imageInstance.value.duration
  {
    match st.imageInstance
    case None => 0
    case Some(img) => img.depth * img.duration * img.channels
  }

  /** `imageGroupId`: None without a link, else the link's group. */
  function ImageGroupId(st: ImageState): (r: Option<int>)
    ensures r.None? <==> st.imageGroupLink.None?
    ensures r.Some? ==> r.value == st.imageGroupLink.value.group
  {
    match st.imageGroupLink
    case None => None
    case Some(link) => Some(link.group)
  }

  // ---------------------------------------------------------------- channels

  datatype ChannelInfo = ChannelInfo(index: int, name: string, color: string)

  /** A bound above every rank in use. */
  function RankBound(keys: set<nat>): (r: nat)
    ensures forall k :: k in keys ==> k < r
  {
    if keys == {} then 0
    else
      MinExists(keys);
      var k: nat :| IsLeast(k, keys);
      var rest := RankBound(keys - {k});
      assert forall j :: j in keys ==> j == k || j in keys - {k};
      if k + 1 > rest then k + 1 else rest
  }

  predicate IsLeast(k: nat, keys: set<nat>) {
    k in keys && forall j :: j in keys ==> k <= j
  }

  lemma MinExists(keys: set<nat>)
    requires keys != {}
    ensures exists k :: IsLeast(k, keys)
  {
    var x :| x in keys;
    var rest := keys - {x};
    if rest == {} {
      forall j | j in keys
        ensures x <= j
      {
        assert j in rest || j == x;
      }
      assert IsLeast(x, keys);
    } else {
      MinExists(rest);
      var m: nat :| IsLeast(m, rest);
      var least := if x < m then x else m;
      forall j | j in keys
        ensures least <= j
      {
        assert j in rest || j == x;
      }
      assert IsLeast(least, keys);
    }
  }

  /** The slices stored under ranks `from` to `bound - 1`, in rank order. */
  function ValuesFrom(m: map<nat, Slice>, from: nat, bound: nat): (r: seq<Slice>)
    ensures forall s :: s in r ==> exists k :: from <= k < bound && k in m && m[k] == s
    ensures forall k :: from <= k < bound && k in m ==> m[k] in r
    decreases bound - from
  {
    if from >= bound then []
    else (if from in m then [m[from]] else []) + ValuesFrom(m, from + 1, bound)
  }

  /** `Object.values(sliceInstances)`: the slices in ascending rank order. */
  function Values(m: map<nat, Slice>): (r: seq<Slice>)
    ensures forall s :: s in r <==> s in m.Values
  {
    var r := ValuesFrom(m, 0, RankBound(m.Keys));
    assert forall s :: s in m.Values ==> s in r by {
      forall s | s in m.Values ensures s in r {
        var k :| k in m && m[k] == s;
      }
    }
    r
  }

  function Info(s: Slice): ChannelInfo {
    ChannelInfo(s.channel, s.channelName, s.channelColor)
  }

  predicate HasIndex(infos: seq<ChannelInfo>, c: int) {
    exists i :: 0 <= i < |infos| && infos[i].index == c
  }

  predicate DistinctIndexes(infos: seq<ChannelInfo>) {
    forall i, j :: 0 <= i < j < |infos| ==> infos[i].index != infos[j].index
  }

  /** Some slice of `slices` is of channel `c`. */
  predicate InSlices(slices: seq<Slice>, c: int) {
    exists i :: 0 <= i < |slices| && slices[i].channel == c
  }

  /** Some stored slice is of channel `c`. */
  predicate InStore(m: map<nat, Slice>, c: int) {
    exists s :: s in m.Values && s.channel == c
  }

  /** The first slice of each channel, in the order channels first appear. */
  function FirstPerChannel(slices: seq<Slice>): (r: seq<ChannelInfo>)
    ensures DistinctIndexes(r)
    ensures forall c :: HasIndex(r, c) <==> InSlices(slices, c)
    ensures forall e :: e in r ==> exists i :: (0 <= i < |slices| && Info(slices[i]) == e
      && forall j :: 0 <= j < i ==> slices[j].channel != e.index)
    decreases |slices|
  {
    if slices == [] then []
    else
      var front := slices[..|slices| - 1];
      var last := slices[|slices| - 1];
      var rest := FirstPerChannel(front);
      assert forall i :: 0 <= i < |front| ==> front[i] == slices[i];
      InSlicesSnoc(front, last);
      assert front + [last] == slices;
      if HasIndex(rest, last.channel) then rest
      else
        var r := rest + [Info(last)];
        AppendNewIndex(rest, Info(last));
        assert forall j :: 0 <= j < |front| ==> slices[j].channel != last.channel;
        r
  }

  /** Appending an info whose index is new keeps the indexes distinct and adds
      exactly that index. */
  lemma AppendNewIndex(rest: seq<ChannelInfo>, e: ChannelInfo)
    requires DistinctIndexes(rest) && !HasIndex(rest, e.index)
    ensures DistinctIndexes(rest + [e])
    ensures forall c :: HasIndex(rest + [e], c) <==> HasIndex(rest, c) || c == e.index
    ensures forall x :: x in rest + [e] ==> x in rest || x == e
  {
    var r := rest + [e];
    forall c ensures HasIndex(r, c) <==> HasIndex(rest, c) || c == e.index {
      if HasIndex(r, c) {
        var i :| 0 <= i < |r| && r[i].index == c;
        if i < |rest| { assert rest[i] == r[i]; }
      }
      if HasIndex(rest, c) {
        var i :| 0 <= i < |rest| && rest[i].index == c;
        assert r[i] == rest[i];
      }
      if c == e.index { assert r[|rest|].index == c; }
    }
    forall i, j | 0 <= i < j < |r| ensures r[i].index != r[j].index {
      assert r[i] == rest[i];
      if j < |rest| { assert r[j] == rest[j]; }
    }
  }

  /** A channel occurs in `front + [last]` exactly when it occurs in `front`
      or is the channel of `last`. */
  lemma InSlicesSnoc(front: seq<Slice>, last: Slice)
    ensures forall c :: InSlices(front + [last], c) <==> InSlices(front, c) || c == last.channel
  {
    var sl := front + [last];
    forall c ensures InSlices(sl, c) <==> InSlices(front, c) || c == last.channel {
      if InSlices(sl, c) {
        var i :| 0 <= i < |sl| && sl[i].channel == c;
        if i < |front| { assert front[i] == sl[i]; }
      }
      if InSlices(front, c) {
        var i :| 0 <= i < |front| && front[i].channel == c;
        assert sl[i] == front[i];
      }
      if c == last.channel { assert sl[|front|] == last; }
    }
  }

  predicate Ascending(infos: seq<ChannelInfo>) {
    forall i, j :: 0 <= i < j < |infos| ==> infos[i].index < infos[j].index
  }

  /** `e` put in its place in an ascending list that lacks its index. */
  function Insert(e: ChannelInfo, sorted: seq<ChannelInfo>): (r: seq<ChannelInfo>)
    requires Ascending(sorted) && !HasIndex(sorted, e.index)
    ensures Ascending(r)
    ensures forall x :: x in r <==> x in sorted || x == e
    ensures |r| == |sorted| + 1
  {
    if sorted == [] then [e]
    else if e.index < sorted[0].index then [e] + sorted
    else
      assert forall i :: 1 <= i < |sorted| ==> sorted[1..][i - 1] == sorted[i];
      var rest := Insert(e, sorted[1..]);
      var r := [sorted[0]] + rest;
      assert forall i :: 1 <= i < |r| ==> r[i] == rest[i - 1];
      assert forall i :: 0 <= i < |rest| ==> rest[i] in sorted[1..] || rest[i] == e;
      r
  }

  /** `sort((a, b) => a.index - b.index)` on distinct indexes. */
  function SortByIndex(infos: seq<ChannelInfo>): (r: seq<ChannelInfo>)
    requires DistinctIndexes(infos)
    ensures Ascending(r)
    ensures forall x :: x in r <==> x in infos
    ensures |r| == |infos|
    decreases |infos|
  {
    if infos == [] then []
    else
      var rest := SortByIndex(infos[1..]);
      assert forall i :: 1 <= i < |infos| ==> infos[1..][i - 1] == infos[i];
      assert !HasIndex(rest, infos[0].index) by {
        forall i | 0 <= i < |rest| ensures rest[i].index != infos[0].index {
          assert rest[i] in infos[1..];
        }
      }
      Insert(infos[0], rest)
  }

  /** `channels`: one entry per channel among the loaded slices, in
      ascending channel order, each with the name and colour of the
      lowest-ranked slice of that channel. */
  function Channels(st: ImageState): (r: seq<ChannelInfo>)
    ensures Ascending(r)
    ensures forall c :: HasIndex(r, c) <==> InStore(st.sliceInstances, c)
  {
    var values := Values(st.sliceInstances);
    var firsts := FirstPerChannel(values);
    var r := SortByIndex(firsts);
    assert forall c :: HasIndex(r, c) <==> HasIndex(firsts, c) by {
      forall c ensures HasIndex(r, c) <==> HasIndex(firsts, c) {
        if HasIndex(r, c) {
          var i :| 0 <= i < |r| && r[i].index == c;
          assert r[i] in firsts;
        }
        if HasIndex(firsts, c) {
          var i :| 0 <= i < |firsts| && firsts[i].index == c;
          assert firsts[i] in r;
        }
      }
    }
    assert forall c :: InSlices(values, c) <==> InStore(st.sliceInstances, c) by {
      forall c ensures InSlices(values, c) <==> InStore(st.sliceInstances, c) {
        if InStore(st.sliceInstances, c) {
          var s :| s in st.sliceInstances.Values && s.channel == c;
          assert s in values;
        }
        if InSlices(values, c) {
          var i :| 0 <= i < |values| && values[i].channel == c;
          assert values[i] in st.sliceInstances.Values;
        }
      }
    }
    r
  }

  /** Each channel's entry carries the name and colour of a slice of that
      channel that no lower-ranked slice of the same channel precedes. */
  lemma ChannelsFromFirstSlice(st: ImageState, e: ChannelInfo)
    requires e in Channels(st)
    ensures exists i :: (0 <= i < |Values(st.sliceInstances)| && Info(Values(st.sliceInstances)[i]) == e
      && forall j :: 0 <= j < i ==> Values(st.sliceInstances)[j].channel != e.index)
  {
    var values := Values(st.sliceInstances);
    assert e in SortByIndex(FirstPerChannel(values));
  }
}
