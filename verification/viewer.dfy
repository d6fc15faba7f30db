/**
 * The web UI's viewer store: the images open side by side, the one that is
 * active, and the groups of images whose views are linked.
 *
 * Links are a sequence of groups of image indexes. Array methods that throw
 * on an undefined element (a group index out of range) give None. The image
 * store instances registered per image are reduced to the set of registered
 * indexes; view syncing (centre, zoom, rotation) is not part of this model.
 */
module Viewer {
  import opened Wrappers

  type Links = seq<seq<int>>

  datatype ViewerState = ViewerState(
    links: Links,
    linkMode: string,
    imageSelector: bool,
    activeImage: int,
    indexNextImage: int,
    images: set<int>)

  /** The initial state: no links, absolute linking, image 0 active. */
  const INITIAL: ViewerState := ViewerState([], "ABSOLUTE", false, 0, 0, {})

  // ---------------------------------------------------------------- images

  /** `addImage`: the next index becomes the active image, the counter moves
      on and the image selector closes. */
  function AddImage(st: ViewerState): (r: ViewerState)
    ensures r.activeImage == st.indexNextImage && r.indexNextImage == st.indexNextImage + 1
    ensures !r.imageSelector
    ensures r.links == st.links && r.linkMode == st.linkMode && r.images == st.images
  {
    st.(imageSelector := false, activeImage := st.indexNextImage, indexNextImage := st.indexNextImage + 1)
  }

  /** `registerImage`: only the counter moves on. */
  function RegisterImage(st: ViewerState): (r: ViewerState)
    ensures r == st.(indexNextImage := st.indexNextImage + 1)
  {
    st.(indexNextImage := st.indexNextImage + 1)
  }

  /** `registerImageModule`. */
  function RegisterImageModule(st: ViewerState, index: int): (r: ViewerState)
    ensures r.images == st.images + {index}
    ensures r.(images := st.images) == st
  {
    st.(images := st.images + {index})
  }

  /** `unregisterImageModule`: only `index` leaves the registered images. */
  function UnregisterImageModule(st: ViewerState, index: int): (r: ViewerState)
    ensures index !in r.images
    ensures forall i :: i != index ==> (i in r.images <==> i in st.images)
    ensures r.(images := st.images) == st
  {
    st.(images := st.images - {index})
  }

  /** Registering then unregistering an index that was not registered gives
      the registered images back. */
  lemma RegisterUnregister(st: ViewerState, index: int)
    requires index !in st.images
    ensures UnregisterImageModule(RegisterImageModule(st, index), index) == st
  {
  }

  /** `addImageWithModule`: the new image takes the next index, becomes
      active and is registered; that index is returned. */
  function AddImageWithModule(st: ViewerState): (r: (ViewerState, int))
    ensures r.1 == st.indexNextImage
    ensures r.0.activeImage == r.1 && r.1 in r.0.images && r.0.indexNextImage == r.1 + 1
    ensures r.0.links == st.links
  {
    var index := st.indexNextImage;
    (RegisterImageModule(AddImage(st), index), index)
  }

  // ---------------------------------------------------------------- links

  /** The total number of memberships over all groups. */
  function Members(links: Links): nat {
    if links == [] then 0 else |links[0]| + Members(links[1..])
  }

  lemma {:induction false} MembersConcat(a: Links, b: Links)
    ensures Members(a + b) == Members(a) + Members(b)
    decreases |a|
  {
    if a == [] {
      assert a + b == b;
    } else {
      assert (a + b)[1..] == a[1..] + b;
      MembersConcat(a[1..], b);
    }
  }

  /** Replacing group `i` changes the total by the difference in size. */
  lemma MembersUpdate(links: Links, i: int, g: seq<int>)
    requires 0 <= i < |links|
    ensures Members(links[i := g]) == Members(links) - |links[i]| + |g|
  {
    assert links == links[..i] + [links[i]] + links[i + 1..];
    assert links[i := g] == links[..i] + [g] + links[i + 1..];
    MembersConcat(links[..i] + [links[i]], links[i + 1..]);
    MembersConcat(links[..i], [links[i]]);
    MembersConcat(links[..i] + [g], links[i + 1..]);
    MembersConcat(links[..i], [g]);
    assert Members([g]) == |g| by { assert [g][1..] == []; }
    assert Members([links[i]]) == |links[i]| by { assert [links[i]][1..] == []; }
  }

  /** `splice(i, 1)` for an index in range. */
  function RemoveAt<T>(s: seq<T>, i: int): (r: seq<T>)
    requires 0 <= i < |s|
    ensures |r| == |s| - 1
    ensures forall k :: 0 <= k < i ==> r[k] == s[k]
    ensures forall k :: i <= k < |r| ==> r[k] == s[k + 1]
  {
    s[..i] + s[i + 1..]
  }

  lemma MembersRemove(links: Links, i: int)
    requires 0 <= i < |links|
    ensures Members(RemoveAt(links, i)) == Members(links) - |links[i]|
  {
    assert links == links[..i] + [links[i]] + links[i + 1..];
    MembersConcat(links[..i] + [links[i]], links[i + 1..]);
    MembersConcat(links[..i], [links[i]]);
    MembersConcat(links[..i], links[i + 1..]);
    assert Members([links[i]]) == |links[i]| by { assert [links[i]][1..] == []; }
  }

  /** `createLinkGroup`: a new group at the end. */
  function CreateLinkGroup(links: Links, indexes: seq<int>): (r: Links)
    ensures |r| == |links| + 1 && r[|links|] == indexes && r[..|links|] == links
    ensures Members(r) == Members(links) + |indexes|
  {
    MembersConcat(links, [indexes]);
    assert Members([indexes]) == |indexes| by { assert [indexes][1..] == []; }
    links + [indexes]
  }

  /** `linkImageToGroup`: the image joins that group and no other; None for a
      group index out of range. */
  function LinkImageToGroup(links: Links, indexGroup: int, indexImage: int): (r: Option<Links>)
    ensures r.None? <==> !(0 <= indexGroup < |links|)
    ensures r.Some? ==> (|r.value| == |links| && r.value[indexGroup] == links[indexGroup] + [indexImage]
      && forall k :: 0 <= k < |links| && k != indexGroup ==> r.value[k] == links[k])
  {
    if 0 <= indexGroup < |links| then Some(links[indexGroup := links[indexGroup] + [indexImage]]) else None
  }

  /** `mergeLinkGroups`: the second group's members are appended to the first
      and the second group is removed. None when either index is out of
      range. */
  function MergeLinkGroups(links: Links, first: int, second: int): (r: Option<Links>)
    ensures r.None? <==> !(0 <= first < |links| && 0 <= second < |links|)
    ensures r.Some? ==> |r.value| == |links| - 1
  {
    if 0 <= first < |links| && 0 <= second < |links| then
      var merged := links[first := links[first] + links[second]];
      Some(RemoveAt(merged, second))
    else None
  }

  /** Merging two different groups keeps every membership: the merged group
      holds both, in order, and the total count is unchanged. */
  lemma MergeKeepsMembers(links: Links, first: int, second: int)
    requires 0 <= first < |links| && 0 <= second < |links| && first != second
    ensures var r := MergeLinkGroups(links, first, second).value;
      Members(r) == Members(links)
      && r[if second < first then first - 1 else first] == links[first] + links[second]
  {
    var merged := links[first := links[first] + links[second]];
    MembersUpdate(links, first, links[first] + links[second]);
    MembersRemove(merged, second);
  }

  /** Merging a group with itself loses it: its members are doubled and then
      the group is removed. */
  lemma MergeWithItselfDropsGroup(links: Links, i: int)
    requires 0 <= i < |links|
    ensures Members(MergeLinkGroups(links, i, i).value) == Members(links) - |links[i]|
  {
    var merged := links[i := links[i] + links[i]];
    MembersRemove(merged, i);
    MembersUpdate(links, i, links[i] + links[i]);
    MembersRemove(links, i);
    assert RemoveAt(merged, i) == RemoveAt(links, i);
  }

  /** `findIndex(group => group.includes(image))`: the first group holding
      the image, or -1. */
  function FindGroup(links: Links, image: int): (r: int)
    ensures -1 <= r < |links|
    ensures r >= 0 ==> image in links[r] && forall k :: 0 <= k < r ==> image !in links[k]
    ensures r == -1 <==> forall k :: 0 <= k < |links| ==> image !in links[k]
  {
    if links == [] then -1
    else if image in links[0] then 0
    else
      var r := FindGroup(links[1..], image);
      assert forall k :: 1 <= k < |links| ==> links[k] == links[1..][k - 1];
      if r == -1 then -1 else r + 1
  }

  /** `findIndex(idx => idx === image)`: the first position of the image in
      the group, or -1. */
  function FindIndex(group: seq<int>, image: int): (r: int)
    ensures -1 <= r < |group|
    ensures r >= 0 ==> group[r] == image && forall k :: 0 <= k < r ==> group[k] != image
    ensures r == -1 <==> image !in group
  {
    if group == [] then -1
    else if group[0] == image then 0
    else
      var r := FindIndex(group[1..], image);
      assert forall k :: 1 <= k < |group| ==> group[k] == group[1..][k - 1];
      if r == -1 then -1 else r + 1
  }

  /** `splice(i, 1)` where `i` may be -1: -1 counts from the end, so it takes
      the last element, and an empty array stays empty. */
  function SpliceOne(group: seq<int>, i: int): (r: seq<int>)
    requires -1 <= i < |group|
    ensures group != [] ==> |r| == |group| - 1
    ensures i >= 0 ==> r == RemoveAt(group, i)
    ensures i == -1 && group != [] ==> r == group[..|group| - 1]
  {
    if i >= 0 then RemoveAt(group, i)
    else if group == [] then group
    else group[..|group| - 1]
  }

  /** `unlinkImage`: the image leaves the given group, or, when no group is
      given (an index of 0 is falsy and counts as none), the first group
      holding it; a group left with a single image is deleted. Nothing
      changes when no group holds the image; None when an explicit group
      index is out of range. */
  function UnlinkImage(links: Links, indexGroup: Option<int>, indexImage: int): (r: Option<Links>)
    ensures indexGroup.None? ==> r.Some?
    ensures indexGroup.None? && FindGroup(links, indexImage) == -1 ==> r == Some(links)
    ensures indexGroup.Some? && indexGroup.value != 0 && !(0 <= indexGroup.value < |links|) ==> r.None?
  {
    var g := if indexGroup.None? || indexGroup.value == 0 then FindGroup(links, indexImage) else indexGroup.value;
    if (indexGroup.None? || indexGroup.value == 0) && g == -1 then Some(links)
    else if !(0 <= g < |links|) then None
    else
      var group := SpliceOne(links[g], FindIndex(links[g], indexImage));
      var updated := links[g := group];
      if |group| == 1 then Some(RemoveAt(updated, g)) else Some(updated)
  }

  /** An explicit group index of 0 is read as no group at all. */
  lemma UnlinkZeroIsUnspecified(links: Links, indexImage: int)
    ensures UnlinkImage(links, Some(0), indexImage) == UnlinkImage(links, None, indexImage)
  {
  }

  /** Unlinking an image found in a group takes exactly one occurrence of it
      out of that group, deletes the group when one image is left, and
      leaves every other group as it was. */
  lemma UnlinkRemovesOne(links: Links, indexImage: int)
    requires FindGroup(links, indexImage) >= 0
    ensures var g := FindGroup(links, indexImage);
      var group := RemoveAt(links[g], FindIndex(links[g], indexImage));
      multiset(group) == multiset(links[g]) - multiset{indexImage}
      && (|group| == 1 ==> UnlinkImage(links, None, indexImage) == Some(RemoveAt(links, g)))
      && (|group| != 1 ==> UnlinkImage(links, None, indexImage) == Some(links[g := group]))
  {
    var g := FindGroup(links, indexImage);
    var i := FindIndex(links[g], indexImage);
    RemoveOccurrence(links[g], i);
    var group := RemoveAt(links[g], i);
    assert UnlinkImage(links, None, indexImage)
      == (if |group| == 1 then Some(RemoveAt(links[g := group], g)) else Some(links[g := group]));
    RemoveUpdated(links, g, group);
  }

  lemma RemoveOccurrence(s: seq<int>, i: int)
    requires 0 <= i < |s|
    ensures multiset(RemoveAt(s, i)) == multiset(s) - multiset{s[i]}
  {
    assert s == s[..i] + [s[i]] + s[i + 1..];
  }

  lemma RemoveUpdated(links: Links, g: int, group: seq<int>)
    requires 0 <= g < |links|
    ensures RemoveAt(links[g := group], g) == RemoveAt(links, g)
  {
  }

  /** An explicit group that does not hold the image loses its last member
      instead: `findIndex` gives -1 and `splice(-1, 1)` takes the last. */
  lemma UnlinkWrongGroupDropsLast(links: Links, g: int, indexImage: int)
    requires 0 < g < |links| && indexImage !in links[g] && |links[g]| >= 3
    ensures UnlinkImage(links, Some(g), indexImage) == Some(links[g := links[g][..|links[g]| - 1]])
  {
  }

  /** `getLinkedIndexes`: the first group holding the image, else the image
      alone; either way the image is in the result. */
  function GetLinkedIndexes(links: Links, index: int): (r: seq<int>)
    ensures index in r
    ensures FindGroup(links, index) >= 0 ==> r == links[FindGroup(links, index)]
    ensures FindGroup(links, index) == -1 ==> r == [index]
  {
    var g := FindGroup(links, index);
    if g == -1 then [index] else links[g]
  }

  /** `removeImageAtIndex`: unlink the image from its group, then unregister
      its module. */
  function RemoveImageAtIndex(st: ViewerState, index: int): (r: ViewerState)
    ensures index !in r.images
    ensures FindGroup(st.links, index) == -1 ==> r.links == st.links
  {
    var links := UnlinkImage(st.links, None, index);
    UnregisterImageModule(st.(links := links.value), index)
  }
}
