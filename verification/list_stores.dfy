/**
 * The web UI's list stores for projects, images and image groups: search
 * text, filter record, paging and sorting of a listing page.
 */
module ListProjects {
  import opened Wrappers
  import opened Json
  import opened ListFilters

  datatype ListProjectsState = ListProjectsState(
    searchString: string,
    filtersOpened: bool,
    filters: Filters,
    currentPage: int,
    perPage: int,
    sortField: string,
    sortOrder: string,
    openedDetails: seq<Json>)

  const FILTER_NAMES: seq<string> := ["selectedOntologies", "selectedRoles", "selectedTags",
    "boundsMembers", "boundsImages", "boundsUserAnnotations", "boundsReviewedAnnotations"]

  /** `getDefaultState`. */
  function DefaultState(): (r: ListProjectsState)
    ensures Keys(r.filters) == FILTER_NAMES && NbActive(r.filters) == 0
    ensures r.searchString == "" && !r.filtersOpened && r.openedDetails == []
    ensures r.currentPage == 1 && r.perPage == 10
    ensures r.sortField == "lastActivity" && r.sortOrder == "desc"
  {
    ListProjectsState("", false, NullFilters(FILTER_NAMES), 1, 10, "lastActivity", "desc", [])
  }

  /** `resetState`: the default state, whatever came before. */
  function ResetState(st: ListProjectsState): (r: ListProjectsState)
    ensures r == DefaultState()
    ensures NbActiveFilters(r) == 0 && NbEmptyFilters(r) == 0
  {
    DefaultState()
  }

  /** `setFilter`: only the named filter changes. */
  function SetFilter(st: ListProjectsState, name: string, v: Json): (r: ListProjectsState)
    ensures Lookup(r.filters, name) == Some(v)
    ensures forall k :: k != name ==> Lookup(r.filters, k) == Lookup(st.filters, k)
    ensures r == st.(filters := r.filters)
  {
    st.(filters := ListFilters.SetFilter(st.filters, name, v))
  }

  /** `nbActiveFilters`. */
  function NbActiveFilters(st: ListProjectsState): (r: nat)
    ensures r <= |st.filters|
    ensures r == 0 <==> forall i :: 0 <= i < |st.filters| ==> !JsTruthy(st.filters[i].1)
  {
    NoneActive(st.filters);
    NbActive(st.filters)
  }

  /** `nbEmptyFilters`: never more than the active ones. */
  function NbEmptyFilters(st: ListProjectsState): (r: nat)
    ensures r <= NbActiveFilters(st)
  {
    EmptyAmongActive(st.filters);
    NbEmpty(st.filters)
  }

  /** Selecting a non-empty set of tags from the defaults makes exactly one
      filter active, and none of them empty. */
  lemma {:induction false} OneTagFilterActive(tags: seq<Json>)
    requires tags != []
    ensures var st := SetFilter(DefaultState(), "selectedTags", JArr(tags));
      NbActiveFilters(st) == 1 && NbEmptyFilters(st) == 0
  {
    OneFilterSet(DefaultState().filters, "selectedTags", JArr(tags));
  }

  /** Setting one filter to a truthy, non-empty value in a record with none
      active leaves exactly that one active and none empty. */
  lemma OneFilterSet(fs: Filters, name: string, v: Json)
    requires NbActive(fs) == 0 && JsTruthy(v) && !IsEmptyActive(v)
    ensures NbActive(ListFilters.SetFilter(fs, name, v)) == 1
    ensures NbEmpty(ListFilters.SetFilter(fs, name, v)) == 0
  {
    NoneActive(fs);
    SetFilterCount(fs, name, v);
    EmptyAmongActive(fs);
    EmptyBelowActiveWhenOnlyFull(fs, name, v);
  }


  /** With no filter empty before, setting one to a non-empty value keeps
      the empty count at zero. */
  lemma {:induction false} EmptyBelowActiveWhenOnlyFull(fs: Filters, name: string, v: Json)
    requires NbEmpty(fs) == 0 && !IsEmptyActive(v)
    ensures NbEmpty(ListFilters.SetFilter(fs, name, v)) == 0
  {
    if fs != [] {
      EmptyBelowActiveWhenOnlyFull(fs[1..], name, v);
      if fs[0].0 == name {
        assert PutField(fs, name, v) == [(name, v)] + fs[1..];
        assert ([(name, v)] + fs[1..])[1..] == fs[1..];
      } else {
        assert PutField(fs, name, v) == [fs[0]] + PutField(fs[1..], name, v);
        assert ([fs[0]] + PutField(fs[1..], name, v))[1..] == PutField(fs[1..], name, v);
      }
    }
  }
}

module ListImages {
  import opened Wrappers
  import opened Json
  import opened ListFilters

  datatype ListImagesState = ListImagesState(
    searchString: string,
    filtersOpened: bool,
    filters: Filters,
    currentPage: int,
    perPage: int,
    sortField: Option<string>,
    sortOrder: string,
    openedDetails: seq<Json>)

  const FILTER_NAMES: seq<string> := ["formats", "vendors", "selectedTags", "magnifications",
    "resolutions", "boundsWidth", "boundsHeight", "boundsUserAnnotations", "boundsReviewedAnnotations"]

  /** The store's initial state: nine null filters, first page of ten,
      ascending with no sort field. */
  function InitialState(): (r: ListImagesState)
    ensures |r.filters| == 9 && Keys(r.filters) == FILTER_NAMES
    ensures forall i :: 0 <= i < 9 ==> r.filters[i].1 == JNull
    ensures r.currentPage == 1 && r.perPage == 10 && r.sortField.None? && r.sortOrder == "asc"
  {
    var fs := NullFilters(FILTER_NAMES);
    assert forall i :: 0 <= i < |fs| ==> fs[i].1 == JNull by {
      NullFiltersAreNull(FILTER_NAMES);
    }
    ListImagesState("", false, fs, 1, 10, None, "asc", [])
  }

  /** `setFilter`: only the named filter changes. */
  function SetFilter(st: ListImagesState, name: string, v: Json): (r: ListImagesState)
    ensures Lookup(r.filters, name) == Some(v)
    ensures forall k :: k != name ==> Lookup(r.filters, k) == Lookup(st.filters, k)
    ensures name in Keys(st.filters) ==> Keys(r.filters) == Keys(st.filters)
    ensures r == st.(filters := r.filters)
  {
    st.(filters := ListFilters.SetFilter(st.filters, name, v))
  }

  /** `nbActiveFilters`. */
  function NbActiveFilters(st: ListImagesState): (r: nat)
    ensures r <= |st.filters|
    ensures r == 0 <==> forall i :: 0 <= i < |st.filters| ==> !JsTruthy(st.filters[i].1)
  {
    NoneActive(st.filters);
    NbActive(st.filters)
  }

  /** `nbEmptyFilters`: never more than the active ones. */
  function NbEmptyFilters(st: ListImagesState): (r: nat)
    ensures r <= NbActiveFilters(st)
  {
    EmptyAmongActive(st.filters);
    NbEmpty(st.filters)
  }

  /** Setting the known filters keeps the count of filters at nine, so at
      most nine can be active. */
  lemma KnownFiltersStayNine(st: ListImagesState, name: string, v: Json)
    requires Keys(st.filters) == FILTER_NAMES && name in FILTER_NAMES
    ensures Keys(SetFilter(st, name, v).filters) == FILTER_NAMES
    ensures NbActiveFilters(SetFilter(st, name, v)) <= 9
  {
  }

  lemma {:induction false} NullFiltersAreNull(names: seq<string>)
    ensures forall i :: 0 <= i < |names| ==> NullFilters(names)[i].1 == JNull
  {
    if names != [] {
      NullFiltersAreNull(names[1..]);
      assert NullFilters(names) == [(names[0], JNull)] + NullFilters(names[1..]);
    }
  }
}

module ListImageGroups {
  import opened Wrappers
  import opened Json
  import opened ListFilters

  datatype Sort = Sort(field: string, order: string)

  datatype ListImageGroupsState = ListImageGroupsState(
    searchString: string,
    filtersOpened: bool,
    filters: Filters,
    currentPage: int,
    perPage: int,
    sort: Sort,
    openedDetails: seq<Json>)

  const FILTER_NAMES: seq<string> := ["boundsImages", "boundsAnnotationLinks"]

  /** The store's initial state: both filters null, sorted by name
      ascending. */
  function InitialState(): (r: ListImageGroupsState)
    ensures Keys(r.filters) == FILTER_NAMES && NbActive(r.filters) == 0
    ensures r.sort == Sort("name", "asc") && r.currentPage == 1 && r.perPage == 10
  {
    ListImageGroupsState("", false, NullFilters(FILTER_NAMES), 1, 10, Sort("name", "asc"), [])
  }

  /** `setFilter`: only the named filter changes. */
  function SetFilter(st: ListImageGroupsState, name: string, v: Json): (r: ListImageGroupsState)
    ensures Lookup(r.filters, name) == Some(v)
    ensures forall k :: k != name ==> Lookup(r.filters, k) == Lookup(st.filters, k)
    ensures name in Keys(st.filters) ==> Keys(r.filters) == Keys(st.filters)
    ensures r == st.(filters := r.filters)
  {
    st.(filters := ListFilters.SetFilter(st.filters, name, v))
  }

  /** `setSort`: the whole sort record is replaced, field and order
      together. */
  function SetSort(st: ListImageGroupsState, sort: Sort): (r: ListImageGroupsState)
    ensures r.sort == sort && r == st.(sort := sort)
  {
    st.(sort := sort)
  }

  /** `nbActiveFilters`. */
  function NbActiveFilters(st: ListImageGroupsState): (r: nat)
    ensures r <= |st.filters|
  {
    NbActive(st.filters)
  }

  /** `nbEmptyFilters`. */
  function NbEmptyFilters(st: ListImageGroupsState): (r: nat)
    ensures r <= NbActiveFilters(st)
  {
    EmptyAmongActive(st.filters);
    NbEmpty(st.filters)
  }

  /** As long as only the two known filters are set, empty ≤ active ≤ 2. */
  lemma CountsBounded(st: ListImageGroupsState, name: string, v: Json)
    requires Keys(st.filters) == FILTER_NAMES && name in FILTER_NAMES
    ensures var r := SetFilter(st, name, v);
      NbEmptyFilters(r) <= NbActiveFilters(r) <= 2 && Keys(r.filters) == FILTER_NAMES
  {
  }

  /** A filter name outside the record is added to it, and counted. */
  lemma UnknownFilterIsAdded(st: ListImageGroupsState)
    requires Keys(st.filters) == FILTER_NAMES
    ensures |SetFilter(st, "boundsTags", JArr([])).filters| == 3
  {
  }
}
