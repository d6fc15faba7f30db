/**
 * The web UI's annotation-listing store: display options, the filter record,
 * a date range, and the current page of each listed group.
 */
module ListAnnotations {
  import opened Wrappers
  import opened Json
  import opened ListFilters

  datatype ListAnnotationsState = ListAnnotationsState(
    previewSize: Option<int>,
    categorization: Option<Json>,
    perPage: int,
    outlineColor: Option<string>,
    regroup: Option<bool>,
    annotationType: Option<string>,
    filters: Filters,
    fromDate: Option<string>,
    toDate: Option<string>,
    currentPages: map<string, int>)

  const FILTER_NAMES: seq<string> := ["members", "reviewers", "images", "termsIds", "tracksIds",
    "tags", "imageGroups"]

  /** The store's initial state: 25 per page, everything else null or
      empty. */
  function InitialState(): (r: ListAnnotationsState)
    ensures r.perPage == 25
    ensures r.previewSize.None? && r.categorization.None? && r.outlineColor.None?
    ensures r.regroup.None? && r.annotationType.None? && r.fromDate.None? && r.toDate.None?
    ensures Keys(r.filters) == FILTER_NAMES && NbActive(r.filters) == 0 && r.currentPages == map[]
  {
    ListAnnotationsState(None, None, 25, None, None, None, NullFilters(FILTER_NAMES), None, None, map[])
  }

  /** `setFilter`: only the named filter changes. */
  function SetFilter(st: ListAnnotationsState, name: string, v: Json): (r: ListAnnotationsState)
    ensures Lookup(r.filters, name) == Some(v)
    ensures forall k :: k != name ==> Lookup(r.filters, k) == Lookup(st.filters, k)
    ensures r == st.(filters := r.filters)
  {
    st.(filters := ListFilters.SetFilter(st.filters, name, v))
  }

  /** `resetPagesAndFilters`: every filter and both dates null, no page
      remembered, and regrouping switched off (false, not the initial
      null); the display options stay. */
  function ResetPagesAndFilters(st: ListAnnotationsState): (r: ListAnnotationsState)
    ensures Keys(r.filters) == FILTER_NAMES && NbActive(r.filters) == 0
    ensures r.fromDate.None? && r.toDate.None? && r.currentPages == map[] && r.regroup == Some(false)
    ensures r.previewSize == st.previewSize && r.categorization == st.categorization
    ensures r.perPage == st.perPage && r.outlineColor == st.outlineColor && r.annotationType == st.annotationType
  {
    st.(filters := NullFilters(FILTER_NAMES), fromDate := None, toDate := None,
        regroup := Some(false), currentPages := map[])
  }

  /** Resetting does not lead back to the initial state, because of
      `regroup`; it does lead to a fixed point. */
  lemma ResetIsNotInitial(st: ListAnnotationsState)
    ensures ResetPagesAndFilters(InitialState()) != InitialState()
    ensures ResetPagesAndFilters(ResetPagesAndFilters(st)) == ResetPagesAndFilters(st)
  {
  }

  /** `setCurrentPage`: only the given group's page changes. */
  function SetCurrentPage(st: ListAnnotationsState, prop: string, page: int): (r: ListAnnotationsState)
    ensures prop in r.currentPages && r.currentPages[prop] == page
    ensures forall p :: p != prop ==> (p in r.currentPages <==> p in st.currentPages)
    ensures forall p :: p != prop && p in st.currentPages ==> r.currentPages[p] == st.currentPages[p]
    ensures r == st.(currentPages := r.currentPages)
  {
    st.(currentPages := st.currentPages[prop := page])
  }
}
