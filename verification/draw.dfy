/**
 * The web UI's drawing store: the active tool, the terms and tracks given to
 * new annotations, and the clean-up that drops terms and tracks that no
 * longer exist.
 */
module Draw {
  import opened Wrappers

  datatype DrawState = DrawState(
    activeTool: string,
    termsNewAnnots: seq<int>,
    tracksNewAnnots: seq<int>,
    activeEditTool: Option<string>,
    ongoingEdit: bool)

  /** The store's initial state. */
  const INITIAL: DrawState := DrawState("select", [], [], None, false)

  /** A term or a track as the clean-up sees it: only its id matters. */
  datatype Entity = Entity(id: int)

  function Ids(es: seq<Entity>): (r: seq<int>)
    ensures |r| == |es|
    ensures forall i :: 0 <= i < |es| ==> r[i] == es[i].id
  {
    if es == [] then [] else [es[0].id] + Ids(es[1..])
  }

  /** `ids.filter(id => existing.includes(id))`. */
  function KeepExisting(ids: seq<int>, existing: seq<int>): (r: seq<int>)
    ensures forall x :: x in r <==> x in ids && x in existing
    ensures |r| <= |ids|
  {
    if ids == [] then []
    else
      assert forall x :: x in ids <==> x == ids[0] || x in ids[1..];
      (if ids[0] in existing then [ids[0]] else []) + KeepExisting(ids[1..], existing)
  }

  /** `a` is `b` with some elements left out, the others in their order. */
  predicate IsSubsequence(a: seq<int>, b: seq<int>) {
    if a == [] then true
    else if b == [] then false
    else if a[0] == b[0] then IsSubsequence(a[1..], b[1..])
    else IsSubsequence(a, b[1..])
  }

  lemma {:induction false} KeepIsSubsequence(ids: seq<int>, existing: seq<int>)
    ensures IsSubsequence(KeepExisting(ids, existing), ids)
  {
    if ids != [] {
      KeepIsSubsequence(ids[1..], existing);
      var rest := KeepExisting(ids[1..], existing);
      if ids[0] in existing {
        assert ([ids[0]] + rest)[1..] == rest;
      } else {
        assert ([] + rest) == rest;
        SubsequenceOfTail(rest, ids);
      }
    }
  }

  /** A subsequence of the tail is a subsequence of the whole. */
  lemma {:induction false} SubsequenceOfTail(a: seq<int>, b: seq<int>)
    requires b != [] && IsSubsequence(a, b[1..])
    ensures IsSubsequence(a, b)
    decreases |b|, 0
  {
    if a != [] && a[0] == b[0] {
      SubsequenceDropHead(a, b[1..]);
    }
  }

  /** Leaving out the first element of a subsequence keeps it one. */
  lemma {:induction false} SubsequenceDropHead(a: seq<int>, c: seq<int>)
    requires a != [] && IsSubsequence(a, c)
    ensures IsSubsequence(a[1..], c)
    decreases |c|, 1
  {
    if a[0] != c[0] {
      SubsequenceDropHead(a, c[1..]);
    }
    if a[1..] != [] {
      SubsequenceOfTail(a[1..], c);
    }
  }

  /** Filtering twice with the same ids keeps what filtering once kept. */
  lemma {:induction false} KeepIdempotent(ids: seq<int>, existing: seq<int>)
    ensures KeepExisting(KeepExisting(ids, existing), existing) == KeepExisting(ids, existing)
  {
    if ids != [] {
      KeepIdempotent(ids[1..], existing);
      var rest := KeepExisting(ids[1..], existing);
      if ids[0] in existing {
        assert ([ids[0]] + rest)[1..] == rest;
      } else {
        assert [] + rest == rest;
      }
    }
  }

  /** `filterTermsNewAnnots`: keep the new-annotation terms that are still
      among the given terms, in their order; nothing else changes. */
  function FilterTermsNewAnnots(st: DrawState, terms: seq<Entity>): (r: DrawState)
    ensures forall x :: x in r.termsNewAnnots <==> x in st.termsNewAnnots && x in Ids(terms)
    ensures r == st.(termsNewAnnots := r.termsNewAnnots)
  {
    st.(termsNewAnnots := KeepExisting(st.termsNewAnnots, Ids(terms)))
  }

  /** `filterTracksNewAnnots`: the same rule for tracks. */
  function FilterTracksNewAnnots(st: DrawState, tracks: seq<Entity>): (r: DrawState)
    ensures forall x :: x in r.tracksNewAnnots <==> x in st.tracksNewAnnots && x in Ids(tracks)
    ensures r == st.(tracksNewAnnots := r.tracksNewAnnots)
  {
    st.(tracksNewAnnots := KeepExisting(st.tracksNewAnnots, Ids(tracks)))
  }

  /** The clean-ups keep a subsequence of the old list and are idempotent. */
  lemma FilterTermsProperties(st: DrawState, terms: seq<Entity>)
    ensures IsSubsequence(FilterTermsNewAnnots(st, terms).termsNewAnnots, st.termsNewAnnots)
    ensures FilterTermsNewAnnots(FilterTermsNewAnnots(st, terms), terms) == FilterTermsNewAnnots(st, terms)
  {
    KeepIsSubsequence(st.termsNewAnnots, Ids(terms));
    KeepIdempotent(st.termsNewAnnots, Ids(terms));
  }

  lemma FilterTracksProperties(st: DrawState, tracks: seq<Entity>)
    ensures IsSubsequence(FilterTracksNewAnnots(st, tracks).tracksNewAnnots, st.tracksNewAnnots)
    ensures FilterTracksNewAnnots(FilterTracksNewAnnots(st, tracks), tracks) == FilterTracksNewAnnots(st, tracks)
  {
    KeepIsSubsequence(st.tracksNewAnnots, Ids(tracks));
    KeepIdempotent(st.tracksNewAnnots, Ids(tracks));
  }
}
