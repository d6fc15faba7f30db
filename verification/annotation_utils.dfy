/**
 * Annotation helpers of the web UI: whether an annotation is drawn on a
 * given layer, and how the fetched (term, user) associations of an
 * annotation are grouped into its term list and per-term user lists.
 */
module AnnotationUtils {
  import opened Wrappers

  datatype AnnotationKind = Reviewed | UserAnnotation | AlgoAnnotation

  /** An annotation as the layer test sees it: `user` is None when the
      object has no own `user` property, and `annotationLayer` is None when
      the `annotationLayer` property is undefined. A layer property holding
      null, on which the source's `.id` read throws a TypeError, is not
      modelled. */
  datatype Annotation = Annotation(
    kind: AnnotationKind,
    slice: int,
    user: Option<int>,
    annotationLayer: Option<int>)

  datatype Layer = Layer(id: int, isReview: bool)

  /** `annotBelongsToLayer`. A slice list, even an empty one, is truthy. */
  function AnnotBelongsToLayer(annot: Annotation, layer: Layer, slices: Option<seq<int>>): (r: bool)
    ensures slices.Some? && annot.slice !in slices.value ==> !r
    ensures (slices.None? || annot.slice in slices.value) && annot.user.Some? ==>
      (r <==> if layer.isReview then annot.kind == Reviewed
              else annot.kind != Reviewed && annot.user.value == layer.id)
    ensures (slices.None? || annot.slice in slices.value) && annot.user.None? ==>
      (r <==> annot.annotationLayer == Some(layer.id))
  {
    if slices.Some? && annot.slice !in slices.value then false
    else if annot.user.Some? then
      var isReviewed := annot.kind == Reviewed;
      if layer.isReview then isReviewed else !isReviewed && annot.user.value == layer.id
    else
      annot.annotationLayer.Some? && annot.annotationLayer.value == layer.id
  }

  /** A review layer and a user layer never both show the same annotation
      that has a user. */
  lemma ReviewAndUserLayersDisjoint(annot: Annotation, review: Layer, own: Layer, slices: Option<seq<int>>)
    requires review.isReview && !own.isReview && annot.user.Some?
    ensures !(AnnotBelongsToLayer(annot, review, slices) && AnnotBelongsToLayer(annot, own, slices))
  {
  }

  // ------------------------------------------------------------ term grouping

  /** One fetched `AnnotationTerm`: a term put on the annotation by a user. */
  datatype AnnotationTerm = AnnotationTerm(term: int, user: int)

  /** One entry of `userByTerm`. */
  datatype TermUsers = TermUsers(term: int, users: seq<int>)

  predicate Occurs(ats: seq<AnnotationTerm>, t: int) {
    exists i :: 0 <= i < |ats| && ats[i].term == t
  }

  /** The position of the first association with term `t`, or |ats|. */
  function FirstIndex(ats: seq<AnnotationTerm>, t: int): (r: nat)
    ensures r <= |ats|
    ensures r < |ats| ==> ats[r].term == t
    ensures forall i :: 0 <= i < r ==> ats[i].term != t
  {
    if ats == [] then 0
    else if ats[0].term == t then 0
    else 1 + FirstIndex(ats[1..], t)
  }

  /** Every user who put term `t`, in fetch order. */
  function UsersOf(ats: seq<AnnotationTerm>, t: int): seq<int> {
    if ats == [] then []
    else
      var last := ats[|ats| - 1];
      UsersOf(ats[..|ats| - 1], t) + (if last.term == t then [last.user] else [])
  }

  predicate Distinct(s: seq<int>) {
    forall i, j :: 0 <= i < j < |s| ==> s[i] != s[j]
  }

  /** What the grouping loop keeps after the first `k` associations. */
  ghost predicate Grouped(ats: seq<AnnotationTerm>, k: nat, term: seq<int>, userByTerm: seq<TermUsers>, mapping: map<int, nat>)
    requires k <= |ats|
  {
    TermsGrouped(ats, k, term, mapping) && UsersGrouped(ats, k, term, userByTerm)
  }

  ghost predicate TermsGrouped(ats: seq<AnnotationTerm>, k: nat, term: seq<int>, mapping: map<int, nat>)
    requires k <= |ats|
  {
    && Distinct(term)
    && (forall t :: t in mapping <==> t in term)
    && (forall t :: t in mapping ==> mapping[t] < |term| && term[mapping[t]] == t)
    && (forall t :: t in term <==> Occurs(ats[..k], t))
    && (forall i :: 0 <= i < |term| ==> FirstIndex(ats, term[i]) < k)
    && (forall i, j :: 0 <= i < j < |term| ==> FirstIndex(ats, term[i]) < FirstIndex(ats, term[j]))
  }

  ghost predicate UsersGrouped(ats: seq<AnnotationTerm>, k: nat, term: seq<int>, userByTerm: seq<TermUsers>)
    requires k <= |ats|
  {
    && |userByTerm| == |term|
    && (forall i :: 0 <= i < |term| ==> userByTerm[i] == TermUsers(term[i], UsersOf(ats[..k], term[i])))
  }

  /** The grouping loop of `updateTermProperties`, with its `mapping` from a
      term to its position. The term list holds every term once, in order
      of first occurrence, and `userByTerm[i]` holds every user of
      `term[i]`, in fetch order. */
  method UpdateTermProperties(ats: seq<AnnotationTerm>) returns (term: seq<int>, userByTerm: seq<TermUsers>)
    ensures Distinct(term)
    ensures forall t :: t in term <==> Occurs(ats, t)
    ensures forall i, j :: 0 <= i < j < |term| ==> FirstIndex(ats, term[i]) < FirstIndex(ats, term[j])
    ensures |userByTerm| == |term|
    ensures forall i :: 0 <= i < |term| ==> userByTerm[i] == TermUsers(term[i], UsersOf(ats, term[i]))
  {
    term := [];
    userByTerm := [];
    var mapping: map<int, nat> := map[];
    var k := 0;
    while k < |ats|
      invariant 0 <= k <= |ats|
      invariant Grouped(ats, k, term, userByTerm, mapping)
    {
      var at := ats[k];
      if at.term !in term {
        NewTermKeepsGrouping(ats, k, term, userByTerm, mapping);
        mapping := mapping[at.term := |term|];
        term := term + [at.term];
        userByTerm := userByTerm + [TermUsers(at.term, [at.user])];
      } else {
        var m := mapping[at.term];
        SeenTermKeepsGrouping(ats, k, term, userByTerm, mapping);
        userByTerm := userByTerm[m := TermUsers(at.term, userByTerm[m].users + [at.user])];
      }
      k := k + 1;
    }
    assert ats[..k] == ats;
  }

  lemma NewTermKeepsGrouping(ats: seq<AnnotationTerm>, k: nat, term: seq<int>, userByTerm: seq<TermUsers>, mapping: map<int, nat>)
    requires k < |ats| && Grouped(ats, k, term, userByTerm, mapping) && ats[k].term !in term
    ensures var t := ats[k].term;
      Grouped(ats, k + 1, term + [t], userByTerm + [TermUsers(t, [ats[k].user])], mapping[t := |term|])
  {
    var t := ats[k].term;
    OccursStep(ats, k);
    UsersOfStep(ats, k);
    FirstIndexNew(ats, k);
    UsersOfAbsent(ats[..k], t);
    var term' := term + [t];
    assert TermsGrouped(ats, k + 1, term', mapping[t := |term|]);
    var ubt' := userByTerm + [TermUsers(t, [ats[k].user])];
    forall i | 0 <= i < |term'|
      ensures ubt'[i] == TermUsers(term'[i], UsersOf(ats[..k + 1], term'[i]))
    {
      if i < |term| {
        assert term'[i] != t;
      }
    }
  }

  lemma SeenTermKeepsGrouping(ats: seq<AnnotationTerm>, k: nat, term: seq<int>, userByTerm: seq<TermUsers>, mapping: map<int, nat>)
    requires k < |ats| && Grouped(ats, k, term, userByTerm, mapping) && ats[k].term in term
    ensures var t := ats[k].term; var m := mapping[t];
      Grouped(ats, k + 1, term, userByTerm[m := TermUsers(t, userByTerm[m].users + [ats[k].user])], mapping)
  {
    var t := ats[k].term;
    var m := mapping[t];
    OccursStep(ats, k);
    UsersOfStep(ats, k);
    assert TermsGrouped(ats, k + 1, term, mapping);
    var ubt' := userByTerm[m := TermUsers(t, userByTerm[m].users + [ats[k].user])];
    forall i | 0 <= i < |term|
      ensures ubt'[i] == TermUsers(term[i], UsersOf(ats[..k + 1], term[i]))
    {
      if i != m {
        assert term[i] != t;
      }
    }
  }

  /** A term nobody put has no users. */
  lemma {:induction false} UsersOfAbsent(ats: seq<AnnotationTerm>, t: int)
    requires !Occurs(ats, t)
    ensures UsersOf(ats, t) == []
  {
    if ats != [] {
      var init := ats[..|ats| - 1];
      forall i | 0 <= i < |init|
        ensures init[i].term != t
      {
        assert init[i] == ats[i];
      }
      UsersOfAbsent(init, t);
    }
  }

  lemma OccursStep(ats: seq<AnnotationTerm>, k: nat)
    requires k < |ats|
    ensures forall t :: Occurs(ats[..k + 1], t) <==> Occurs(ats[..k], t) || ats[k].term == t
  {
    forall t
      ensures Occurs(ats[..k + 1], t) <==> Occurs(ats[..k], t) || ats[k].term == t
    {
      if Occurs(ats[..k + 1], t) {
        var i :| 0 <= i < k + 1 && ats[..k + 1][i].term == t;
        if i < k {
          assert ats[..k][i].term == t;
        }
      }
      if Occurs(ats[..k], t) {
        var i :| 0 <= i < k && ats[..k][i].term == t;
        assert ats[..k + 1][i].term == t;
      }
      if ats[k].term == t {
        assert ats[..k + 1][k].term == t;
      }
    }
  }

  lemma UsersOfStep(ats: seq<AnnotationTerm>, k: nat)
    requires k < |ats|
    ensures forall t :: UsersOf(ats[..k + 1], t) == UsersOf(ats[..k], t) + (if ats[k].term == t then [ats[k].user] else [])
  {
    assert ats[..k + 1][..k] == ats[..k];
  }

  lemma FirstIndexNew(ats: seq<AnnotationTerm>, k: nat)
    requires k < |ats| && !Occurs(ats[..k], ats[k].term)
    ensures FirstIndex(ats, ats[k].term) == k
  {
    forall i | 0 <= i < k
      ensures ats[i].term != ats[k].term
    {
      assert ats[..k][i] == ats[i];
    }
  }

  /** A term's user list has one entry per association with that term:
      repeated users are kept, none is dropped. */
  lemma {:induction false} UsersOfCountsAll(ats: seq<AnnotationTerm>, t: int)
    ensures |UsersOf(ats, t)| == |FilterTerm(ats, t)|
  {
    if ats != [] {
      var init := ats[..|ats| - 1];
      UsersOfCountsAll(init, t);
      FilterTermSnoc(init, ats[|ats| - 1], t);
      assert init + [ats[|ats| - 1]] == ats;
    }
  }

  /** The associations with term `t`, from the front. */
  function FilterTerm(ats: seq<AnnotationTerm>, t: int): (r: seq<AnnotationTerm>)
    ensures forall a :: a in r <==> a in ats && a.term == t
  {
    if ats == [] then []
    else
      assert forall a :: a in ats <==> a == ats[0] || a in ats[1..];
      (if ats[0].term == t then [ats[0]] else []) + FilterTerm(ats[1..], t)
  }

  lemma {:induction false} FilterTermSnoc(s: seq<AnnotationTerm>, a: AnnotationTerm, t: int)
    ensures FilterTerm(s + [a], t) == FilterTerm(s, t) + (if a.term == t then [a] else [])
  {
    if s == [] {
      assert [] + [a] == [a];
    } else {
      assert (s + [a])[1..] == s[1..] + [a];
      FilterTermSnoc(s[1..], a, t);
    }
  }
}
