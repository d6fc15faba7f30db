/**
 * The shape and size check `CollectionType.validateNode` runs over a
 * collection value bound from JSON or read back from an output archive.
 *
 * The source walks the value with the same two cursors as `validateParents`
 * (a tracking type and a parent type, kept in fields of the type object), one
 * step per node. After an item map it puts the tracking type back to the
 * parent, but after a nested list it does not. For a collection of collections
 * the second sublist is therefore compared with the leaf type, and the cast to
 * `CollectionType` fails. `ValidateNative` models the code as written;
 * `CheckNode` is the corrected walk, which checks every list against the bounds
 * of its own nesting level. The two agree on single-level collections.
 */
module CollectionNodes {
  import opened Wrappers
  import opened ErrorCodes
  import opened TaskTypes
  import CollectionIndex

  /** The Java objects a collection value is made of. */
  datatype Node =
    | NList(items: seq<Node>)  // an ArrayList
    | NMap(value: Node)        // a LinkedHashMap item; only its "value" entry is read
    | NNull                    // Java null, or a map without "value"
    | NScalar(text: string)    // a String, Integer, Double, Boolean or File

  /** How a check ends badly: a TypeValidationException with its code, one with
      a bare message, or a runtime exception (cast, null, number format). */
  datatype NodeFault = Rejected(code: ErrorCode) | RejectedWithMessage(message: string) | Crash

  /** The `validate` of a non-collection type applied to an item's value; it is
      not part of this model. */
  type LeafCheck = (ParamType, Node) -> Option<ErrorCode>

  /** `size < getMinSize() || size > getMaxSize()`: a null bound is unboxed
      (and crashes) only when it is reached. */
  function SizeCheck(ct: ParamType, size: nat): (r: Option<NodeFault>)
    requires ct.CollectionType?
    ensures r.None? <==>
      ct.minSize.Some? && ct.maxSize.Some? && ct.minSize.value <= size <= ct.maxSize.value
    ensures r.Some? && r.value != Crash ==> r.value == Rejected(INTERNAL_INVALID_COLLECTION_DIMENSIONS)
    ensures ct.minSize.Some? && size < ct.minSize.value ==>
      r == Some(Rejected(INTERNAL_INVALID_COLLECTION_DIMENSIONS))
  {
    match ct.minSize
    case None => Some(Crash)
    case Some(lo) =>
      if size < lo then Some(Rejected(INTERNAL_INVALID_COLLECTION_DIMENSIONS))
      else match ct.maxSize
        case None => Some(Crash)
        case Some(hi) =>
          if size > hi then Some(Rejected(INTERNAL_INVALID_COLLECTION_DIMENSIONS)) else None
  }

  /** The cursors left behind by a walk and its fault, if any. */
  datatype Walk = Walk(cursors: CollectionIndex.Cursors, fault: Option<NodeFault>)

  /** One call of `validateNode(obj)` on parameter type `t` with cursors `c`. */
  function ValidateNode(t: ParamType, leaf: LeafCheck, c: CollectionIndex.Cursors, obj: Node): (w: Walk)
    decreases obj, 1
  {
    var c1 := CollectionIndex.Step(t, c);
    var tr := c1.tracking.value;
    if tr.CollectionType? && !obj.NList? then Walk(c1, Some(Rejected(INTERNAL_INVALID_COLLECTION_DIMENSIONS)))
    else
      match obj
      case NList(items) =>
        if !tr.CollectionType? then Walk(c1, Some(Crash))
        else (
          match SizeCheck(tr, |items|)
          case Some(f) => Walk(c1, Some(f))
          case None => ValidateItems(t, leaf, c1, obj, items))
      case NMap(value) =>
        // The tracking type is not a collection here, so a list value is
        // refused before the branch that would step into it.
        if value.NList? then Walk(c1, Some(Rejected(INTERNAL_WRONG_PROVISION_STRUCTURE)))
        else if value.NNull? then Walk(c1, None)
        else
          (match leaf(tr, value)
           case Some(e) => Walk(c1, Some(Rejected(e)))
           case None => Walk(CollectionIndex.Cursors(c1.parent, c1.parent), None))
      case _ => Walk(c1, Some(Crash))
  }

  /** The `for (Object o : list) validateNode(o)` loop, the cursors threaded
      from each item to the next. */
  function ValidateItems(t: ParamType, leaf: LeafCheck, c: CollectionIndex.Cursors, parent: Node, items: seq<Node>): (w: Walk)
    requires forall i :: 0 <= i < |items| ==> items[i] < parent
    decreases parent, 0, |items|
  {
    if items == [] then Walk(c, None)
    else
      var w := ValidateNode(t, leaf, c, items[0]);
      if w.fault.Some? then w else ValidateItems(t, leaf, w.cursors, parent, items[1..])
  }

  /** `validateNativeCollection` on a type whose cursors are still null. */
  function ValidateNative(t: ParamType, leaf: LeafCheck, obj: Node): Option<NodeFault> {
    ValidateNode(t, leaf, CollectionIndex.Cursors(None, None), obj).fault
  }

  // ---------------------------------------------------------------- corrected walk

  /** The corrected walk: a value of collection type `ty` must be a list within
      `ty`'s bounds whose items are values of `ty.subType`; a value of any other
      type must be an item map whose value, if present, is not a list and passes
      the leaf check. */
  function CheckNode(ty: ParamType, leaf: LeafCheck, obj: Node): (r: Option<NodeFault>)
    ensures ty.CollectionType? && !obj.NList? ==> r == Some(Rejected(INTERNAL_INVALID_COLLECTION_DIMENSIONS))
    ensures ty.CollectionType? && obj.NList? && SizeCheck(ty, |obj.items|).Some? ==> r == SizeCheck(ty, |obj.items|)
    ensures !ty.CollectionType? && obj.NMap? && obj.value.NList? ==> r == Some(Rejected(INTERNAL_WRONG_PROVISION_STRUCTURE))
    decreases obj, 1
  {
    if ty.CollectionType? then
      match obj
      case NList(items) =>
        (match SizeCheck(ty, |items|)
         case Some(f) => Some(f)
         case None => CheckItems(ty.subType, leaf, obj, items))
      case _ => Some(Rejected(INTERNAL_INVALID_COLLECTION_DIMENSIONS))
    else
      match obj
      case NMap(value) =>
        if value.NList? then Some(Rejected(INTERNAL_WRONG_PROVISION_STRUCTURE))
        else if value.NNull? then None
        else (match leaf(ty, value) case Some(e) => Some(Rejected(e)) case None => None)
      case _ => Some(Crash)
  }

  /** The first fault among the items, each checked as a value of `ty`. */
  function CheckItems(ty: ParamType, leaf: LeafCheck, parent: Node, items: seq<Node>): (r: Option<NodeFault>)
    requires forall i :: 0 <= i < |items| ==> items[i] < parent
    decreases parent, 0, |items|
  {
    if items == [] then None
    else
      match CheckNode(ty, leaf, items[0])
      case Some(f) => Some(f)
      case None => CheckItems(ty, leaf, parent, items[1..])
  }

  /** The reference description of an accepted value, one nesting level at a
      time: every list lies within the bounds of the level it sits at. */
  predicate Conforms(ty: ParamType, leaf: LeafCheck, obj: Node)
    decreases obj
  {
    if ty.CollectionType? then
      obj.NList? && SizeCheck(ty, |obj.items|).None?
      && forall i :: 0 <= i < |obj.items| ==> Conforms(ty.subType, leaf, obj.items[i])
    else
      obj.NMap? && !obj.value.NList? && (obj.value.NNull? || leaf(ty, obj.value).None?)
  }

  lemma {:induction false} CheckNodeConforms(ty: ParamType, leaf: LeafCheck, obj: Node)
    ensures CheckNode(ty, leaf, obj).None? <==> Conforms(ty, leaf, obj)
    decreases obj, 1
  {
    if ty.CollectionType? && obj.NList? && SizeCheck(ty, |obj.items|).None? {
      CheckItemsConform(ty.subType, leaf, obj, obj.items);
    }
  }

  lemma {:induction false} CheckItemsConform(ty: ParamType, leaf: LeafCheck, parent: Node, items: seq<Node>)
    requires forall i :: 0 <= i < |items| ==> items[i] < parent
    ensures CheckItems(ty, leaf, parent, items).None? <==>
      forall i :: 0 <= i < |items| ==> Conforms(ty, leaf, items[i])
    decreases parent, 0, |items|
  {
    if items != [] {
      CheckNodeConforms(ty, leaf, items[0]);
      CheckItemsConform(ty, leaf, parent, items[1..]);
      assert forall i :: 1 <= i < |items| ==> items[i] == items[1..][i - 1];
    }
  }

  /** The corrected walk accepts exactly the conforming values. */
  lemma CorrectedAcceptsConforming(t: ParamType, leaf: LeafCheck, obj: Node)
    ensures CheckNode(t, leaf, obj).None? <==> Conforms(t, leaf, obj)
  {
    CheckNodeConforms(t, leaf, obj);
  }

  // ---------------------------------------------------------------- single level

  /** Between the items of a single-level list the cursors always step to the
      leaf type under the collection. */
  predicate BetweenItems(t: ParamType, c: CollectionIndex.Cursors)
    requires t.CollectionType?
  {
    CollectionIndex.Step(t, c) == CollectionIndex.Cursors(Some(t.subType), Some(t))
  }

  lemma {:induction false} FlatItemsAgree(t: ParamType, leaf: LeafCheck, c: CollectionIndex.Cursors, parent: Node, items: seq<Node>)
    requires t.CollectionType? && !t.subType.CollectionType?
    requires BetweenItems(t, c)
    requires forall i :: 0 <= i < |items| ==> items[i] < parent
    ensures ValidateItems(t, leaf, c, parent, items).fault == CheckItems(t.subType, leaf, parent, items)
    decreases |items|
  {
    if items != [] {
      var w := ValidateNode(t, leaf, c, items[0]);
      assert w.fault == CheckNode(t.subType, leaf, items[0]);
      if w.fault.None? {
        assert BetweenItems(t, w.cursors);
        FlatItemsAgree(t, leaf, w.cursors, parent, items[1..]);
      }
    }
  }

  /** On a collection of non-collections the code as written and the corrected
      walk give the same verdict on every value. */
  lemma FlatCollectionsAgree(t: ParamType, leaf: LeafCheck, obj: Node)
    requires t.CollectionType? && !t.subType.CollectionType?
    ensures ValidateNative(t, leaf, obj) == CheckNode(t, leaf, obj)
  {
    var c1 := CollectionIndex.Step(t, CollectionIndex.Cursors(None, None));
    assert c1 == CollectionIndex.Cursors(Some(t), Some(t));
    if obj.NList? && SizeCheck(t, |obj.items|).None? {
      FlatItemsAgree(t, leaf, c1, obj, obj.items);
    }
  }

  // ---------------------------------------------------------------- two levels

  /** Every leaf value is accepted. */
  const AcceptAll: LeafCheck := (ty: ParamType, n: Node) => None

  /** A collection of up to ten collections of up to ten integers. */
  const Grid: ParamType := CollectionType(Some(0), Some(10), CollectionType(Some(0), Some(10), IntegerType([])))

  /** `[[{"value": 1}], [{"value": 3}]]`. */
  const TwoRows: Node := NList([NList([NMap(NScalar("1"))]), NList([NMap(NScalar("3"))])])

  /** As written the second row is walked with the integer type as tracking
      type and the cast fails; the corrected walk accepts the value. */
  lemma SecondSublistCrashes()
    ensures ValidateNative(Grid, AcceptAll, TwoRows) == Some(Crash)
    ensures CheckNode(Grid, AcceptAll, TwoRows).None?
  {
    var row1 := NList([NMap(NScalar("1"))]);
    var row2 := NList([NMap(NScalar("3"))]);
    var inner := Grid.subType;
    var top := CollectionIndex.Cursors(Some(Grid), Some(Grid));
    assert CollectionIndex.Step(Grid, CollectionIndex.Cursors(None, None)) == top;
    var afterRow1 := CollectionIndex.Cursors(Some(inner), Some(inner));
    assert ValidateNode(Grid, AcceptAll, top, row1).cursors == afterRow1 by {
      var c1 := CollectionIndex.Cursors(Some(inner), Some(Grid));
      assert CollectionIndex.Step(Grid, top) == c1;
      assert ValidateItems(Grid, AcceptAll, c1, row1, row1.items)
          == ValidateNode(Grid, AcceptAll, c1, row1.items[0]);
    }
    assert ValidateNode(Grid, AcceptAll, top, row1).fault.None?;
    assert ValidateNode(Grid, AcceptAll, afterRow1, row2).fault == Some(Crash);
    assert ValidateItems(Grid, AcceptAll, top, TwoRows, TwoRows.items).fault == Some(Crash) by {
      assert TwoRows.items[1..] == [row2];
    }
    assert AcceptAll(IntegerType([]), NScalar("1")).None?;
    assert AcceptAll(IntegerType([]), NScalar("3")).None?;
    assert CheckItems(inner.subType, AcceptAll, row1, row1.items).None? by {
      assert row1.items[1..] == [];
    }
    assert CheckItems(inner.subType, AcceptAll, row2, row2.items).None? by {
      assert row2.items[1..] == [];
    }
    assert CheckItems(inner, AcceptAll, TwoRows, TwoRows.items).None? by {
      assert TwoRows.items[1..] == [row2];
    }
  }
}
