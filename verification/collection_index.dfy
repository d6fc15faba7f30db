/**
 * The index bounds check that `TaskProvisioningService.validateParents` runs
 * before a collection item is provisioned at an index path such as `0/5`.
 *
 * The source walks the nested collection types with two cursors, a tracking
 * type and a parent type, and checks index `i` against the parent's `maxSize`.
 * Its first two iterations both leave the parent at the outermost collection,
 * so index `i` (for `i >= 1`) is checked against level `i - 1` instead of
 * level `i`. `ValidateParents` models the code as written and
 * `AsWrittenChecksLevelBefore` states which level each index is checked
 * against; `ValidateIndexes` is the corrected check.
 */
module CollectionIndex {
  import opened Wrappers
  import Text
  import opened TaskTypes
  import IndexPattern

  /** Why an index path is refused. */
  datatype IndexFault =
    | InvalidIndex(index: int)  // the "invalid index" TypeValidationException
    | TooDeep(position: nat)    // more indexes than nested collections (corrected check only)
    | Crash                     // a ClassCastException, NumberFormatException or null unboxing

  /** The two transient cursors of a `CollectionType`; None is Java null. */
  datatype Cursors = Cursors(tracking: Option<ParamType>, parent: Option<ParamType>)

  /** One iteration's cursor update: the first copies the type into both
      cursors; later ones move the parent to the tracking type and the tracking
      type one subtype down, as long as the tracking type is a collection. */
  function Step(t: ParamType, c: Cursors): (r: Cursors)
    ensures c.tracking.None? ==> r == Cursors(Some(t), Some(t))
    ensures c.tracking.Some? && c.tracking.value.CollectionType? ==>
      r == Cursors(Some(c.tracking.value.subType), c.tracking)
    ensures c.tracking.Some? && !c.tracking.value.CollectionType? ==> r == c
  {
    match c.tracking
    case None => Cursors(Some(t), Some(t))
    case Some(tr) => if tr.CollectionType? then Cursors(Some(tr.subType), Some(tr)) else c
  }

  /** The check of one index against the parent's `maxSize`, with Java's
      `maxSize - 1` computed in `int`. */
  function CheckAgainst(parent: Option<ParamType>, s: string): (r: Option<IndexFault>)
    ensures r.None? <==>
      Text.ParseInt(s).Some? && parent.Some? && parent.value.CollectionType?
      && parent.value.maxSize.Some?
      && 0 <= Text.ParseInt(s).value <= Text.Int32(parent.value.maxSize.value - 1)
  {
    match Text.ParseInt(s)
    case None => Some(Crash)
    case Some(v) =>
      if parent.None? || !parent.value.CollectionType? || parent.value.maxSize.None? then Some(Crash)
      else if v > Text.Int32(parent.value.maxSize.value - 1) || v < 0 then Some(InvalidIndex(v))
      else None
  }

  /** A run of ASCII digits parses as its decimal value when that fits an `int`. */
  lemma ParseDigits(p: string)
    requires |p| > 0 && Text.AllDigits(p)
    ensures Text.ParseInt(p) == if Text.DigitsValue(p) <= Text.INT_MAX then Some(Text.DigitsValue(p)) else None
  {
    assert p[0] != '-' && p[0] != '+';
  }

  /** Every index path that reaches `validateParents` has first matched the
      controller's pattern, whose `[0-9]` admits ASCII digits only. So each
      index `CheckAgainst` parses is a run of ASCII digits, read as its
      decimal value whenever that fits an `int`. */
  lemma CheckedPiecesParse(name: string, value: string)
    requires IndexPattern.CheckIndexes(name, value).Success?
    ensures forall i :: 0 <= i < |IndexPattern.CheckIndexes(name, value).value| ==>
      (var p := IndexPattern.CheckIndexes(name, value).value[i];
       Text.AllDigits(p) && Text.ParseInt(p) == if Text.DigitsValue(p) <= Text.INT_MAX then Some(Text.DigitsValue(p)) else None)
  {
    var pieces := IndexPattern.CheckIndexes(name, value).value;
    forall i | 0 <= i < |pieces|
      ensures Text.AllDigits(pieces[i])
      ensures Text.ParseInt(pieces[i]) == if Text.DigitsValue(pieces[i]) <= Text.INT_MAX then Some(Text.DigitsValue(pieces[i])) else None
    {
      ParseDigits(pieces[i]);
    }
  }

  /** The loop of `validateParents` from cursor state `c`. */
  function ValidateFrom(t: ParamType, c: Cursors, indexes: seq<string>): (r: Option<IndexFault>)
    decreases |indexes|
  {
    if indexes == [] then None
    else
      var c' := Step(t, c);
      match CheckAgainst(c'.parent, indexes[0])
      case Some(f) => Some(f)
      case None => ValidateFrom(t, c', indexes[1..])
  }

  /** `validateParents` as written, on a parameter whose transient cursors are
      still null; a non-collection parameter type fails the cast. */
  function ValidateParents(t: ParamType, indexes: seq<string>): (r: Option<IndexFault>)
    ensures !t.CollectionType? ==> r == Some(Crash)
    ensures indexes == [] && t.CollectionType? ==> r.None?
  {
    if !t.CollectionType? then Some(Crash) else ValidateFrom(t, Cursors(None, None), indexes)
  }

  /** The level whose `maxSize` the source checks index `i` against, for a type
      nesting `d >= 1` collections: level 0 for the first two indexes, then the
      level just above the index's own, stopping at the innermost collection. */
  function CheckedLevel(i: nat, d: nat): (l: nat)
    requires d >= 1
    ensures l < d
  {
    if i == 0 then 0 else if i - 1 < d - 1 then i - 1 else d - 1
  }

  /** The cursor state after `k` iterations on a fresh collection type `t`. */
  function CursorsAfter(t: ParamType, k: nat): Cursors
    requires t.CollectionType?
  {
    if k == 0 then Cursors(None, None)
    else
      var d := Depth(t);
      Cursors(Some(Level(t, if k - 1 < d then k - 1 else d)), Some(Level(t, CheckedLevel(k - 1, d))))
  }

  lemma {:induction false} LevelSucc(t: ParamType, j: nat)
    requires j < Depth(t)
    ensures Level(t, j).CollectionType? && Level(t, j).subType == Level(t, j + 1)
  {
    if j > 0 {
      LevelSucc(t.subType, j - 1);
    }
  }

  lemma StepCursorsAfter(t: ParamType, k: nat)
    requires t.CollectionType?
    ensures Step(t, CursorsAfter(t, k)) == CursorsAfter(t, k + 1)
  {
    var d := Depth(t);
    if k > 0 && k - 1 < d {
      LevelSucc(t, k - 1);
    }
  }

  /** The check each index of a path undergoes, written with the level it is
      compared with. */
  function CheckedFrom(t: ParamType, k: nat, indexes: seq<string>): Option<IndexFault>
    requires t.CollectionType?
    decreases |indexes|
  {
    if indexes == [] then None
    else
      match CheckAgainst(Some(Level(t, CheckedLevel(k, Depth(t)))), indexes[0])
      case Some(f) => Some(f)
      case None => CheckedFrom(t, k + 1, indexes[1..])
  }

  lemma {:induction false} ValidateFromIsCheckedFrom(t: ParamType, k: nat, indexes: seq<string>)
    requires t.CollectionType?
    ensures ValidateFrom(t, CursorsAfter(t, k), indexes) == CheckedFrom(t, k, indexes)
    decreases |indexes|
  {
    if indexes != [] {
      StepCursorsAfter(t, k);
      ValidateFromIsCheckedFrom(t, k + 1, indexes[1..]);
    }
  }

  /** Index text `s` at position `i` passes the as-written check, which compares
      it with level `CheckedLevel(i, depth)`. */
  predicate PassesAt(t: ParamType, i: nat, s: string)
    requires t.CollectionType?
  {
    CheckAgainst(Some(Level(t, CheckedLevel(i, Depth(t)))), s).None?
  }

  lemma {:induction false} CheckedFromAccepts(t: ParamType, k: nat, indexes: seq<string>)
    requires t.CollectionType?
    ensures CheckedFrom(t, k, indexes).None? <==>
      forall i :: 0 <= i < |indexes| ==> PassesAt(t, k + i, indexes[i])
    decreases |indexes|
  {
    if indexes != [] {
      var rest := indexes[1..];
      CheckedFromAccepts(t, k + 1, rest);
      assert CheckedFrom(t, k, indexes).None? <==> PassesAt(t, k, indexes[0]) && CheckedFrom(t, k + 1, rest).None?;
      forall i | 1 <= i < |indexes|
        ensures PassesAt(t, k + i, indexes[i]) == PassesAt(t, (k + 1) + (i - 1), rest[i - 1])
      {
        assert indexes[i] == rest[i - 1];
      }
    }
  }

  /** As written, a path is accepted exactly when each index `i` lies within
      the bounds of level `CheckedLevel(i, depth)`, which is level `i - 1` (not
      level `i`) for every `i` from 1 up to the innermost collection. */
  lemma AsWrittenChecksLevelBefore(t: ParamType, indexes: seq<string>)
    requires t.CollectionType?
    ensures ValidateParents(t, indexes).None? <==>
      forall i :: 0 <= i < |indexes| ==> PassesAt(t, i, indexes[i])
  {
    assert CursorsAfter(t, 0) == Cursors(None, None);
    ValidateFromIsCheckedFrom(t, 0, indexes);
    CheckedFromAccepts(t, 0, indexes);
  }

  /** The corrected check: index `i` must address level `i`, which must be a
      collection whose `maxSize` exceeds the index. */
  function ValidateIndexesFrom(t: ParamType, k: nat, indexes: seq<string>): (r: Option<IndexFault>)
    ensures r.None? <==>
      forall i :: 0 <= i < |indexes| ==> IndexFits(Level(t, k + i), indexes[i])
    decreases |indexes|
  {
    if indexes == [] then None
    else
      var level := Level(t, k);
      assert forall i :: 1 <= i < |indexes| ==> indexes[i] == indexes[1..][i - 1] && k + i == (k + 1) + (i - 1);
      if !level.CollectionType? then Some(TooDeep(k))
      else match Text.ParseInt(indexes[0])
        case None => Some(Crash)
        case Some(v) =>
          if level.maxSize.None? then Some(Crash)
          else if v < 0 || v >= level.maxSize.value then Some(InvalidIndex(v))
          else ValidateIndexesFrom(t, k + 1, indexes[1..])
  }

  /** Index text `s` addresses an existing slot of collection level `level`. */
  predicate IndexFits(level: ParamType, s: string) {
    level.CollectionType? && level.maxSize.Some? && Text.ParseInt(s).Some?
    && 0 <= Text.ParseInt(s).value < level.maxSize.value
  }

  function ValidateIndexes(t: ParamType, indexes: seq<string>): (r: Option<IndexFault>)
    ensures r.None? <==>
      |indexes| <= Depth(t)
      && forall i :: 0 <= i < |indexes| ==> IndexFits(Level(t, i), indexes[i])
  {
    var r := ValidateIndexesFrom(t, 0, indexes);
    assert |indexes| > Depth(t) ==> !IndexFits(Level(t, 0 + Depth(t)), indexes[Depth(t)]);
    r
  }

  /** The outer collection allows 10 items, each a collection of at most 2. */
  const Nested: ParamType := CollectionType(None, Some(10), CollectionType(None, Some(2), IntegerType([])))

  /** Path `0/5` names a sixth item of a two-item inner collection: the code as
      written accepts it (index 5 is compared with the outer bound 10), the
      corrected check refuses it. */
  lemma OutOfBoundsInnerIndexAccepted()
    ensures ValidateParents(Nested, ["0", "5"]).None?
    ensures ValidateIndexes(Nested, ["0", "5"]) == Some(InvalidIndex(5))
  {
    assert Text.ParseInt("0") == Some(0);
    assert Text.ParseInt("5") == Some(5);
  }
}
