/**
 * Alignment checks between two collection parameters that a task descriptor
 * declares as matching: the same size, and for every item of the matching
 * collection exactly one item of the matched one ending with the same last
 * bracket group (`[3]` in `input[0][3]`).
 */
module CollectionMatching {
  import opened Wrappers
  import Text
  import opened ErrorCodes

  /** When a descriptor match is checked. */
  datatype CheckTime = BEFORE_EXECUTION | AFTER_EXECUTION | UNDEFINED

  /** A declared match between two parameters, by name. */
  datatype Match = Match(matching: string, matched: string, checkTime: CheckTime)

  /** The persisted record of one collection of a run: its (nullable) size and
      the bracketed collection index of each stored item. */
  datatype Collection = Collection(size: Option<int>, indexes: seq<string>)

  /** A check that stops: with a coded error, or with a runtime failure (a
      missing record dereferenced, an index without '[' cut with `substring(-1)`). */
  datatype MatchFault = Coded(code: ErrorCode) | Crash

  /** The text of an index from its last '[' on. */
  function LastBracket(index: string): (r: Option<string>)
    ensures r.Some? <==> '[' in index
    ensures r.Some? ==> Text.EndsWith(index, r.value) && |r.value| > 0
                        && r.value[0] == '[' && '[' !in r.value[1..]
  {
    var k := Text.LastIndexOfChar(index, '[');
    if k < 0 then None
    else
      assert index[k..][1..] == index[k + 1..];
      Some(index[k..])
  }

  /** How many of `items` end with `suffix`. */
  function CountEnding(items: seq<string>, suffix: string): (n: nat)
    ensures n <= |items|
    ensures n == 0 <==> forall i :: 0 <= i < |items| ==> !Text.EndsWith(items[i], suffix)
  {
    if items == [] then 0
    else
      var rest := CountEnding(items[1..], suffix);
      assert forall i :: 1 <= i < |items| ==> items[i] == items[1..][i - 1];
      (if Text.EndsWith(items[0], suffix) then 1 else 0) + rest
  }

  /** Item `index` of the matching collection has exactly one partner in `matched`. */
  predicate ItemAligned(index: string, matched: Collection) {
    '[' in index && CountEnding(matched.indexes, LastBracket(index).value) == 1
  }

  /** Every item of `matching` has exactly one partner in `matched`. */
  predicate Aligned(matching: Collection, matched: Collection) {
    forall i :: 0 <= i < |matching.indexes| ==> ItemAligned(matching.indexes[i], matched)
  }

  /** A declared match holds in `store`: both records exist, sizes agree, indexes align. */
  predicate Holds(m: Match, store: map<string, Collection>) {
    m.matching in store && m.matched in store
    && store[m.matching].size == store[m.matched].size
    && Aligned(store[m.matching], store[m.matched])
  }

  /** The index loop of `checkBeforeExecutionMatches`: the first item without a
      unique partner stops the check. */
  function CheckItems(indexes: seq<string>, matched: Collection): (r: Option<MatchFault>)
    ensures r.None? <==> forall i :: 0 <= i < |indexes| ==> ItemAligned(indexes[i], matched)
    ensures r.Some? ==> r.value == Crash || r.value == Coded(INTERNAL_NOT_MATCHING_NOT_ALIGNED_INDEXES)
  {
    if indexes == [] then None
    else if '[' !in indexes[0] then Some(Crash)
    else if CountEnding(matched.indexes, LastBracket(indexes[0]).value) != 1 then
      Some(Coded(INTERNAL_NOT_MATCHING_NOT_ALIGNED_INDEXES))
    else
      assert forall i :: 1 <= i < |indexes| ==> indexes[i] == indexes[1..][i - 1];
      CheckItems(indexes[1..], matched)
  }

  /** `checkBeforeExecutionMatches`: the before-execution matches, in order,
      against the run's input collections; the first violation stops the run. */
  function CheckBefore(matches: seq<Match>, store: map<string, Collection>): (r: Option<MatchFault>)
    ensures r.None? <==>
      forall k :: 0 <= k < |matches| && matches[k].checkTime == BEFORE_EXECUTION ==> Holds(matches[k], store)
    ensures r.Some? ==> r.value in {Crash, Coded(INTERNAL_NOT_MATCHING_DIFF_SIZE),
                                    Coded(INTERNAL_NOT_MATCHING_NOT_ALIGNED_INDEXES)}
  {
    if matches == [] then None
    else
      var m := matches[0];
      assert forall k :: 1 <= k < |matches| ==> matches[k] == matches[1..][k - 1];
      if m.checkTime != BEFORE_EXECUTION then CheckBefore(matches[1..], store)
      else if m.matching !in store || m.matched !in store then Some(Crash)
      else if store[m.matching].size != store[m.matched].size then
        Some(Coded(INTERNAL_NOT_MATCHING_DIFF_SIZE))
      else
        match CheckItems(store[m.matching].indexes, store[m.matched])
        case Some(f) => Some(f)
        case None => CheckBefore(matches[1..], store)
  }

  /** The index loop of `checkAfterExecutionMatches`: one error per item
      without a unique partner, all collected. */
  function CollectItems(name: string, indexes: seq<string>, matched: Collection)
    : (r: Result<seq<ParameterError>, MatchFault>)
    ensures r.Success? && r.value == [] <==>
      forall i :: 0 <= i < |indexes| ==> ItemAligned(indexes[i], matched)
    ensures r.Success? ==>
      forall e :: e in r.value ==> e == ParameterError(INTERNAL_NOT_MATCHING_NOT_ALIGNED_INDEXES, name)
    ensures r.Failure? ==> r.error == Crash
  {
    if indexes == [] then Success([])
    else if '[' !in indexes[0] then Failure(Crash)
    else
      assert forall i :: 1 <= i < |indexes| ==> indexes[i] == indexes[1..][i - 1];
      var rest :- CollectItems(name, indexes[1..], matched);
      if CountEnding(matched.indexes, LastBracket(indexes[0]).value) != 1 then
        Success([ParameterError(INTERNAL_NOT_MATCHING_NOT_ALIGNED_INDEXES, name)] + rest)
      else Success(rest)
  }

  /** `checkAfterExecutionMatches`: every violation of every after-execution
      match is collected, each tied to the matching parameter's name. */
  function CheckAfter(matches: seq<Match>, store: map<string, Collection>)
    : (r: Result<seq<ParameterError>, MatchFault>)
    ensures r.Success? && r.value == [] <==>
      forall k :: 0 <= k < |matches| && matches[k].checkTime == AFTER_EXECUTION ==> Holds(matches[k], store)
    ensures r.Success? ==> forall e :: e in r.value ==>
      e.code in {INTERNAL_NOT_MATCHING_DIFF_SIZE, INTERNAL_NOT_MATCHING_NOT_ALIGNED_INDEXES}
    ensures r.Failure? ==> r.error == Crash
  {
    if matches == [] then Success([])
    else
      var m := matches[0];
      assert forall k :: 1 <= k < |matches| ==> matches[k] == matches[1..][k - 1];
      if m.checkTime != AFTER_EXECUTION then CheckAfter(matches[1..], store)
      else if m.matching !in store || m.matched !in store then Failure(Crash)
      else
        var sizeErrors := if store[m.matching].size != store[m.matched].size
                          then [ParameterError(INTERNAL_NOT_MATCHING_DIFF_SIZE, m.matching)] else [];
        var itemErrors :- CollectItems(m.matching, store[m.matching].indexes, store[m.matched]);
        var rest :- CheckAfter(matches[1..], store);
        Success(sizeErrors + itemErrors + rest)
  }

  /** The two checks accept the same runs: the before-execution check passes
      exactly when the after-execution check, applied to the same matches
      re-timed, completes and reports nothing. */
  lemma {:induction false} BeforeAndAfterAgree(matches: seq<Match>, store: map<string, Collection>)
    requires forall k :: 0 <= k < |matches| ==> matches[k].checkTime == BEFORE_EXECUTION
    ensures CheckBefore(matches, store).None? <==>
      CheckAfter(Retimed(matches), store) == Success([])
  {
    var after := Retimed(matches);
    assert forall k :: 0 <= k < |after| ==>
      (after[k].checkTime == AFTER_EXECUTION && Holds(after[k], store) == Holds(matches[k], store));
  }

  /** The same matches, checked after execution. */
  function Retimed(matches: seq<Match>): (r: seq<Match>)
    ensures |r| == |matches|
    ensures forall k :: 0 <= k < |r| ==>
      r[k] == Match(matches[k].matching, matches[k].matched, AFTER_EXECUTION)
  {
    seq(|matches|, k requires 0 <= k < |matches| => Match(matches[k].matching, matches[k].matched, AFTER_EXECUTION))
  }
}
