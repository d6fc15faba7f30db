/**
 * The index-path check of `TaskRunController`'s four `/indexes` endpoints: the
 * query value must match `^(0(/[0-9]+)*|[1-9][0-9]*(/[0-9]+)*)$` and is then
 * split on "/" into the index array handed to the service.
 *
 * `MatchesPattern` runs the expression as a finite automaton, one character at
 * a time; `PatternAcceptsExactly` proves it equal to a description in terms of
 * the pieces between the slashes.
 */
module IndexPattern {
  import opened Wrappers
  import Text
  import opened ErrorCodes

  /** Where the automaton stands: before anything, after a leading "0", inside
      a first index that started with 1-9, just after a '/', inside a later
      index, or past any possible match. */
  datatype PathState = Start | Zero | First | Slash | Segment | Dead

  function Next(q: PathState, c: char): PathState {
    match q
    case Start => if c == '0' then Zero else if '1' <= c <= '9' then First else Dead
    case Zero => if c == '/' then Slash else Dead
    case First => if Text.IsDigit(c) then First else if c == '/' then Slash else Dead
    case Slash => if Text.IsDigit(c) then Segment else Dead
    case Segment => if Text.IsDigit(c) then Segment else if c == '/' then Slash else Dead
    case Dead => Dead
  }

  function RunFrom(q: PathState, s: string): PathState
    decreases |s|
  {
    if s == [] then q else RunFrom(Next(q, s[0]), s[1..])
  }

  predicate Accepting(q: PathState) {
    q == Zero || q == First || q == Segment
  }

  /** `Pattern.matches` with the index-path expression. */
  predicate MatchesPattern(s: string) {
    Accepting(RunFrom(Start, s))
  }

  /** Every piece after the first is a non-empty run of digits. */
  predicate LaterPiecesOk(pieces: seq<string>) {
    forall i :: 1 <= i < |pieces| ==> pieces[i] != "" && Text.AllDigits(pieces[i])
  }

  /** The first index is "0" or a digit run without a leading zero. */
  predicate FirstPieceOk(p: string) {
    p == "0" || (p != "" && Text.AllDigits(p) && p[0] != '0')
  }

  /** The reference description: the pieces between the slashes, empty ones
      included, are all non-empty digit runs and only the first is barred from
      a leading zero. */
  predicate ValidIndexPath(s: string) {
    var pieces := Text.RawSplit(s, "/");
    FirstPieceOk(pieces[0]) && LaterPiecesOk(pieces)
  }

  lemma SplitOnSlash(w: string)
    ensures Text.RawSplit("/" + w, "/") == [""] + Text.RawSplit(w, "/")
  {
    assert ("/" + w)[..1] == "/";
    assert ("/" + w)[1..] == w;
  }

  lemma SplitOnOther(c: char, w: string)
    requires c != '/'
    ensures var p := Text.RawSplit(w, "/");
      Text.RawSplit([c] + w, "/") == [[c] + p[0]] + p[1..]
  {
    var s := [c] + w;
    assert s[1..] == w;
    assert s[..1] != "/";
    var i := Text.IndexOf(w, "/");
    if i >= 0 {
      assert Text.IndexOf(s, "/") == i + 1;
      assert s[..i + 1] == [c] + w[..i];
      assert s[i + 2..] == w[i + 1..];
    } else {
      assert Text.IndexOf(s, "/") == -1;
    }
  }

  lemma AllDigitsCons(c: char, p: string)
    ensures Text.AllDigits([c] + p) <==> Text.IsDigit(c) && Text.AllDigits(p)
  {
    assert ([c] + p)[0] == c;
    assert forall i :: 0 <= i < |p| ==> ([c] + p)[i + 1] == p[i];
  }

  lemma LaterPiecesAfterSlash(p: seq<string>)
    requires |p| >= 1
    ensures LaterPiecesOk([""] + p) <==> p[0] != "" && Text.AllDigits(p[0]) && LaterPiecesOk(p)
  {
    assert forall i :: 0 <= i < |p| ==> ([""] + p)[i + 1] == p[i];
  }

  lemma LaterPiecesSameTail(x: string, p: seq<string>)
    requires |p| >= 1
    ensures LaterPiecesOk([x] + p[1..]) <==> LaterPiecesOk(p)
  {
    assert forall i :: 1 <= i < |p| ==> ([x] + p[1..])[i] == p[i];
  }

  /** What remains to be read from each state, in terms of the pieces of the
      rest of the input. */
  predicate AcceptsFrom(q: PathState, w: string) {
    var p := Text.RawSplit(w, "/");
    match q
    case Start => FirstPieceOk(p[0]) && LaterPiecesOk(p)
    case Zero => p[0] == "" && LaterPiecesOk(p)
    case First | Segment => Text.AllDigits(p[0]) && LaterPiecesOk(p)
    case Slash => p[0] != "" && Text.AllDigits(p[0]) && LaterPiecesOk(p)
    case Dead => false
  }

  lemma {:induction false} RunFromAccepts(q: PathState, w: string)
    ensures Accepting(RunFrom(q, w)) <==> AcceptsFrom(q, w)
    decreases |w|
  {
    if w == [] {
      assert Text.RawSplit(w, "/") == [""];
    } else {
      var c := w[0];
      var rest := w[1..];
      assert w == [c] + rest;
      RunFromAccepts(Next(q, c), rest);
      var p := Text.RawSplit(rest, "/");
      if c == '/' {
        SplitOnSlash(rest);
        LaterPiecesAfterSlash(p);
      } else {
        SplitOnOther(c, rest);
        AllDigitsCons(c, p[0]);
        LaterPiecesSameTail([c] + p[0], p);
        if q == Start && c == '0' {
          assert ([c] + p[0] == "0") <==> p[0] == "";
          assert ([c] + p[0])[0] == '0';
        }
        if q == Start && '1' <= c <= '9' {
          assert ([c] + p[0])[0] == c;
        }
      }
    }
  }

  /** The automaton accepts exactly the reference description. */
  lemma PatternAcceptsExactly(s: string)
    ensures MatchesPattern(s) <==> ValidIndexPath(s)
  {
    RunFromAccepts(Start, s);
  }

  /** On an accepted path Java's `split`, which drops trailing empty pieces,
      keeps every piece. */
  lemma SplitKeepsAllPieces(s: string)
    requires ValidIndexPath(s)
    ensures Text.JavaSplit(s, "/") == Text.RawSplit(s, "/")
  {
    var pieces := Text.RawSplit(s, "/");
    if Text.IndexOf(s, "/") < 0 {
      assert pieces == [s];
    } else {
      assert pieces[|pieces| - 1] != "";
    }
  }

  /** The endpoints' guard: a value that does not match is refused with
      INVALID_INDEXES_PATTERN for the parameter before any service call, and an
      accepted value is split into a non-empty array of non-empty digit runs. */
  function CheckIndexes(parameterName: string, value: string): (r: Result<seq<string>, ParameterError>)
    ensures r.Failure? <==> !MatchesPattern(value)
    ensures r.Failure? ==> r.error == ParameterError(INTERNAL_INVALID_INDEXES_PATTERN, parameterName)
    ensures r.Success? ==> (r.value == Text.RawSplit(value, "/") && |r.value| >= 1
      && forall i :: 0 <= i < |r.value| ==> r.value[i] != "" && Text.AllDigits(r.value[i]))
  {
    if !MatchesPattern(value) then Failure(ParameterError(INTERNAL_INVALID_INDEXES_PATTERN, parameterName))
    else
      PatternAcceptsExactly(value);
      SplitKeepsAllPieces(value);
      Success(Text.JavaSplit(value, "/"))
  }

  /** Values from the controller's contract: only the first index is barred
      from a leading zero. */
  lemma PatternExamples()
    ensures MatchesPattern("0") && MatchesPattern("3/0/12") && MatchesPattern("1/007")
    ensures !MatchesPattern("") && !MatchesPattern("01") && !MatchesPattern("1/") && !MatchesPattern("1//2")
  {
  }
}
