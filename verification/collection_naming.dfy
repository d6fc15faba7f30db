/**
 * The naming rules of `CollectionType`: slash paths become bracket names
 * (`input/0/4` becomes `input[0][4]`), the n-th number of a name is found by
 * digit runs, and a collection's size is kept in an `array.yml` file reading
 * `size: n`, which `TaskProvisioningService.prepareStreaming` bumps by one for
 * every streamed item.
 */
module CollectionNaming {
  import opened Wrappers
  import Text

  /** Each part wrapped in brackets, in order. */
  function Bracketed(parts: seq<string>): (r: string)
    ensures parts == [] <==> r == ""
    ensures parts != [] ==> |r| >= |parts[0]| + 2 && r[..|parts[0]| + 2] == "[" + parts[0] + "]"
  {
    if parts == [] then ""
    else "[" + parts[0] + "]" + Bracketed(parts[1..])
  }

  /** Bracketing distributes over concatenation of part lists. */
  lemma {:induction false} BracketedAppend(a: seq<string>, b: seq<string>)
    ensures Bracketed(a + b) == Bracketed(a) + Bracketed(b)
    decreases |a|
  {
    if a != [] {
      assert (a + b)[1..] == a[1..] + b;
      BracketedAppend(a[1..], b);
    } else {
      assert a + b == b;
    }
  }

  /** `transform(String[])`: "" for no parts, else the first part followed by
      the others in brackets. */
  function TransformParts(indexes: seq<string>): (r: string)
    ensures indexes == [] ==> r == ""
    ensures indexes != [] ==> r == indexes[0] + Bracketed(indexes[1..])
  {
    if indexes == [] then "" else indexes[0] + Bracketed(indexes[1..])
  }

  /** `transform(String)`: unchanged without a '/', else the text before the
      first '/' followed by each piece of the rest (Java `split`) in brackets. */
  function Transform(input: string): (r: string)
    ensures Text.IndexOf(input, "/") < 0 ==> r == input
    ensures Text.IndexOf(input, "/") >= 0 ==> Text.StartsWith(r, input[..Text.IndexOf(input, "/")])
  {
    var i := Text.IndexOf(input, "/");
    if i < 0 then input
    else
      var r := input[..i] + Bracketed(Text.JavaSplit(input[i + 1..], "/"));
      assert r[..i] == input[..i];
      r
  }

  /** No piece is empty: no leading, trailing or doubled '/'. */
  predicate NoEmptyPiece(pieces: seq<string>) {
    forall k :: 0 <= k < |pieces| ==> pieces[k] != ""
  }

  /** Java's `split` drops nothing from a split without empty pieces. */
  lemma NoEmptyKeepsSplit(s: string)
    requires NoEmptyPiece(Text.RawSplit(s, "/"))
    ensures Text.JavaSplit(s, "/") == Text.RawSplit(s, "/")
  {
    var r := Text.RawSplit(s, "/");
    if Text.IndexOf(s, "/") >= 0 {
      assert r[|r| - 1] != "";
    }
  }

  /** When no piece between the slashes is empty, the two forms of `transform`
      agree: the string form equals the array form applied to its split. */
  lemma TransformAgrees(input: string)
    requires NoEmptyPiece(Text.RawSplit(input, "/"))
    ensures Transform(input) == TransformParts(Text.JavaSplit(input, "/"))
  {
    var i := Text.IndexOf(input, "/");
    NoEmptyKeepsSplit(input);
    if i >= 0 {
      var rest := input[i + 1..];
      var tail := Text.RawSplit(rest, "/");
      var all := Text.RawSplit(input, "/");
      assert all == [input[..i]] + tail;
      assert all[1..] == tail;
      assert NoEmptyPiece(tail) by {
        forall k | 0 <= k < |tail| ensures tail[k] != "" {
          assert tail[k] == all[k + 1];
        }
      }
      NoEmptyKeepsSplit(rest);
    }
  }

  /** Splitting at the first '/' of a string whose prefix has none. */
  lemma SplitAtFirstSlash(p: string, rest: string)
    requires '/' !in p
    ensures Text.IndexOf(p + "/" + rest, "/") == |p|
    ensures Text.RawSplit(p + "/" + rest, "/") == [p] + Text.RawSplit(rest, "/")
  {
    var s := p + "/" + rest;
    Text.IndexOfCharAfter(p, '/', rest);
    assert s[..|p|] == p;
    assert s[|p| + 1..] == rest;
  }

  lemma SplitTwo(a: string, b: string)
    requires '/' !in a && '/' !in b && b != ""
    ensures Text.JavaSplit(a + "/" + b, "/") == [a, b]
  {
    SplitAtFirstSlash(a, b);
    Text.IndexOfCharAbsent(b, '/');
    assert Text.RawSplit(b, "/") == [b];
  }

  /** A parameter name with two indexes, `name/a/b`, becomes `name[a][b]`. */
  lemma TransformTwoIndexes(name: string, a: string, b: string)
    requires '/' !in name && '/' !in a && '/' !in b && b != ""
    ensures Transform(name + "/" + (a + "/" + b)) == name + ("[" + a + "]" + ("[" + b + "]"))
  {
    var rest := a + "/" + b;
    var s := name + "/" + rest;
    SplitAtFirstSlash(name, rest);
    assert s[..|name|] == name;
    assert s[|name| + 1..] == rest;
    SplitTwo(a, b);
    assert Bracketed([a, b]) == "[" + a + "]" + ("[" + b + "]") by {
      assert [a, b][1..] == [b];
      assert Bracketed([b]) == "[" + b + "]" + "";
    }
  }

  // ---------------------------------------------------------------- digit runs

  /** The maximal runs of ASCII digits in `s`, in order (`\d+` found repeatedly);
      `cur` is the run being read. */
  function RunsFrom(s: string, cur: string): (r: seq<string>)
    requires Text.AllDigits(cur)
    ensures forall k :: 0 <= k < |r| ==> r[k] != "" && Text.AllDigits(r[k])
    ensures DigitsIn(r) == |cur| + CountDigits(s)
    decreases |s|
  {
    if s == [] then (if cur == [] then [] else [cur])
    else if Text.IsDigit(s[0]) then
      assert Text.AllDigits(cur + [s[0]]) by {
        assert forall j :: 0 <= j < |cur| ==> (cur + [s[0]])[j] == cur[j];
      }
      RunsFrom(s[1..], cur + [s[0]])
    else if cur == [] then RunsFrom(s[1..], [])
    else
      var rest := RunsFrom(s[1..], []);
      assert ([cur] + rest)[1..] == rest;
      [cur] + rest
  }

  function DigitRuns(s: string): (r: seq<string>)
    ensures forall k :: 0 <= k < |r| ==> r[k] != "" && Text.AllDigits(r[k])
    ensures DigitsIn(r) == CountDigits(s)
  {
    RunsFrom(s, [])
  }

  /** How many characters of `s` are digits. */
  function CountDigits(s: string): nat {
    if s == [] then 0 else (if Text.IsDigit(s[0]) then 1 else 0) + CountDigits(s[1..])
  }

  /** The total length of the runs. */
  function DigitsIn(runs: seq<string>): nat {
    if runs == [] then 0 else |runs[0]| + DigitsIn(runs[1..])
  }

  /** How many positions of `s` start a run: a digit not preceded by a digit;
      `afterDigit` says whether the character before `s` was one. */
  function RunStarts(s: string, afterDigit: bool): nat
    decreases |s|
  {
    if s == [] then 0
    else (if Text.IsDigit(s[0]) && !afterDigit then 1 else 0) + RunStarts(s[1..], Text.IsDigit(s[0]))
  }

  /** There is one run per run start. */
  lemma {:induction false} RunsFromCount(s: string, cur: string)
    requires Text.AllDigits(cur)
    ensures |RunsFrom(s, cur)| == (if cur == [] then 0 else 1) + RunStarts(s, cur != [])
    decreases |s|
  {
    if s != [] {
      if Text.IsDigit(s[0]) {
        assert Text.AllDigits(cur + [s[0]]) by {
          assert forall j :: 0 <= j < |cur| ==> (cur + [s[0]])[j] == cur[j];
        }
        RunsFromCount(s[1..], cur + [s[0]]);
      } else {
        RunsFromCount(s[1..], []);
      }
    }
  }

  lemma DigitRunsCount(s: string)
    ensures |DigitRuns(s)| == RunStarts(s, false)
  {
    RunsFromCount(s, []);
  }

  /** `getNumberAtPosition`: the position-th digit run (counting from 1), or
      None (Java null) for a position below 1 or beyond the last run. */
  function NumberAtPosition(input: string, position: int): (r: Option<string>)
    ensures r.None? <==> position <= 0 || position > |DigitRuns(input)|
    ensures r.Some? ==> (r.value == DigitRuns(input)[position - 1]
      && r.value != "" && Text.AllDigits(r.value))
  {
    var runs := DigitRuns(input);
    if position > 0 && position <= |runs| then Some(runs[position - 1]) else None
  }

  // ---------------------------------------------------------------- array.yml

  /** The content of an `array.yml` for a collection of `size` items. */
  function ArrayYml(size: int): string {
    "size: " + Text.IntToString(size)
  }

  /** The path of the `array.yml` of the collection holding the item at
      `indexes`, relative to the run's input storage. The item's own index is
      left out. An empty index array makes Java's `limit(-1)` throw. */
  function ArrayYmlPath(parameterName: string, indexes: seq<string>): (r: Option<string>)
    ensures r.None? <==> indexes == []
    ensures r.Some? && |indexes| == 1 ==> r.value == parameterName + "/" + "array.yml"
    ensures r.Some? && |indexes| > 1 ==>
      r.value == parameterName + "/" + Text.Join(indexes[..|indexes| - 1], "/") + "/" + "array.yml"
  {
    if indexes == [] then None
    else
      var position := indexes[..|indexes| - 1];
      Some(parameterName + "/" + (if |position| > 0 then Text.Join(position, "/") + "/" else "") + "array.yml")
  }

  /** The size `prepareStreaming` reads back: the trimmed text after the first
      ':' parsed as an `int` (None is the NumberFormatException). */
  function ReadSize(content: string): Option<int> {
    var colon := Text.IndexOf(content, ":");
    Text.ParseInt(Text.Trim(content[colon + 1..]))
  }

  /** `prepareStreaming`'s metadata update: an existing `array.yml` gets its size
      plus one (in `int` arithmetic), a missing one is created with size 1. */
  function StreamArrayYml(existing: Option<string>): (r: Option<string>)
    ensures existing.None? ==> r == Some(ArrayYml(1))
  {
    match existing
    case None => Some(ArrayYml(1))
    case Some(content) =>
      match ReadSize(content)
      case None => None
      case Some(n) => Some(ArrayYml(Text.Int32(n + 1)))
  }

  lemma TrimSigned(n: int)
    ensures Text.Trim(" " + Text.IntToString(n)) == Text.IntToString(n)
  {
    var s := Text.IntToString(n);
    assert (" " + s)[1..] == s;
    if n < 0 {
      assert s[|s| - 1] == Text.NatToString(-n)[|Text.NatToString(-n)| - 1];
    }
    assert Text.IsDigit(s[|s| - 1]);
    assert s[0] == '-' || Text.IsDigit(s[0]);
  }

  /** The size written into `array.yml` is the size read back from it. */
  lemma ReadSizeOfArrayYml(n: int)
    requires Text.INT_MIN <= n <= Text.INT_MAX
    ensures ReadSize(ArrayYml(n)) == Some(n)
  {
    var s := Text.IntToString(n);
    assert ArrayYml(n) == "size" + [':'] + (" " + s);
    Text.IndexOfCharAfter("size", ':', " " + s);
    assert ArrayYml(n)[5..] == " " + s;
    TrimSigned(n);
    Text.ParseSignedIntToString(n, Text.INT_MIN, Text.INT_MAX);
  }

  /** Streaming an item into a collection whose `array.yml` reads `size: n`
      rewrites it to `size: n+1`. */
  lemma StreamBumpsSize(n: int)
    requires Text.INT_MIN <= n < Text.INT_MAX
    ensures StreamArrayYml(Some(ArrayYml(n))) == Some(ArrayYml(n + 1))
  {
    ReadSizeOfArrayYml(n);
  }

  /** The `array.yml` after `k` streamed items, starting from none. */
  function StreamTimes(k: nat): Option<string> {
    if k == 0 then None else StreamArrayYml(StreamTimes(k - 1))
  }

  /** Streaming `k >= 1` items into an empty collection leaves `size: k`. */
  lemma {:induction false} StreamTimesCounts(k: nat)
    requires 1 <= k <= Text.INT_MAX
    ensures StreamTimes(k) == Some(ArrayYml(k))
  {
    if k > 1 {
      StreamTimesCounts(k - 1);
      StreamBumpsSize(k - 1);
    }
  }
}
