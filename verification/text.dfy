/**
 * String operations of the Java, Python and JavaScript standard libraries that the
 * modelled code relies on, written out over `seq<char>`: substring search, the two
 * flavours of `split`, decimal rendering and parsing, ASCII case mapping and trimming.
 */
module Text {
  import opened Wrappers

  /** `t` occurs in `s` starting at index `i`. */
  predicate OccursAt(s: string, t: string, i: int) {
    0 <= i && i + |t| <= |s| && s[i..i + |t|] == t
  }

  predicate StartsWith(s: string, p: string) {
    |p| <= |s| && s[..|p|] == p
  }

  predicate EndsWith(s: string, p: string) {
    |p| <= |s| && s[|s| - |p|..] == p
  }

  /** A concatenation starts with its left part and ends with its right one. */
  lemma ConcatAffixes(a: string, b: string)
    ensures StartsWith(a + b, a) && EndsWith(a + b, b)
  {
    assert (a + b)[..|a|] == a;
    assert (a + b)[|a|..] == b;
  }

  /** A suffix of a suffix is a suffix. */
  lemma EndsWithTrans(s: string, t: string, u: string)
    requires EndsWith(s, t) && EndsWith(t, u)
    ensures EndsWith(s, u)
  {
    assert s[|s| - |u|..] == s[|s| - |t|..][|t| - |u|..];
  }

  /** A prefix of a prefix is a prefix. */
  lemma StartsWithTrans(s: string, t: string, u: string)
    requires StartsWith(s, t) && StartsWith(t, u)
    ensures StartsWith(s, u)
  {
    assert s[..|u|] == s[..|t|][..|u|];
  }

  /** `String.indexOf` / `str.find`: the first occurrence of `t`, or -1. */
  function IndexOf(s: string, t: string): (r: int)
    ensures -1 <= r <= |s|
    ensures r >= 0 ==> OccursAt(s, t, r)
    ensures forall j :: 0 <= j && (r < 0 || j < r) ==> !OccursAt(s, t, j)
    decreases |s|
  {
    if |t| > |s| then -1
    else if s[..|t|] == t then 0
    else
      var k := IndexOf(s[1..], t);
      assert forall j :: 1 <= j ==> (OccursAt(s, t, j) <==> OccursAt(s[1..], t, j - 1)) by {
        forall j | 1 <= j
          ensures OccursAt(s, t, j) <==> OccursAt(s[1..], t, j - 1)
        {
          if j + |t| <= |s| {
            assert s[1..][j - 1..j - 1 + |t|] == s[j..j + |t|];
          }
        }
      }
      if k < 0 then -1 else k + 1
  }

  /** The first occurrence of a character is found right after a prefix free of it. */
  lemma {:induction false} IndexOfCharAfter(p: string, c: char, rest: string)
    requires c !in p
    ensures IndexOf(p + [c] + rest, [c]) == |p|
    decreases |p|
  {
    var s := p + [c] + rest;
    if p == [] {
      assert s[..1] == [c];
    } else {
      assert s[..1] != [c] by { assert s[0] == p[0]; }
      assert s[1..] == p[1..] + [c] + rest;
      IndexOfCharAfter(p[1..], c, rest);
    }
  }

  /** A string free of a character has no occurrence of it. */
  lemma {:induction false} IndexOfCharAbsent(s: string, c: char)
    requires c !in s
    ensures IndexOf(s, [c]) == -1
    decreases |s|
  {
    if s != [] {
      assert s[..1] != [c] by { assert s[0] == s[..1][0]; }
      IndexOfCharAbsent(s[1..], c);
    }
  }

  predicate Contains(s: string, t: string) {
    IndexOf(s, t) >= 0
  }

  /** `String.lastIndexOf(char)`: the last index holding `c`, or -1. */
  function LastIndexOfChar(s: string, c: char): (r: int)
    ensures -1 <= r < |s|
    ensures r >= 0 ==> s[r] == c
    ensures forall j :: r < j < |s| ==> s[j] != c
  {
    if |s| == 0 then -1
    else if s[|s| - 1] == c then |s| - 1
    else LastIndexOfChar(s[..|s| - 1], c)
  }

  /**
   * Every piece between the non-overlapping occurrences of `sep`, scanning from the
   * left, trailing empty pieces included. This is `split` in JavaScript and Python.
   */
  function RawSplit(s: string, sep: string): (r: seq<string>)
    requires |sep| > 0
    ensures |r| >= 1
    decreases |s|
  {
    var i := IndexOf(s, sep);
    if i < 0 then [s] else [s[..i]] + RawSplit(s[i + |sep|..], sep)
  }

  /** The inverse of `RawSplit`: the pieces glued back with `sep` in between. */
  function Join(parts: seq<string>, sep: string): string
  {
    if |parts| == 0 then ""
    else if |parts| == 1 then parts[0]
    else parts[0] + sep + Join(parts[1..], sep)
  }

  function StripTrailingEmpty(r: seq<string>): (t: seq<string>)
    ensures t <= r
    ensures |t| > 0 ==> t[|t| - 1] != ""
    ensures forall k :: |t| <= k < |r| ==> r[k] == ""
  {
    if |r| > 0 && r[|r| - 1] == "" then StripTrailingEmpty(r[..|r| - 1]) else r
  }

  /**
   * Java's `String.split` with a literal separator: a string without the separator
   * splits into itself (so `""` gives `[""]`); otherwise trailing empty pieces are
   * dropped, so `"/"` split on `"/"` gives the empty array.
   */
  function JavaSplit(s: string, sep: string): (r: seq<string>)
    requires |sep| > 0
    ensures IndexOf(s, sep) < 0 ==> r == [s]
    ensures IndexOf(s, sep) >= 0 ==> r <= RawSplit(s, sep) && (|r| > 0 ==> r[|r| - 1] != "")
  {
    if IndexOf(s, sep) < 0 then [s] else StripTrailingEmpty(RawSplit(s, sep))
  }

  lemma {:induction false} JoinRawSplit(s: string, sep: string)
    requires |sep| > 0
    ensures Join(RawSplit(s, sep), sep) == s
    decreases |s|
  {
    var i := IndexOf(s, sep);
    if i >= 0 {
      var rest := s[i + |sep|..];
      JoinRawSplit(rest, sep);
      RawSplitFound(s, sep);
      JoinCons(s[..i], RawSplit(rest, sep), sep);
      SplitAround(s, i, |sep|);
    }
  }

  lemma RawSplitFound(s: string, sep: string)
    requires |sep| > 0 && IndexOf(s, sep) >= 0
    ensures var i := IndexOf(s, sep);
      OccursAt(s, sep, i) && RawSplit(s, sep) == [s[..i]] + RawSplit(s[i + |sep|..], sep)
  {
  }

  lemma JoinCons(a: string, tail: seq<string>, sep: string)
    requires |tail| >= 1
    ensures Join([a] + tail, sep) == a + sep + Join(tail, sep)
  {
    assert ([a] + tail)[1..] == tail;
  }

  lemma SplitAround(s: string, i: nat, n: nat)
    requires i + n <= |s|
    ensures s == s[..i] + s[i..i + n] + s[i + n..]
  {
  }

  /** Splitting pieces joined by a one-character separator none of them holds
      gives the pieces back. */
  lemma {:induction false} RawSplitJoin(parts: seq<string>, c: char)
    requires |parts| >= 1
    requires forall k :: 0 <= k < |parts| ==> c !in parts[k]
    ensures RawSplit(Join(parts, [c]), [c]) == parts
    decreases |parts|
  {
    if |parts| == 1 {
      IndexOfCharAbsent(parts[0], c);
    } else {
      var rest := Join(parts[1..], [c]);
      var s := parts[0] + [c] + rest;
      assert Join(parts, [c]) == s;
      IndexOfCharAfter(parts[0], c, rest);
      assert s[..|parts[0]|] == parts[0];
      assert s[|parts[0]| + 1..] == rest;
      assert RawSplit(s, [c]) == [parts[0]] + RawSplit(rest, [c]);
      forall k | 0 <= k < |parts[1..]|
        ensures c !in parts[1..][k]
      {
        assert parts[1..][k] == parts[k + 1];
      }
      RawSplitJoin(parts[1..], c);
      assert parts == [parts[0]] + parts[1..];
    }
  }

  /** A one-character separator never survives inside a piece. */
  lemma {:induction false} RawSplitPiecesFree(s: string, c: char)
    ensures forall k :: 0 <= k < |RawSplit(s, [c])| ==> c !in RawSplit(s, [c])[k]
    decreases |s|
  {
    var i := IndexOf(s, [c]);
    if i < 0 {
      forall j | 0 <= j < |s| ensures s[j] != c {
        assert s[j..j + 1] == [s[j]];
        assert !OccursAt(s, [c], j);
      }
    } else {
      RawSplitPiecesFree(s[i + 1..], c);
      forall j | 0 <= j < i ensures s[..i][j] != c {
        assert s[j..j + 1] == [s[j]];
        assert !OccursAt(s, [c], j);
      }
    }
  }

  // ---------------------------------------------------------------- decimal digits

  predicate IsDigit(c: char) {
    '0' <= c <= '9'
  }

  predicate AllDigits(s: string) {
    forall i :: 0 <= i < |s| ==> IsDigit(s[i])
  }

  function DigitChar(d: nat): (c: char)
    requires d < 10
    ensures IsDigit(c) && c as int - '0' as int == d
  {
    ('0' as int + d) as char
  }

  /** The value of a run of decimal digits, most significant first. */
  function DigitsValue(s: string): nat
    requires AllDigits(s)
  {
    if |s| == 0 then 0
    else DigitsValue(s[..|s| - 1]) * 10 + (s[|s| - 1] as int - '0' as int)
  }

  /** `Long.toString` / `str(n)` for a non-negative number: shortest decimal form. */
  function NatToString(n: nat): (r: string)
    ensures |r| > 0 && AllDigits(r)
    ensures DigitsValue(r) == n
    ensures r[0] == '0' ==> r == "0"
    decreases n
  {
    if n < 10 then [DigitChar(n)]
    else
      var r := NatToString(n / 10) + [DigitChar(n % 10)];
      assert r[..|r| - 1] == NatToString(n / 10);
      r
  }

  /** `Long.toString` / `String.valueOf` / `str(n)` for any integer. */
  function IntToString(n: int): (r: string)
    ensures |r| > 0
    ensures n < 0 <==> r[0] == '-'
  {
    if n < 0 then "-" + NatToString(-n) else NatToString(n)
  }

  const INT_MIN: int := -0x8000_0000
  const INT_MAX: int := 0x7fff_ffff
  const LONG_MIN: int := -0x8000_0000_0000_0000
  const LONG_MAX: int := 0x7fff_ffff_ffff_ffff

  /**
   * Java's `Long.parseLong` / `Integer.parseInt` restricted to ASCII digits: an
   * optional sign, at least one digit, nothing else, and a value inside [lo, hi];
   * None stands for NumberFormatException. Java also reads the decimal digits of
   * other scripts (through `Character.digit`), which this refuses.
   */
  function ParseSigned(s: string, lo: int, hi: int): (r: Option<int>)
    ensures r.Some? ==> lo <= r.value <= hi
    ensures |s| == 0 ==> r.None?
  {
    if |s| == 0 then None
    else
      var body := if s[0] == '-' || s[0] == '+' then s[1..] else s;
      if |body| == 0 || !AllDigits(body) then None
      else
        var v: int := if s[0] == '-' then 0 - DigitsValue(body) else DigitsValue(body);
        if lo <= v <= hi then Some(v) else None
  }

  function ParseLong(s: string): Option<int> {
    ParseSigned(s, LONG_MIN, LONG_MAX)
  }

  function ParseInt(s: string): Option<int> {
    ParseSigned(s, INT_MIN, INT_MAX)
  }

  /** A Java `int` cast or overflowing `int` arithmetic: the value modulo 2^32, in [INT_MIN, INT_MAX]. */
  function Int32(n: int): (r: int)
    ensures INT_MIN <= r <= INT_MAX
    ensures (r - n) % 0x1_0000_0000 == 0
    ensures INT_MIN <= n <= INT_MAX ==> r == n
  {
    var m := n % 0x1_0000_0000;
    if m > INT_MAX then m - 0x1_0000_0000 else m
  }

  /** Parsing the decimal rendering of an in-range number gives the number back. */
  lemma ParseSignedIntToString(n: int, lo: int, hi: int)
    requires lo <= n <= hi
    ensures ParseSigned(IntToString(n), lo, hi) == Some(n)
  {
    var s := IntToString(n);
    if n < 0 {
      assert s[1..] == NatToString(-n);
    } else {
      assert IsDigit(s[0]);
    }
  }

  /** A rendered number never contains a '/' or any other non-digit but the sign. */
  lemma IntToStringIsSignedDigits(n: int)
    ensures var s := IntToString(n); AllDigits(if n < 0 then s[1..] else s)
  {
    if n < 0 {
      assert IntToString(n)[1..] == NatToString(-n);
    }
  }

  // ---------------------------------------------------------------- case and blanks

  function ToUpperChar(c: char): char {
    if 'a' <= c <= 'z' then (c as int - 32) as char else c
  }

  function ToLowerChar(c: char): char {
    if 'A' <= c <= 'Z' then (c as int + 32) as char else c
  }

  function ToUpper(s: string): (r: string)
    ensures |r| == |s| && forall i :: 0 <= i < |s| ==> r[i] == ToUpperChar(s[i])
  {
    seq(|s|, i requires 0 <= i < |s| => ToUpperChar(s[i]))
  }

  function ToLower(s: string): (r: string)
    ensures |r| == |s| && forall i :: 0 <= i < |s| ==> r[i] == ToLowerChar(s[i])
  {
    seq(|s|, i requires 0 <= i < |s| => ToLowerChar(s[i]))
  }

  /** Java's `equalsIgnoreCase`: same length and equal after upper-casing each character. */
  predicate EqualsIgnoreCase(a: string, b: string) {
    ToUpper(a) == ToUpper(b)
  }

  lemma EqualsIgnoreCaseSameLength(a: string, b: string)
    ensures EqualsIgnoreCase(a, b) ==> |a| == |b|
    ensures EqualsIgnoreCase(a, a)
  {
    assert |ToUpper(a)| == |a| && |ToUpper(b)| == |b|;
  }

  /** `String.replace(char, char)`: every `a` becomes `b`, nothing else changes. */
  function ReplaceChar(s: string, a: char, b: char): (r: string)
    ensures |r| == |s|
    ensures forall i :: 0 <= i < |s| ==> r[i] == (if s[i] == a then b else s[i])
  {
    seq(|s|, i requires 0 <= i < |s| => if s[i] == a then b else s[i])
  }

  /** Java's `String.trim`: drops leading and trailing characters up to U+0020. */
  function Trim(s: string): (r: string)
    ensures |r| <= |s|
    ensures |r| > 0 ==> r[0] > ' ' && r[|r| - 1] > ' '
    decreases |s|
  {
    if |s| > 0 && s[0] <= ' ' then Trim(s[1..])
    else if |s| > 0 && s[|s| - 1] <= ' ' then Trim(s[..|s| - 1])
    else s
  }
}
