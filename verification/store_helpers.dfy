/**
 * The web UI's store helpers: store paths given as a string or an array, the
 * lookup of a value along a path in the store's state, the name of the
 * mutation that sets a property, and the encoding of bounds and multiselect
 * filters, where an inactive filter is stored as null.
 *
 * The state is a JSON tree. Component properties are a map from property name
 * to the path value they hold. Lodash's debounce is reduced to the decision
 * whether a setter is debounced.
 */
module StoreHelpers {
  import opened Wrappers
  import opened Json
  import Text

  /** A store path as callers pass it: null or undefined, a string of
      '/'-separated keys, or an array of keys. */
  datatype PathArg = NoPath | PathString(s: string) | PathArray(parts: seq<string>)

  /** JavaScript truthiness of a path argument: null and "" are falsy, every
      array (even an empty one) is truthy. */
  predicate Truthy(p: PathArg) {
    p.PathArray? || (p.PathString? && p.s != "")
  }

  /** `convertToArrayPath`: [] for a falsy path, an array as it is, a string
      split on '/'. A string path is recovered by joining the keys with '/',
      and no key holds a '/'. */
  function ConvertToArrayPath(p: PathArg): (r: seq<string>)
    ensures !Truthy(p) ==> r == []
    ensures p.PathArray? ==> r == p.parts
    ensures Truthy(p) && p.PathString? ==> (Text.Join(r, "/") == p.s
      && |r| >= 1 && forall k :: 0 <= k < |r| ==> '/' !in r[k])
  {
    match p
    case NoPath => []
    case PathArray(parts) => parts
    case PathString(s) =>
      if s == "" then []
      else
        Text.JoinRawSplit(s, "/");
        Text.RawSplitPiecesFree(s, '/');
        Text.RawSplit(s, "/")
  }

  /** `buildFullPath`: the component's root module path in front of `path`
      when the `rootModuleProp` option is set (a non-empty name); `path`
      alone otherwise. A property the component lacks is undefined, so it
      adds nothing. */
  function BuildFullPath(path: seq<string>, component: map<string, PathArg>, rootModuleProp: Option<string>): (r: seq<string>)
    ensures rootModuleProp.None? || rootModuleProp == Some("") ==> r == path
    ensures rootModuleProp.Some? && rootModuleProp.value != "" ==>
      r == ConvertToArrayPath(if rootModuleProp.value in component then component[rootModuleProp.value] else NoPath) + path
    ensures |path| <= |r| && r[|r| - |path|..] == path
  {
    match rootModuleProp
    case Some(prop) =>
      if prop == "" then path
      else
        var root := ConvertToArrayPath(if prop in component then component[prop] else NoPath);
        root + path
    case None => path
  }

  // ---------------------------------------------------------------- getValue

  /** The outcome of following keys: a value, `undefined`, or the TypeError
      of reading a property of null or undefined. */
  datatype Lookup = Found(value: Json) | Undefined | Thrown

  /** `obj[key]` on a JSON value: an object's field, undefined for a missing
      field or for a value with no such property, TypeError on null and on
      undefined. Arrays and strings have no properties here: an array index
      or a string's `length`, which JavaScript reads, is undefined. */
  function Step(l: Lookup, key: string): (r: Lookup)
    ensures l.Found? && l.value.JObj? && Get(l.value, key).Some? ==> r == Found(Get(l.value, key).value)
    ensures l.Found? && l.value.JObj? && Get(l.value, key).None? ==> r == Undefined
    ensures l.Found? && !l.value.JObj? && !l.value.JNull? ==> r == Undefined
    ensures !l.Found? || l.value.JNull? ==> r == Thrown
  {
    match l
    case Found(v) =>
      if v.JObj? then (match Get(v, key) case Some(w) => Found(w) case None => Undefined)
      else if v.JNull? then Thrown
      else Undefined
    case Undefined => Thrown
    case Thrown => Thrown
  }

  /** The keys of `path` followed one after the other from `l`. */
  function Follow(l: Lookup, path: seq<string>): Lookup
    decreases |path|
  {
    if path == [] then l else Follow(Step(l, path[0]), path[1..])
  }

  /** `getValue`: the state followed along `path`. */
  function GetValue(state: Json, path: seq<string>): (r: Lookup)
    ensures path == [] ==> r == Found(state)
  {
    Follow(Found(state), path)
  }

  /** Following a path in two parts is following the first part, then the
      second from where the first ended. */
  lemma {:induction false} FollowConcat(l: Lookup, p: seq<string>, q: seq<string>)
    ensures Follow(l, p + q) == Follow(Follow(l, p), q)
    decreases |p|
  {
    if p != [] {
      assert p + q != [] && (p + q)[0] == p[0] && (p + q)[1..] == p[1..] + q;
      assert Follow(l, p + q) == Follow(Step(l, p[0]), p[1..] + q);
      FollowConcat(Step(l, p[0]), p[1..], q);
    } else {
      assert p + q == q;
    }
  }

  /** Once a lookup has thrown, nothing further recovers it. */
  lemma {:induction false} ThrownStays(path: seq<string>)
    ensures Follow(Thrown, path) == Thrown
    decreases |path|
  {
    if path != [] {
      ThrownStays(path[1..]);
    }
  }

  /** A property read through a root module: the full path is looked up in the
      root module's value. */
  lemma RootedLookup(state: Json, path: seq<string>, component: map<string, PathArg>, prop: string)
    requires prop != ""
    ensures var root := ConvertToArrayPath(if prop in component then component[prop] else NoPath);
      GetValue(state, BuildFullPath(path, component, Some(prop))) == Follow(GetValue(state, root), path)
  {
    var root := ConvertToArrayPath(if prop in component then component[prop] else NoPath);
    FollowConcat(Found(state), root, path);
  }

  // ---------------------------------------------------------------- mutation names

  /** `charAt(0).toUpperCase() + slice(1)`, for ASCII letters. */
  function Capitalise(v: string): (r: string)
    ensures |r| == |v|
    ensures v != [] ==> r[0] == Text.ToUpperChar(v[0]) && r[1..] == v[1..]
  {
    if v == "" then "" else [Text.ToUpperChar(v[0])] + v[1..]
  }

  /** `getMutationName`: the module path joined with '/', then "/set" and the
      capitalised last key. None for an empty path, where the last key is
      undefined and `charAt` throws. */
  function MutationName(path: seq<string>): (r: Option<string>)
    ensures r.None? <==> path == []
    ensures |path| == 1 ==> r == Some("/set" + Capitalise(path[0]))
  {
    if path == [] then None
    else
      var variableName := path[|path| - 1];
      var modulePath := path[..|path| - 1];
      assert |path| == 1 ==> Text.Join(modulePath, "/") + "/set" == "/set";
      Some(Text.Join(modulePath, "/") + "/set" + Capitalise(variableName))
  }

  lemma {:induction false} JoinSnoc(parts: seq<string>, x: string, sep: string)
    requires |parts| >= 1
    ensures Text.Join(parts + [x], sep) == Text.Join(parts, sep) + sep + x
    decreases |parts|
  {
    if |parts| == 1 {
      assert (parts + [x])[1..] == [x];
    } else {
      assert (parts + [x])[1..] == parts[1..] + [x];
      JoinSnoc(parts[1..], x, sep);
    }
  }

  /** Read back on '/', the mutation name of a path whose keys are free of
      '/' is the module path followed by the setter's name; a one-key path
      gives an empty module part in front. */
  lemma MutationNameSplits(path: seq<string>)
    requires |path| >= 1 && forall k :: 0 <= k < |path| ==> '/' !in path[k]
    ensures var setter := "set" + Capitalise(path[|path| - 1]);
      Text.RawSplit(MutationName(path).value, "/")
        == (if |path| == 1 then [""] else path[..|path| - 1]) + [setter]
  {
    var last := path[|path| - 1];
    var setter := "set" + Capitalise(last);
    var front := if |path| == 1 then [""] else path[..|path| - 1];
    var parts := front + [setter];
    SetterHasNoSlash(last);
    forall k | 0 <= k < |parts|
      ensures '/' !in parts[k]
    {
      if k < |parts| - 1 && |path| > 1 {
        assert parts[k] == path[k];
      }
    }
    JoinSnoc(front, setter, "/");
    MutationNameJoined(path);
    Text.RawSplitJoin(parts, '/');
  }

  /** The mutation name is the module path and the setter joined with '/';
      at the top level the module path is the empty key. */
  lemma MutationNameJoined(path: seq<string>)
    requires |path| >= 1
    ensures var front := if |path| == 1 then [""] else path[..|path| - 1];
      MutationName(path).value == Text.Join(front, "/") + "/" + ("set" + Capitalise(path[|path| - 1]))
  {
    var front := if |path| == 1 then [""] else path[..|path| - 1];
    var c := Capitalise(path[|path| - 1]);
    assert Text.Join(front, "/") == Text.Join(path[..|path| - 1], "/");
    Reassociate(Text.Join(front, "/"), c);
  }

  lemma Reassociate(a: string, c: string)
    ensures a + "/set" + c == a + "/" + ("set" + c)
  {
    assert "/set" == "/" + "set";
  }

  /** A key without '/' keeps none once capitalised behind "set". */
  lemma SetterHasNoSlash(last: string)
    requires '/' !in last
    ensures '/' !in "set" + Capitalise(last)
  {
    var c := Capitalise(last);
    if last != [] {
      assert c == [c[0]] + c[1..];
      assert c[1..] == last[1..];
      assert last[0] != '/';
    }
    assert '/' !in "set";
  }

  /** The setter of "a/b/myProp" is "a/b/setMyProp"; that of a top-level
      "myProp" is "/setMyProp", with a leading '/'. */
  lemma MutationNameExamples()
    ensures MutationName(["a", "b", "myProp"]) == Some("a/b/setMyProp")
    ensures MutationName(["myProp"]) == Some("/setMyProp")
  {
    assert Text.ToUpperChar('m') == 'M';
    assert Capitalise("myProp") == "MyProp" by {
      assert "myProp"[1..] == "yProp";
    }
    assert ["a", "b", "myProp"][..2] == ["a", "b"];
    assert Text.Join(["a", "b"], "/") == "a/b" by {
      assert ["a", "b"][1..] == ["b"];
    }
    assert "a/b" + "/set" + "MyProp" == "a/b/setMyProp";
    assert "/set" + "MyProp" == "/setMyProp";
  }

  /** `syncFilter`'s setter commits `setFilter` of the module at `path`. */
  function FilterMutation(path: seq<string>): (r: string)
    ensures Text.EndsWith(r, "/setFilter")
    ensures path == [] ==> r == "/setFilter"
  {
    Text.Join(path, "/") + "/setFilter"
  }

  // ---------------------------------------------------------------- filters

  /** The bounds filter's getter: a stored pair, or [0, max] when inactive. */
  function ReadBounds(stored: Option<(int, int)>, max: int): (r: (int, int))
    ensures stored.Some? ==> r == stored.value
    ensures stored.None? ==> r == (0, max)
  {
    match stored
    case Some(bounds) => bounds
    case None => (0, max)
  }

  /** The bounds filter's setter: null exactly for the full range [0, max]. */
  function WriteBounds(bounds: (int, int), max: int): (r: Option<(int, int)>)
    ensures r.None? <==> bounds == (0, max)
    ensures r.Some? ==> r.value == bounds
  {
    if bounds.0 != 0 || bounds.1 != max then Some(bounds) else None
  }

  /** What is written reads back as written. */
  lemma BoundsRoundTrip(bounds: (int, int), max: int)
    ensures ReadBounds(WriteBounds(bounds, max), max) == bounds
  {
  }

  /** A stored value other than the full range survives being read and
      written back. */
  lemma BoundsStoredRoundTrip(stored: Option<(int, int)>, max: int)
    requires stored != Some((0, max))
    ensures WriteBounds(ReadBounds(stored, max), max) == stored
  {
  }

  /** The multiselect filter's getter: the stored selection, or a copy of
      every option when inactive (an empty array is truthy and kept). */
  function ReadSelection<T>(stored: Option<seq<T>>, options: seq<T>): (r: seq<T>)
    ensures stored.Some? ==> r == stored.value
    ensures stored.None? ==> r == options
  {
    match stored
    case Some(selection) => selection
    case None => options[..]
  }

  /** The multiselect filter's setter: null when as many options are selected
      as there are. */
  function WriteSelection<T>(selected: seq<T>, options: seq<T>): (r: Option<seq<T>>)
    ensures r.None? <==> |selected| == |options|
    ensures r.Some? ==> r.value == selected
  {
    if |selected| == |options| then None else Some(selected)
  }

  /** A selection reads back as written unless it has as many entries as the
      options without being them: then it reads back as every option. */
  lemma SelectionRoundTrip<T>(selected: seq<T>, options: seq<T>)
    ensures |selected| != |options| || selected == options ==>
      ReadSelection(WriteSelection(selected, options), options) == selected
    ensures |selected| == |options| ==> ReadSelection(WriteSelection(selected, options), options) == options
  {
  }

  /** How a setter runs. */
  datatype Setter = Immediate | Debounced(delay: int)

  /** The `debounce` wrapper: debounced with the given delay iff it is set
      and non-zero. */
  function Debounce(delay: Option<int>): (r: Setter)
    ensures r.Debounced? <==> delay.Some? && delay.value != 0
    ensures r.Debounced? ==> r.delay == delay.value
  {
    match delay
    case Some(d) => if d != 0 then Debounced(d) else Immediate
    case None => Immediate
  }
}
