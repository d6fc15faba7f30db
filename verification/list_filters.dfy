/**
 * The filter records shared by the web UI's list stores (projects, images,
 * image groups, annotations): an object from filter name to value, updated
 * with an object spread and summarised by two counters.
 *
 * A filter record is a JSON object. Its field order does not matter to the
 * counters, so `Object.values` ordering is not modelled.
 */
module ListFilters {
  import opened Wrappers
  import opened Json

  type Filters = seq<(string, Json)>

  /** JavaScript truthiness: null, false, 0, NaN and "" are falsy; every array
      and object, even an empty one, is truthy. */
  predicate JsTruthy(v: Json) {
    match v
    case JNull => false
    case JBool(b) => b
    case JNum(n) => n != 0
    case JDouble(d, _) => d != NaN && d != Finite(0.0)
    case JStr(s) => s != ""
    case JArr(_) => true
    case JObj(_) => true
  }

  /** `val && val.length === 0`: only an empty array qualifies, since the
      empty string is falsy and other values have no `length`. */
  predicate IsEmptyActive(v: Json)
    ensures IsEmptyActive(v) <==> v == JArr([])
  {
    JsTruthy(v) && ((v.JStr? && |v.s| == 0) || (v.JArr? && |v.items| == 0))
  }

  /** `Object.values(filters).filter(val => val).length`. */
  function NbActive(fs: Filters): (r: nat)
    ensures r <= |fs|
  {
    if fs == [] then 0 else (if JsTruthy(fs[0].1) then 1 else 0) + NbActive(fs[1..])
  }

  /** `Object.values(filters).filter(val => val && val.length === 0).length`. */
  function NbEmpty(fs: Filters): (r: nat)
    ensures r <= |fs|
  {
    if fs == [] then 0 else (if IsEmptyActive(fs[0].1) then 1 else 0) + NbEmpty(fs[1..])
  }

  /** Every filter counted as empty is also counted as active. */
  lemma {:induction false} EmptyAmongActive(fs: Filters)
    ensures NbEmpty(fs) <= NbActive(fs)
  {
    if fs != [] {
      EmptyAmongActive(fs[1..]);
    }
  }

  /** No filter is active exactly when every value is falsy. */
  lemma {:induction false} NoneActive(fs: Filters)
    ensures NbActive(fs) == 0 <==> forall i :: 0 <= i < |fs| ==> !JsTruthy(fs[i].1)
  {
    if fs != [] {
      NoneActive(fs[1..]);
      assert forall i :: 1 <= i < |fs| ==> fs[i] == fs[1..][i - 1];
    }
  }

  predicate UniqueKeys(fs: Filters) {
    forall i, j :: 0 <= i < j < |fs| ==> fs[i].0 != fs[j].0
  }

  function Keys(fs: Filters): (r: seq<string>)
    ensures |r| == |fs| && forall i :: 0 <= i < |fs| ==> r[i] == fs[i].0
  {
    if fs == [] then [] else [fs[0].0] + Keys(fs[1..])
  }

  /** A record whose every filter is null, as the stores start. */
  function NullFilters(names: seq<string>): (r: Filters)
    ensures Keys(r) == names
    ensures NbActive(r) == 0 && NbEmpty(r) == 0
  {
    if names == [] then [] else [(names[0], JNull)] + NullFilters(names[1..])
  }

  /** Every named filter of a null record is null. */
  lemma {:induction false} LookupNullFilters(names: seq<string>, k: string)
    requires k in names
    ensures Lookup(NullFilters(names), k) == Some(JNull)
  {
    var fs := NullFilters(names);
    assert fs == [(names[0], JNull)] + NullFilters(names[1..]);
    if names[0] != k {
      assert k in names[1..];
      LookupNullFilters(names[1..], k);
      assert fs[1..] == NullFilters(names[1..]);
    }
  }

  /** `filters = { ...filters, [name]: value }`: the named filter takes the
      value, every other filter keeps its own; a known name keeps the keys
      as they were, an unknown one is added at the end. */
  function SetFilter(fs: Filters, name: string, v: Json): (r: Filters)
    ensures Lookup(r, name) == Some(v)
    ensures forall k :: k != name ==> Lookup(r, k) == Lookup(fs, k)
    ensures name in Keys(fs) ==> Keys(r) == Keys(fs)
    ensures name !in Keys(fs) ==> Keys(r) == Keys(fs) + [name]
    ensures UniqueKeys(fs) ==> UniqueKeys(r)
  {
    SetFilterKeys(fs, name, v);
    PutField(fs, name, v)
  }

  lemma {:induction false} SetFilterKeys(fs: Filters, name: string, v: Json)
    ensures name in Keys(fs) ==> Keys(PutField(fs, name, v)) == Keys(fs)
    ensures name !in Keys(fs) ==> Keys(PutField(fs, name, v)) == Keys(fs) + [name]
    ensures UniqueKeys(fs) ==> UniqueKeys(PutField(fs, name, v))
  {
    PutFieldKeys(fs, name, v);
    var r := PutField(fs, name, v);
    if UniqueKeys(fs) {
      forall i, j | 0 <= i < j < |r|
        ensures r[i].0 != r[j].0
      {
        assert r[i].0 == Keys(r)[i] && r[j].0 == Keys(r)[j];
        if j < |fs| {
          assert Keys(fs)[i] == fs[i].0 && Keys(fs)[j] == fs[j].0;
        } else {
          assert Keys(fs)[i] == fs[i].0;
        }
      }
    }
  }

  lemma {:induction false} PutFieldKeys(fs: Filters, name: string, v: Json)
    ensures name in Keys(fs) ==> Keys(PutField(fs, name, v)) == Keys(fs)
    ensures name !in Keys(fs) ==> Keys(PutField(fs, name, v)) == Keys(fs) + [name]
  {
    if fs != [] {
      PutFieldKeys(fs[1..], name, v);
      assert Keys(fs) == [fs[0].0] + Keys(fs[1..]);
      if fs[0].0 != name {
        var rest := PutField(fs[1..], name, v);
        assert PutField(fs, name, v) == [fs[0]] + rest;
        assert Keys([fs[0]] + rest) == [fs[0].0] + Keys(rest) by {
          assert ([fs[0]] + rest)[1..] == rest;
        }
      } else {
        assert PutField(fs, name, v) == [(name, v)] + fs[1..];
        assert ([(name, v)] + fs[1..])[1..] == fs[1..];
      }
    }
  }

  /** Setting a filter moves the active count by that filter alone: the old
      value's share goes, the new value's comes. */
  lemma {:induction false} SetFilterCount(fs: Filters, name: string, v: Json)
    ensures var prev := Lookup(fs, name);
      NbActive(SetFilter(fs, name, v))
        == NbActive(fs) - (if prev.Some? && JsTruthy(prev.value) then 1 else 0) + (if JsTruthy(v) then 1 else 0)
  {
    if fs != [] {
      if fs[0].0 == name {
        assert PutField(fs, name, v) == [(name, v)] + fs[1..];
        assert ([(name, v)] + fs[1..])[1..] == fs[1..];
      } else {
        SetFilterCount(fs[1..], name, v);
        assert PutField(fs, name, v) == [fs[0]] + PutField(fs[1..], name, v);
        assert ([fs[0]] + PutField(fs[1..], name, v))[1..] == PutField(fs[1..], name, v);
      }
    }
  }
}
