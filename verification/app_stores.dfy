/**
 * The web UI's list of app stores (the registries apps are installed from).
 * The Vue 2 mutations and the Vue 3 store actions do the same thing: replace
 * the list, append a store, drop every store with a given id, or empty the
 * list.
 */
module AppStores {
  /** An app store: the id is all the actions look at. */
  datatype AppStore = AppStore(id: int, name: string)

  datatype AppStoresState = AppStoresState(stores: seq<AppStore>)

  const INITIAL: AppStoresState := AppStoresState([])

  /** `set`: the given list replaces the old one. */
  function Set(st: AppStoresState, stores: seq<AppStore>): (r: AppStoresState)
    ensures r.stores == stores
  {
    AppStoresState(stores)
  }

  /** `add`: the store goes at the end, the old list stays in front. */
  function Add(st: AppStoresState, store: AppStore): (r: AppStoresState)
    ensures |r.stores| == |st.stores| + 1
    ensures r.stores[..|st.stores|] == st.stores && r.stores[|st.stores|] == store
  {
    AppStoresState(st.stores + [store])
  }

  /** The stores without id `id`, in their order. */
  function Without(stores: seq<AppStore>, id: int): (r: seq<AppStore>)
    ensures forall s :: s in r <==> s in stores && s.id != id
    ensures |r| <= |stores|
  {
    if stores == [] then []
    else
      assert forall s :: s in stores <==> s == stores[0] || s in stores[1..];
      (if stores[0].id != id then [stores[0]] else []) + Without(stores[1..], id)
  }

  /** `delete`: every store with the given store's id goes, whatever its
      other fields; the others stay in order. */
  function Delete(st: AppStoresState, store: AppStore): (r: AppStoresState)
    ensures forall s :: s in r.stores <==> s in st.stores && s.id != store.id
    ensures |r.stores| <= |st.stores|
  {
    AppStoresState(Without(st.stores, store.id))
  }

  /** `reset`: the empty list, as initially. */
  function Reset(st: AppStoresState): (r: AppStoresState)
    ensures r == INITIAL
  {
    AppStoresState([])
  }

  /** Deleting works piece by piece, so it keeps the survivors' order. */
  lemma {:induction false} WithoutConcat(a: seq<AppStore>, b: seq<AppStore>, id: int)
    ensures Without(a + b, id) == Without(a, id) + Without(b, id)
  {
    if a == [] {
      assert a + b == b;
    } else {
      assert (a + b)[0] == a[0];
      assert (a + b)[1..] == a[1..] + b;
      WithoutConcat(a[1..], b, id);
    }
  }

  /** A list with no store of that id is left as it is. */
  lemma {:induction false} WithoutAbsent(stores: seq<AppStore>, id: int)
    requires forall i :: 0 <= i < |stores| ==> stores[i].id != id
    ensures Without(stores, id) == stores
  {
    if stores != [] {
      WithoutAbsent(stores[1..], id);
    }
  }

  /** Deleting twice deletes no more than once. */
  lemma DeleteIdempotent(st: AppStoresState, store: AppStore)
    ensures Delete(Delete(st, store), store) == Delete(st, store)
  {
    var r := Without(st.stores, store.id);
    assert forall i :: 0 <= i < |r| ==> r[i] in r;
    WithoutAbsent(r, store.id);
  }

  /** Deleting the store just added removes it and every other store with
      its id, and leaves the rest as it was. */
  lemma DeleteUndoesAdd(st: AppStoresState, store: AppStore)
    ensures Delete(Add(st, store), store) == Delete(st, store)
  {
    WithoutConcat(st.stores, [store], store.id);
    assert Without([store], store.id) == [];
  }

  /** If no store had the id, adding then deleting gives the old state back. */
  lemma AddThenDeleteRestores(st: AppStoresState, store: AppStore)
    requires forall i :: 0 <= i < |st.stores| ==> st.stores[i].id != store.id
    ensures Delete(Add(st, store), store) == st
  {
    DeleteUndoesAdd(st, store);
    WithoutAbsent(st.stores, store.id);
  }
}
