/**
 * `WrapperStore` of `src/state/wrapper.rs`: the simplest `State`, whose
 * encoding is `()` and whose content is the store handle it was created
 * with.  Reads through the wrapper observe that store directly, and
 * writes, through `DerefMut` and the forwarding `Write` impl, land in it.
 *
 * The store handle is a type parameter; where reads and writes are shown
 * it is an in-memory `MapStore`.
 */
module StateWrapper {
  import opened Results
  import opened Bytes
  import opened KvStore

  datatype WrapperStore<S> = WrapperStore(store: S)

  /** `State::create`: wrap the given store; the `()` encoding carries nothing. */
  function Create<S>(store: S, encoding: ()): (r: Result<WrapperStore<S>>)
    ensures r.Ok? && r.value.store == store
  {
    Ok(WrapperStore(store))
  }

  /** `State::flush`: nothing to write back; the encoding is `()`. */
  function Flush<S>(w: WrapperStore<S>): (r: Result<()>)
    ensures r == Ok(())
  {
    Ok(())
  }

  /** `From<WrapperStore> for ()`: the wrapper is dropped. */
  function IntoUnit<S>(w: WrapperStore<S>): ()
  {
    ()
  }

  /** `Deref` (and `DerefMut`): the wrapped store itself. */
  function Deref<S>(w: WrapperStore<S>): (s: S)
    ensures s == w.store
  {
    w.store
  }

  /**
   * The `State` lifecycle closes: flushing a freshly created wrapper
   * gives back the encoding it was created from, and what it dereferences
   * to is the store it was given.
   */
  lemma CreateFlush<S>(store: S)
    ensures Flush(Create(store, ()).value) == Ok(())
    ensures Deref(Create(store, ()).value) == store
    ensures IntoUnit(Create(store, ()).value) == ()
  {
  }

  /** `Read::get` through the wrapper: the forwarding impl asks the wrapped store. */
  function Get(w: WrapperStore<MapStore>, key: Key): (r: Option<Value>)
    reads w.store
    ensures r == Lookup(w.store.entries, key)
  {
    Deref(w).Get(key)
  }

  /** `Write::put` through the wrapper: the write goes to the wrapped store. */
  method Put(w: WrapperStore<MapStore>, key: Key, value: Value) returns (r: Result<()>)
    modifies w.store
    ensures r == Ok(()) && w.store.entries == old(w.store.entries)[key := value]
  {
    r := Deref(w).Put(key, value);
  }

  /** `Write::delete` through the wrapper. */
  method Delete(w: WrapperStore<MapStore>, key: Key) returns (r: Result<()>)
    modifies w.store
    ensures r == Ok(()) && w.store.entries == old(w.store.entries) - {key}
  {
    r := Deref(w).Delete(key);
  }

  /**
   * Wrap a new, empty store: the key `[0]` is absent, then written through
   * the wrapper, after which both the wrapper and the store itself read
   * `[1]` under it.
   */
  method WrapThenWrite() returns (before: Option<Value>, viaWrapper: Option<Value>, direct: Option<Value>)
    ensures before == None
    ensures viaWrapper == Some([1]) && direct == Some([1])
  {
    var store := new MapStore();
    var created := Create(store, ());
    var wrapper := created.value;
    before := Get(wrapper, [0]);
    var _ := Put(wrapper, [0], [1]);
    viaWrapper := Get(wrapper, [0]);
    direct := store.Get([0]);
  }
}
