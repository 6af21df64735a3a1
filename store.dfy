/** src/engine/structure/store.rs: string-keyed stores whose `add` inserts
    only when the key is absent (`entry(key).or_insert(value)`) and hands
    back whatever the key then holds. `HeapStore` keeps shared handles
    (`Rc<T>`), `Store` keeps owned values; as values both are a map. */
module Stores {
  import opened Geometry

  /** `entry(key).or_insert(value)` on the underlying map. */
  function InsertIfAbsent<T>(m: map<string, T>, key: string, value: T): (r: map<string, T>)
    ensures r.Keys == m.Keys + {key}
    ensures r[key] == (if key in m then m[key] else value)
    ensures forall k :: k in m ==> r[k] == m[k]
  {
    if key in m then m else m[key := value]
  }

  /** A lookup that fails with the given message when the key is absent. */
  function Lookup<T>(m: map<string, T>, key: string, missing: string): (r: Result<T>)
    ensures r.Ok? <==> key in m
    ensures r.Ok? ==> r.value == m[key]
    ensures r.Err? ==> r.error == missing
  {
    if key in m then Ok(m[key]) else Err(missing)
  }

  /** Adding a key twice keeps the first value: the second add changes nothing. */
  lemma InsertIdempotent<T>(m: map<string, T>, key: string, first: T, second: T)
    ensures InsertIfAbsent(InsertIfAbsent(m, key, first), key, second) == InsertIfAbsent(m, key, first)
  {
  }

  /** After an add the key is found, holding the value the add returned. */
  lemma AddThenLookup<T>(m: map<string, T>, key: string, value: T, missing: string)
    ensures Lookup(InsertIfAbsent(m, key, value), key, missing) == Ok(InsertIfAbsent(m, key, value)[key])
  {
  }

  /** The message `HeapStore::get` and `Store::get` fail with. */
  function MissingKey(key: string): string {
    "Failed to get " + key + " from store"
  }

  /** `HeapStore<T>`: shared handles by name. */
  class HeapStore<T> {
    var store: map<string, T>

    constructor ()
      ensures store == map[]
    {
      store := map[];
    }

    /** `add`: insert if absent; return the handle now stored under the key. */
    method Add(key: string, value: T) returns (stored: T)
      modifies this
      ensures store == InsertIfAbsent(old(store), key, value)
      ensures stored == store[key]
      ensures key in old(store) ==> stored == old(store)[key] && store == old(store)
    {
      store := InsertIfAbsent(store, key, value);
      stored := store[key];
    }

    /** `get`: the handle, or an error naming the key. */
    function Get(key: string): (r: Result<T>)
      reads this
      ensures r.Ok? <==> key in store
      ensures r.Ok? ==> r.value == store[key]
      ensures r.Err? ==> r.error == MissingKey(key)
    {
      Lookup(store, key, MissingKey(key))
    }
  }

  /** `Store<T>`: owned values by name, with the same add/get rules. */
  class Store<T> {
    var store: map<string, T>

    constructor ()
      ensures store == map[]
    {
      store := map[];
    }

    /** `add`: insert if absent; return the value now stored under the key. */
    method Add(key: string, value: T) returns (stored: T)
      modifies this
      ensures store == InsertIfAbsent(old(store), key, value)
      ensures stored == store[key]
      ensures key in old(store) ==> stored == old(store)[key] && store == old(store)
    {
      store := InsertIfAbsent(store, key, value);
      stored := store[key];
    }

    /** `get`: the value, or an error naming the key. */
    function Get(key: string): (r: Result<T>)
      reads this
      ensures r.Ok? <==> key in store
      ensures r.Ok? ==> r.value == store[key]
      ensures r.Err? ==> r.error == MissingKey(key)
    {
      Lookup(store, key, MissingKey(key))
    }
  }
}
