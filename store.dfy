/** The in-memory nonce store of store.go: one pending nonce per wallet address.
    The read/write mutex is not modelled; every operation is atomic. */
module Store {
  import opened Basics

  /** The error `Get` returns for a key that has no entry (it names the key). */
  datatype StoreError = NoEntry(key: string)

  class InMemoryStore {
    /** Wallet address -> its single outstanding nonce. */
    var store: map<string, string>

    /** `newInMemoryStore`: a store with no entries. */
    constructor ()
      ensures store == map[]
    {
      store := map[];
    }

    /** `Get`: the stored value, or `""` and an error when the key is absent.
        It only reads the table. */
    method Get(key: string) returns (val: string, err: Option<StoreError>)
      ensures err == None <==> key in store
      ensures key in store ==> val == store[key]
      ensures key !in store ==> val == "" && err == Some(NoEntry(key))
    {
      if key !in store {
        return "", Some(NoEntry(key));
      }
      val := store[key];
      err := None;
    }

    /** `Set`: the entry for `key` becomes `val`, whatever it held before;
        every other entry is kept. */
    method Set(key: string, val: string)
      modifies this
      ensures key in store && store[key] == val
      ensures store.Keys == old(store.Keys) + {key}
      ensures forall k :: k in old(store) && k != key ==> k in store && store[k] == old(store)[k]
    {
      store := store[key := val];
    }

    /** `Remove`: the entry for `key` is gone, if there was one; every other
        entry is kept, and an absent key leaves the table as it was. */
    method Remove(key: string)
      modifies this
      ensures key !in store
      ensures store.Keys == old(store.Keys) - {key}
      ensures forall k :: k in store ==> store[k] == old(store)[k]
      ensures key !in old(store) ==> store == old(store)
    {
      store := store - {key};
    }
  }

  // Clients of the store that rely on the contracts above alone.

  /** A fresh store has no entry for any key. */
  method FreshStoreIsEmpty(key: string) returns (val: string, err: Option<StoreError>)
    ensures val == "" && err == Some(NoEntry(key))
  {
    var s := new InMemoryStore();
    val, err := s.Get(key);
  }

  /** Read after write: `Get` returns exactly what `Set` stored. */
  method SetThenGet(s: InMemoryStore, key: string, v: string) returns (val: string, err: Option<StoreError>)
    modifies s
    ensures err == None && val == v
  {
    s.Set(key, v);
    val, err := s.Get(key);
  }

  /** Last write wins, and the key still has a single entry. */
  method SetTwice(s: InMemoryStore, key: string, v1: string, v2: string) returns (val: string, err: Option<StoreError>)
    modifies s
    ensures err == None && val == v2
    ensures s.store == old(s.store)[key := v2]
  {
    s.Set(key, v1);
    s.Set(key, v2);
    val, err := s.Get(key);
  }

  /** After `Remove`, `Get` fails with the empty value. */
  method RemoveThenGet(s: InMemoryStore, key: string) returns (val: string, err: Option<StoreError>)
    modifies s
    ensures val == "" && err == Some(NoEntry(key))
  {
    s.Remove(key);
    val, err := s.Get(key);
  }
}
