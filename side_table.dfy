/** `Map<K, S>` (src/map.rs): a side table keyed by references that some other
    structure minted. It never allocates: every index it touches comes from a
    reference the caller hands in. */
module SideTable {
  import opened Wrappers
  import opened Handle
  import Storage
  import opened Backends

  class Map<K, V> {
    const storage: Backend<V>

    /** `Map::new`: takes over a storage as it is. */
    constructor (storage: Backend<V>)
      ensures this.storage == storage
    {
      this.storage := storage;
    }

    function View(): map<nat, V>
      reads storage.Obj()
    {
      storage.View()
    }

    /** `get`: the storage's value at the reference's index. */
    function Get(r: Ref<K>): (o: Option<V>)
      reads storage.Obj()
      ensures o == Storage.Lookup(View(), r.index)
    {
      storage.Get(r.index)
    }

    /** `get_mut` with a write `update`: it reaches the slot `get` reads. */
    method GetMut(r: Ref<K>, update: V -> V) returns (present: bool)
      modifies storage.Obj()
      ensures present == old(Get(r)).Some?
      ensures present ==> Get(r) == Some(update(old(Get(r)).value))
      ensures Storage.GetMutContract(old(View()), r.index, update, present, View())
    {
      present := storage.GetMut(r.index, update);
    }

    /** `insert`: the storage's upsert at the caller's reference. */
    method Insert(r: Ref<K>, value: V) returns (previous: Option<V>)
      requires storage.CanInsert()
      modifies storage.Obj()
      ensures Storage.InsertContract(old(View()), r.index, value, previous, View())
      ensures previous == old(Get(r)) && Get(r) == Some(value)
      ensures View().Keys == old(View()).Keys + {r.index}
    {
      previous := storage.Insert(r.index, value);
    }
  }
}
