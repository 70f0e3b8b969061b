/** The `HashMap<usize, T>` backend (src/storage/impls/hash_map.rs): a partial
    map from index to value. Hashing and bucket layout are not modelled; the
    map is a mathematical map and its iteration order is unspecified. */
module HashMapImpl {
  import opened Wrappers
  import Storage
  import Entries

  class HashMap<V> {
    var entries: map<nat, V>

    /** A map holding `entries` (`HashMap::new` when `entries` is empty). */
    constructor (entries: map<nat, V>)
      ensures this.entries == entries
    {
      this.entries := entries;
    }

    /** The storage view is the map itself. */
    function View(): map<nat, V>
      reads this
    {
      entries
    }

    /** `get`: the lookup of key `index`. */
    function Get(index: nat): (r: Option<V>)
      reads this
      ensures r == Storage.Lookup(View(), index)
    {
      if index in entries then Some(entries[index]) else None
    }

    /** `len`: the number of keys. */
    function Len(): (n: nat)
      reads this
      ensures n == |View()|
    {
      |entries|
    }

    /** `iter`: every entry once, in an order the hash map does not fix. A
        method, so that callers see only its contract: the body has to pick
        some order, and no caller may rely on the one it picks. */
    method Iter() returns (es: seq<(nat, V)>)
      ensures Entries.ListsEach(es, View())
    {
      es := Entries.Ascending(entries);
    }

    /** `get_mut` with a write `update` through the reference it returns. */
    method GetMut(index: nat, update: V -> V) returns (present: bool)
      modifies this
      ensures Storage.GetMutContract(old(View()), index, update, present, View())
    {
      present := index in entries;
      if present {
        entries := entries[index := update(entries[index])];
      }
    }

    /** `clear`: no key is left. */
    method Clear()
      modifies this
      ensures Storage.ClearContract(View())
    {
      entries := map[];
    }

    /** `set`: through an occupied entry the value is replaced and the old one
        returned; a vacant entry hands the value back. */
    method Set(index: nat, value: V) returns (r: Result<V, V>)
      modifies this
      ensures Storage.SetContract(old(View()), index, value, r, View())
    {
      if index in entries {
        r := Ok(entries[index]);
        entries := entries[index := value];
      } else {
        r := Err(value);
      }
    }

    /** `insert`: upsert at `index`, returning the previous value. */
    method Insert(index: nat, value: V) returns (previous: Option<V>)
      modifies this
      ensures Storage.InsertContract(old(View()), index, value, previous, View())
    {
      previous := Get(index);
      entries := entries[index := value];
    }

    /** `remove`: drops key `index`, returning its value if it had one. */
    method Remove(index: nat) returns (removed: Option<V>)
      modifies this
      ensures Storage.RemoveContract(old(View()), index, removed, View())
    {
      removed := Get(index);
      entries := entries - {index};
    }
  }
}
