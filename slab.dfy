/** The `Slab<T>` backend (src/storage/impls/slab.rs). The slab's own slot list
    and free list are not modelled: a slab is seen as its occupancy map, and
    `contains` is membership in it. `set` and `remove` check `contains` first,
    so they never reach the slab's panicking indexing. */
module SlabImpl {
  import opened Wrappers
  import Storage
  import Entries

  class Slab<V> {
    var slots: map<nat, V>

    /** A slab with the given occupied slots (`Slab::new` when empty). */
    constructor (slots: map<nat, V>)
      ensures this.slots == slots
    {
      this.slots := slots;
    }

    function View(): map<nat, V>
      reads this
    {
      slots
    }

    /** `Slab::contains`, the guard of `set` and `remove`: the slot is
        occupied, so `get` finds a value there. */
    predicate Contains(index: nat)
      reads this
      ensures Contains(index) <==> Storage.Lookup(View(), index).Some?
    {
      index in slots
    }

    /** `get`: the occupant of slot `index`, if any. */
    function Get(index: nat): (r: Option<V>)
      reads this
      ensures r == Storage.Lookup(View(), index)
      ensures r.Some? <==> Contains(index)
    {
      if Contains(index) then Some(slots[index]) else None
    }

    /** `len`: the number of occupied slots. */
    function Len(): (n: nat)
      reads this
      ensures n == |View()|
    {
      |slots|
    }

    /** `iter`: every occupied slot once. The order is the slab crate's, so
        this is a method and callers see only its contract. */
    method Iter() returns (es: seq<(nat, V)>)
      ensures Entries.ListsEach(es, View())
    {
      es := Entries.Ascending(slots);
    }

    /** `get_mut` with a write `update` through the reference it returns. */
    method GetMut(index: nat, update: V -> V) returns (present: bool)
      modifies this
      ensures Storage.GetMutContract(old(View()), index, update, present, View())
    {
      present := Contains(index);
      if present {
        slots := slots[index := update(slots[index])];
      }
    }

    /** `clear`: every slot is freed. */
    method Clear()
      modifies this
      ensures Storage.ClearContract(View())
    {
      slots := map[];
    }

    /** `set`: on an occupied slot the value is swapped in and the old one
        returned; on a free slot the value is handed back and nothing changes. */
    method Set(index: nat, value: V) returns (r: Result<V, V>)
      modifies this
      ensures old(Contains(index)) ==> r == Ok(old(slots[index])) && Contains(index) && slots[index] == value
      ensures !old(Contains(index)) ==> r == Err(value) && slots == old(slots)
      ensures Storage.SetContract(old(View()), index, value, r, View())
    {
      if Contains(index) {
        r := Ok(slots[index]);
        slots := slots[index := value];
      } else {
        r := Err(value);
      }
    }

    /** `remove`: an occupied slot is freed and its value returned; a free slot
        gives `None` and nothing changes. */
    method Remove(index: nat) returns (removed: Option<V>)
      modifies this
      ensures old(Contains(index)) ==> removed == Some(old(slots[index])) && !Contains(index)
      ensures !old(Contains(index)) ==> removed == None && slots == old(slots)
      ensures Storage.RemoveContract(old(View()), index, removed, View())
    {
      if Contains(index) {
        removed := Some(slots[index]);
        slots := slots - {index};
      } else {
        removed := None;
      }
    }
  }
}
