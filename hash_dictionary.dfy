/** `HashDictionary` (src/hash_dictionary.rs): a reference-to-value shelf paired with a
    value-to-reference index kept in a hash map (`HashMap`). `insert` takes `&mut self`.
    The state and its steps are those of module Interning; this class is the
    thin layer the source's type is. */
module HashDictionaries {
  import opened Wrappers
  import opened Handle
  import Storage
  import opened Backends
  import opened Shelves
  import opened Interning

  class HashDictionary<V(==)> {
    const inner: Interner<V>

    function Model(): State<V>
      reads inner, inner.values.storage.Obj()
    {
      inner.Model()
    }

    ghost predicate Valid()
      reads inner, inner.values.storage.Obj()
    {
      inner.Valid()
    }

    /** `new(storage)`: an empty reverse index beside a shelf over `storage`.
        Built over an empty storage (`Default`), both sides agree. */
    constructor (storage: Backend<V>)
      ensures fresh(inner) && fresh(inner.values) && inner.values.storage == storage
      ensures Valid() && Model() == State(map[], storage.View())
      ensures storage.View() == map[] ==> Bijective(Model())
    {
      var shelf := new Shelf(storage);
      inner := new Interner(shelf);
    }

    /** `get` (and `borrow`): the shelf's value behind the reference. */
    function Get(r: Ref<V>): (o: Option<V>)
      reads inner, inner.values.storage.Obj()
      ensures o == Storage.Lookup(Model().slots, r.index)
    {
      inner.Get(r)
    }

    /** `insert`: a registered value gives its old reference and neither side
        changes; a new one is stored in the shelf and recorded. */
    method Insert(value: V) returns (r: Ref<V>)
      requires Valid() && inner.CanAllocate()
      modifies inner, inner.values.storage.Obj()
      ensures Valid()
      ensures InsertStep(old(Model()), value, r, Model())
      ensures old(Bijective(Model())) ==> Bijective(Model())
      ensures Get(r) == Some(value)
    {
      r := inner.Insert(value);
    }

    /** `remove`: an occupied slot leaves the shelf and its value leaves the
        reverse index; an empty slot gives `None` and changes nothing. */
    method Remove(r: Ref<V>) returns (removed: Option<V>)
      requires Valid() && inner.CanRemove()
      modifies inner, inner.values.storage.Obj()
      ensures Valid()
      ensures RemoveStep(old(Model()), r, removed, Model())
      ensures old(Bijective(Model())) ==> Bijective(Model())
      ensures Get(r) == None
    {
      removed := inner.Remove(r);
    }

    /** `remove_value`: `Some((r, value))` exactly when the value was
        registered, with both sides updated; its `unwrap` cannot fail. */
    method RemoveValue(value: V) returns (removed: Option<(Ref<V>, V)>)
      requires Valid() && inner.CanRemove()
      modifies inner, inner.values.storage.Obj()
      ensures Valid()
      ensures RemoveValueStep(old(Model()), value, removed, Model())
      ensures old(Bijective(Model())) ==> Bijective(Model())
      ensures removed.Some? <==> value in old(Model().index)
      ensures removed.Some? ==> removed.value == (old(Model().index)[value], value)
    {
      removed := inner.RemoveValue(value);
    }
  }
}
