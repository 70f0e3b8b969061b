/** `Shelf<S>` (src/shelf.rs): owns one storage and lets callers reach its
    values through typed references. A value's `Borrow` projection is taken to be
    the value itself, so `borrow` is `get`. */
module Shelves {
  import opened Wrappers
  import opened Handle
  import Storage
  import Entries
  import opened Backends

  class Shelf<V> {
    /** The owned storage; the object it names is updated in place. */
    const storage: Backend<V>

    /** `Shelf::new`: takes over a storage as it is. */
    constructor (storage: Backend<V>)
      ensures this.storage == storage
    {
      this.storage := storage;
    }

    /** What the shelf holds: the storage's view. */
    function View(): map<nat, V>
      reads storage.Obj()
    {
      storage.View()
    }

    /** `len`: the number of stored values. */
    function Len(): (n: nat)
      reads storage.Obj()
      ensures n == |View()|
    {
      storage.Len()
    }

    /** `is_empty`: exactly when nothing is stored. */
    function IsEmpty(): (b: bool)
      reads storage.Obj()
      ensures b <==> Len() == 0
      ensures b <==> View() == map[]
    {
      storage.IsEmpty()
    }

    /** `get` (and `borrow`): the value at the reference's index, if any. */
    function Get(r: Ref<V>): (o: Option<V>)
      reads storage.Obj()
      ensures o == Storage.Lookup(View(), r.index)
    {
      storage.Get(r.index)
    }

    /** `iter`: each storage pair `(i, v)` becomes `(Ref::new(i), v)`, in the
        storage's order. So every stored value comes once, behind a reference
        that finds it, and by ascending index where the storage orders them. */
    method Iter() returns (it: seq<(Ref<V>, V)>)
      ensures |it| == Len()
      ensures forall j :: 0 <= j < |it| ==> Get(it[j].0) == Some(it[j].1)
      ensures forall j, k :: 0 <= j < k < |it| ==> it[j].0 != it[k].0
      ensures forall i :: i in View() ==> (New(i), View()[i]) in it
      ensures storage.Dense? || storage.Ordered? ==>
                forall j, k :: 0 <= j < k < |it| ==> it[j].0.index < it[k].0.index
    {
      var es := storage.Iter();
      it := seq(|es|, j requires 0 <= j < |es| => (New(es[j].0), es[j].1));
      forall i | i in View() ensures (New(i), View()[i]) in it {
        var j :| 0 <= j < |es| && es[j] == (i, View()[i]);
        assert it[j] == (New(i), View()[i]);
      }
    }

    /** `insert`: the storage allocates an index for the value and the shelf
        returns a reference to it. */
    method Insert(value: V) returns (r: Ref<V>)
      requires storage.CanAllocate()
      modifies storage.Obj()
      ensures Storage.AllocateContract(old(View()), value, r.index, View())
      ensures Get(r) == Some(value)
    {
      var index := storage.Allocate(value);
      r := New(index);
    }

    /** `set`: exactly the storage's `set` at the reference's index. */
    method Set(r: Ref<V>, value: V) returns (result: Result<V, V>)
      modifies storage.Obj()
      ensures Storage.SetContract(old(View()), r.index, value, result, View())
    {
      result := storage.Set(r.index, value);
    }

    /** `remove`: exactly the storage's `remove` at the reference's index. */
    method Remove(r: Ref<V>) returns (removed: Option<V>)
      requires storage.CanRemove()
      modifies storage.Obj()
      ensures Storage.RemoveContract(old(View()), r.index, removed, View())
      ensures Get(r) == None
    {
      removed := storage.Remove(r.index);
    }

    /** `set_or_remove`: with a value it is `set` with the old value wrapped in
        `Some`; without one it is `remove`, which cannot fail. */
    method SetOrRemove(r: Ref<V>, value: Option<V>) returns (result: Result<Option<V>, V>)
      requires storage.CanRemove()
      modifies storage.Obj()
      ensures value.Some? && r.index in old(View()) ==>
                result == Ok(Some(old(View())[r.index])) && View() == old(View())[r.index := value.value]
      ensures value.Some? && r.index !in old(View()) ==> result == Err(value.value) && View() == old(View())
      ensures value.None? ==> result.Ok? && Storage.RemoveContract(old(View()), r.index, result.value, View())
    {
      match value
      case Some(v) =>
        var outcome := storage.Set(r.index, v);
        result := if outcome.Ok? then Ok(Some(outcome.value)) else Err(outcome.error);
      case None =>
        var removed := storage.Remove(r.index);
        result := Ok(removed);
    }

    /** `get_mut` (and `borrow_mut`) with a write `update` through the returned
        reference. */
    method GetMut(r: Ref<V>, update: V -> V) returns (present: bool)
      modifies storage.Obj()
      ensures Storage.GetMutContract(old(View()), r.index, update, present, View())
    {
      present := storage.GetMut(r.index, update);
    }
  }
}
