/** The `Vec<T>` backend (src/storage/impls/vec.rs): a dense vector. Index `i`
    is occupied exactly when `i < len`; allocation appends, `set` swaps in place,
    and nothing is ever removed. */
module VecImpl {
  import opened Wrappers
  import Storage
  import Entries

  class Vec<V> {
    var elems: seq<V>

    /** A vector holding `elems` (`Vec::new` when `elems` is empty). */
    constructor (elems: seq<V>)
      ensures this.elems == elems
    {
      this.elems := elems;
    }

    /** The storage view: every position below the length, with its element. */
    function View(): map<nat, V>
      reads this
    {
      Entries.DenseView(elems)
    }

    /** `get`: the element at `index` when it is below the length. */
    function Get(index: nat): (r: Option<V>)
      reads this
      ensures r == Storage.Lookup(View(), index)
      ensures r.Some? <==> index < |elems|
    {
      if index < |elems| then Some(elems[index]) else None
    }

    /** `len`: the number of elements, which is the number of occupied indices. */
    function Len(): (n: nat)
      reads this
      ensures n == |View()|
    {
      |elems|
    }

    /** `iter`: `(i, elems[i])` for every position, in ascending order. */
    function Iter(): (es: seq<(nat, V)>)
      reads this
      ensures |es| == |elems|
      ensures forall j :: 0 <= j < |es| ==> es[j] == (j, elems[j])
      ensures Entries.ListsEach(es, View()) && Entries.StrictlyAscending(es)
    {
      var es := Entries.Enumerate(elems);
      forall i | i in View() ensures (i, View()[i]) in es {
        assert es[i] == (i, elems[i]);
      }
      es
    }

    /** `get_mut` with a write `update` through the reference it returns. */
    method GetMut(index: nat, update: V -> V) returns (present: bool)
      modifies this
      ensures present == (index < old(|elems|))
      ensures elems == if present then old(elems)[index := update(old(elems)[index])] else old(elems)
      ensures Storage.GetMutContract(old(View()), index, update, present, View())
    {
      present := index < |elems|;
      if present {
        elems := elems[index := update(elems[index])];
        assert View() == old(View())[index := update(old(elems)[index])];
      }
    }

    /** `clear`: the vector becomes empty. */
    method Clear()
      modifies this
      ensures elems == []
      ensures Storage.ClearContract(View())
    {
      elems := [];
    }

    /** `allocate`: the old length is the new index, and the value is pushed. */
    method Allocate(value: V) returns (index: nat)
      modifies this
      ensures index == old(|elems|)
      ensures elems == old(elems) + [value]
      ensures Storage.AllocateContract(old(View()), value, index, View())
    {
      index := |elems|;
      elems := elems + [value];
      assert View() == old(View())[index := value];
    }

    /** `set`: below the length the value is swapped in and the old one
        returned; at or past the length the value is handed back. */
    method Set(index: nat, value: V) returns (r: Result<V, V>)
      modifies this
      ensures index < old(|elems|) ==> r == Ok(old(elems)[index]) && elems == old(elems)[index := value]
      ensures old(|elems|) <= index ==> r == Err(value) && elems == old(elems)
      ensures Storage.SetContract(old(View()), index, value, r, View())
    {
      if index < |elems| {
        r := Ok(elems[index]);
        elems := elems[index := value];
        assert View() == old(View())[index := value];
      } else {
        r := Err(value);
      }
    }
  }
}
