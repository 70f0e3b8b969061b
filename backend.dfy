/** A storage `S` as the generic code sees it. The library is generic over any
    type implementing the capability traits; here `S` ranges over the four
    backends the library provides, and a capability bound such as
    `S: StorageAllocate` becomes a precondition naming the backends that
    implement that trait. Every operation is stated only through the trait
    predicates of module Storage, so the code above relies on nothing else. */
module Backends {
  import opened Wrappers
  import Storage
  import Entries
  import VecImpl
  import HashMapImpl
  import BTreeMapImpl
  import SlabImpl

  datatype Backend<V> =
    | Dense(vec: VecImpl.Vec<V>)
    | Hashed(hash: HashMapImpl.HashMap<V>)
    | Ordered(btree: BTreeMapImpl.BTreeMap<V>)
    | Slotted(slab: SlabImpl.Slab<V>)
  {
    /** The one object holding the backend's state. */
    function Obj(): object
    {
      match this
      case Dense(s) => s
      case Hashed(s) => s
      case Ordered(s) => s
      case Slotted(s) => s
    }

    /** `StorageAllocate`: only the vector implements it. */
    predicate CanAllocate()
    {
      Dense?
    }

    /** `StorageInsert`: only the two maps implement it. */
    predicate CanInsert()
    {
      Hashed? || Ordered?
    }

    /** `StorageRemove`: every backend but the vector implements it. */
    predicate CanRemove()
    {
      !Dense?
    }

    function View(): map<nat, V>
      reads Obj()
    {
      match this
      case Dense(s) => s.View()
      case Hashed(s) => s.View()
      case Ordered(s) => s.View()
      case Slotted(s) => s.View()
    }

    /** `Storage::get`. */
    function Get(index: nat): (r: Option<V>)
      reads Obj()
      ensures r == Storage.Lookup(View(), index)
    {
      match this
      case Dense(s) => s.Get(index)
      case Hashed(s) => s.Get(index)
      case Ordered(s) => s.Get(index)
      case Slotted(s) => s.Get(index)
    }

    /** `Storage::len`: the number of occupied indices. */
    function Len(): (n: nat)
      reads Obj()
      ensures n == |View()|
    {
      match this
      case Dense(s) => s.Len()
      case Hashed(s) => s.Len()
      case Ordered(s) => s.Len()
      case Slotted(s) => s.Len()
    }

    /** `Storage::is_empty`, the trait's default body over `len`: it holds
        exactly when nothing is stored. */
    function IsEmpty(): (b: bool)
      reads Obj()
      ensures b <==> Len() == 0
      ensures b <==> View() == map[]
    {
      assert View() != map[] ==> |View()| > 0 by {
        if View() != map[] {
          var k :| k in View();
        }
      }
      Storage.IsEmpty(Len())
    }

    /** `StorageIter::iter`: every entry once; the vector and the ordered map
        list them by ascending index. */
    method Iter() returns (es: seq<(nat, V)>)
      ensures Entries.ListsEach(es, View())
      ensures Dense? || Ordered? ==> Entries.StrictlyAscending(es)
    {
      match this
      case Dense(s) => es := s.Iter();
      case Hashed(s) => es := s.Iter();
      case Ordered(s) => es := s.Iter();
      case Slotted(s) => es := s.Iter();
    }

    /** `StorageAllocate::allocate`. */
    method Allocate(value: V) returns (index: nat)
      requires CanAllocate()
      modifies Obj()
      ensures Storage.AllocateContract(old(View()), value, index, View())
    {
      index := vec.Allocate(value);
    }

    /** `StorageSet::set`: every backend implements it. */
    method Set(index: nat, value: V) returns (r: Result<V, V>)
      modifies Obj()
      ensures Storage.SetContract(old(View()), index, value, r, View())
    {
      match this
      case Dense(s) => r := s.Set(index, value);
      case Hashed(s) => r := s.Set(index, value);
      case Ordered(s) => r := s.Set(index, value);
      case Slotted(s) => r := s.Set(index, value);
    }

    /** `StorageInsert::insert`. */
    method Insert(index: nat, value: V) returns (previous: Option<V>)
      requires CanInsert()
      modifies Obj()
      ensures Storage.InsertContract(old(View()), index, value, previous, View())
    {
      match this
      case Hashed(s) => previous := s.Insert(index, value);
      case Ordered(s) => previous := s.Insert(index, value);
    }

    /** `StorageRemove::remove`. */
    method Remove(index: nat) returns (removed: Option<V>)
      requires CanRemove()
      modifies Obj()
      ensures Storage.RemoveContract(old(View()), index, removed, View())
    {
      match this
      case Hashed(s) => removed := s.Remove(index);
      case Ordered(s) => removed := s.Remove(index);
      case Slotted(s) => removed := s.Remove(index);
    }

    /** `StorageMut::get_mut` with a write through the returned reference. */
    method GetMut(index: nat, update: V -> V) returns (present: bool)
      modifies Obj()
      ensures Storage.GetMutContract(old(View()), index, update, present, View())
    {
      match this
      case Dense(s) => present := s.GetMut(index, update);
      case Hashed(s) => present := s.GetMut(index, update);
      case Ordered(s) => present := s.GetMut(index, update);
      case Slotted(s) => present := s.GetMut(index, update);
    }

    /** `StorageMut::clear`. */
    method Clear()
      modifies Obj()
      ensures Storage.ClearContract(View())
    {
      match this
      case Dense(s) => s.Clear();
      case Hashed(s) => s.Clear();
      case Ordered(s) => s.Clear();
      case Slotted(s) => s.Clear();
    }
  }
}
