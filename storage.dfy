/** The storage capability traits (src/storage.rs). A backend is seen through its
    view: the map from every occupied index to the value held there. Each trait
    method becomes a predicate relating the view before a call, the call's
    arguments and result, and the view after it; every backend proves its
    methods satisfy the predicates of the traits it implements. */
module Storage {
  import opened Wrappers

  /** `Storage::get` on a view. */
  function Lookup<V>(view: map<nat, V>, index: nat): Option<V>
  {
    if index in view then Some(view[index]) else None
  }

  /** `Storage::is_empty`, the trait's default body over `len`. */
  predicate IsEmpty(len: nat)
  {
    len == 0
  }

  /** `StorageAllocate::allocate` (and `allocate_const`, the same contract
      behind a shared receiver): the value is stored at an index that was not
      occupied, and no other slot changes. */
  ghost predicate AllocateContract<V>(before: map<nat, V>, value: V, index: nat, after: map<nat, V>)
  {
    index !in before && after == before[index := value]
  }

  /** `StorageSet::set`: on an occupied index the value replaces the old one,
      which is returned; otherwise the value comes back as `Err` and nothing
      changes. */
  ghost predicate SetContract<V>(before: map<nat, V>, index: nat, value: V, result: Result<V, V>, after: map<nat, V>)
  {
    if index in before then result == Ok(before[index]) && after == before[index := value]
    else result == Err(value) && after == before
  }

  /** `StorageInsert::insert`: stores at any index, allocating it if needed, and
      returns what was there. */
  ghost predicate InsertContract<V>(before: map<nat, V>, index: nat, value: V, previous: Option<V>, after: map<nat, V>)
  {
    previous == Lookup(before, index) && after == before[index := value]
  }

  /** `StorageRemove::remove`: frees the index and returns what was there. */
  ghost predicate RemoveContract<V>(before: map<nat, V>, index: nat, removed: Option<V>, after: map<nat, V>)
  {
    removed == Lookup(before, index) && after == before - {index}
  }

  /** `StorageMut::get_mut` followed by a write `update` through the returned
      reference: only the slot at `index` changes, and only if it is occupied. */
  ghost predicate GetMutContract<V>(before: map<nat, V>, index: nat, update: V -> V, present: bool, after: map<nat, V>)
  {
    present == (index in before)
    && after == if present then before[index := update(before[index])] else before
  }

  /** `StorageMut::clear`: nothing stays stored. */
  ghost predicate ClearContract<V>(after: map<nat, V>)
  {
    after == map[]
  }

  /** After a successful `set` or an `insert`, `get` finds the new value; after
      a failed `set` or a `remove`, nothing else has moved. */
  lemma StoredValueIsFound<V>(before: map<nat, V>, index: nat, value: V, result: Result<V, V>, previous: Option<V>, after1: map<nat, V>, after2: map<nat, V>)
    requires SetContract(before, index, value, result, after1)
    requires InsertContract(before, index, value, previous, after2)
    ensures result.Ok? <==> previous.Some?
    ensures result.Ok? ==> Lookup(after1, index) == Some(value) && previous == Some(result.value)
    ensures result.Err? ==> after1 == before && result.error == value
    ensures Lookup(after2, index) == Some(value)
    ensures forall k :: k != index ==> Lookup(after1, k) == Lookup(before, k) == Lookup(after2, k)
  {
  }
}
