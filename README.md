# shelves, modelled in Dafny

`shelves` is a Rust library of typed references into a storage. A `Ref<T>` is a
`usize` index tagged with the type it points to. A `Shelf<S>` stores values in a
storage `S` and hands out `Ref`s to them. A `Map<K, S>` is a side table: it
attaches values to references of another type `K` through the same kind of
storage. The four dictionaries (`HashDictionary`, `BTreeDictionary`,
`HashConstDictionary`, `BTreeConstDictionary`) intern values: each keeps a shelf
and a reverse index from value to reference, so that inserting an equal value
twice gives the same reference.

What a storage can do is split into capability traits: `Storage` (`get`, `len`,
`is_empty`), `StorageIter`, `StorageMut` (`get_mut`, `clear`), `StorageAllocate`,
`StorageSet`, `StorageInsert` and `StorageRemove`. There are four backends:
`Vec`, `HashMap<usize, _>`, `BTreeMap<usize, _>` and `Slab`.

The model follows that layering:

- `Handle` (handle.dfy) is `Ref`: its index, `new`, `cast`, and the derived
  equality and order.
- `Storage` (storage.dfy) states each trait method as a predicate. The
  predicate relates the storage's *view* before the call, the call's arguments
  and result, and the view after it. The view maps every occupied index to the
  value stored there.
- `VecImpl`, `HashMapImpl`, `BTreeMapImpl` and `SlabImpl` are one class per
  backend. Each class keeps the backend's contents in a field that its methods
  reassign, and each method is proved against the trait predicates the
  backend implements.
- `Entries` (entries.dfy) gives the order in which backends iterate.
- `Backends.Backend` stands for the storage type parameter `S`. It is a choice
  of one of the four backend objects, and its methods dispatch to that object.
  A Rust trait bound such as `S: StorageAllocate` becomes a precondition such
  as `CanAllocate()`.
- `Shelves.Shelf` and `SideTable.Map` are the shelf and the side table.
- `Interning` holds what the four dictionaries share:
  - the abstract state: the reverse index beside the shelf's view;
  - the invariants: `Consistent`, meaning every reverse entry names a slot that
    holds its value, and `Complete`, the converse;
  - one predicate per operation;
  - lemmas about traces of operations;
  - the `Interner` class that the four dictionary classes delegate to.

`Consistent` holds however the storage was populated when the dictionary was
built. `Bijective`, which is `Consistent && Complete`, also holds when the
dictionary was built over an empty storage, and every operation preserves it.
`new` accepts a storage that already holds values, and those values then have
no reverse entry. Inserting one of them again stores a second copy
(`Interning.PopulatedStorageAllowsDuplicate`). That is why `Bijective` is
promised only for dictionaries built empty.

## Model

| member | source | states |
|---|---|---|
| Handle.New | src/lib.rs:45-47 | the reference built from an index carries that index |
| Handle.Ref.Cast | src/lib.rs:55-57 | the cast keeps the index and changes only the type tag |
| Handle.Ref.Compare | src/lib.rs:29-41 | the derived ordering: `Equal` exactly for equal references, and `Less`/`Greater` exactly by index order |
| Handle.CastRoundTrip | src/lib.rs:55-57 | casting to another type and back gives the original reference |
| Handle.EqualIffSameIndex | src/lib.rs:29-41 | two references are equal if and only if their indices are equal |
| Handle.CompareIsTotalOrder | src/lib.rs:29-41 | the derived order is antisymmetric (`Less` one way exactly when `Greater` the other) and transitive |
| Storage.StoredValueIsFound | src/storage.rs:63-79 | `set` succeeds exactly when `insert` would find a previous value, and both return the same old value; after either, `get` finds the new value; a failed `set` gives the value back and changes nothing; no other index changes |
| Entries.DenseView | src/storage/impls/vec.rs:6-8 | a vector's view holds exactly the indices below its length, each mapped to the element at that position |
| Entries.Enumerate | src/storage/impls/vec.rs:22-24 | the pairs of `iter().enumerate()`: one per element, the `j`-th being `(j, s[j])` |
| Entries.Min | src/storage/impls/btree_map.rs:23-25 | the least key of a non-empty key set: it is in the set and no key is smaller |
| Entries.Ascending | src/storage/impls/btree_map.rs:23-25 | an ordered map's iteration lists every entry exactly once, in strictly ascending key order |
| VecImpl.Vec.Get | src/storage/impls/vec.rs:6-8 | `get` finds the element exactly when the index is below the length |
| VecImpl.Vec.Len | src/storage/impls/vec.rs:14-16 | the length is the number of occupied indices |
| VecImpl.Vec.Iter | src/storage/impls/vec.rs:22-24 | iteration yields `(j, elems[j])` for each position, so every entry once and in ascending order |
| VecImpl.Vec.GetMut | src/storage/impls/vec.rs:36-38 | a write through `get_mut` changes only that element, and only when the index is in range |
| VecImpl.Vec.Clear | src/storage/impls/vec.rs:40-42 | afterwards nothing is stored |
| VecImpl.Vec.Allocate | src/storage/impls/vec.rs:54-58 | the value is pushed at the end; the index returned is the old length, which was free |
| VecImpl.Vec.Set | src/storage/impls/vec.rs:62-69 | an in-range index is overwritten and its old value returned; otherwise `Err(value)` and nothing changes |
| HashMapImpl.HashMap.Get | src/storage/impls/hash_map.rs:7-9 | `get` is lookup in the map |
| HashMapImpl.HashMap.Len | src/storage/impls/hash_map.rs:15-17 | the length is the number of entries |
| HashMapImpl.HashMap.Iter | src/storage/impls/hash_map.rs:25-27 | iteration lists every entry exactly once; no order is promised |
| HashMapImpl.HashMap.GetMut | src/storage/impls/hash_map.rs:39-41 | a write through `get_mut` changes only that entry, and only when it exists |
| HashMapImpl.HashMap.Clear | src/storage/impls/hash_map.rs:43-45 | afterwards nothing is stored |
| HashMapImpl.HashMap.Set | src/storage/impls/hash_map.rs:59-64 | an existing key is overwritten and its old value returned; a missing key gives `Err(value)` and nothing changes |
| HashMapImpl.HashMap.Insert | src/storage/impls/hash_map.rs:68-70 | the value is stored at the key, and whatever was there before is returned |
| HashMapImpl.HashMap.Remove | src/storage/impls/hash_map.rs:74-76 | the key is removed and whatever was there is returned |
| BTreeMapImpl.BTreeMap.Get | src/storage/impls/btree_map.rs:7-9 | `get` is lookup in the map |
| BTreeMapImpl.BTreeMap.Capacity | src/storage/impls/btree_map.rs:11-13 | the capacity reported is the length |
| BTreeMapImpl.BTreeMap.Len | src/storage/impls/btree_map.rs:15-17 | the length is the number of entries |
| BTreeMapImpl.BTreeMap.Iter | src/storage/impls/btree_map.rs:23-25 | iteration lists every entry exactly once, in strictly ascending key order |
| BTreeMapImpl.BTreeMap.GetMut | src/storage/impls/btree_map.rs:37-39 | a write through `get_mut` changes only that entry, and only when it exists |
| BTreeMapImpl.BTreeMap.Clear | src/storage/impls/btree_map.rs:41-43 | afterwards nothing is stored |
| BTreeMapImpl.BTreeMap.Set | src/storage/impls/btree_map.rs:55-60 | an existing key is overwritten and its old value returned; a missing key gives `Err(value)` and nothing changes |
| BTreeMapImpl.BTreeMap.Insert | src/storage/impls/btree_map.rs:64-66 | the value is stored at the key, and whatever was there before is returned |
| BTreeMapImpl.BTreeMap.Remove | src/storage/impls/btree_map.rs:70-72 | the key is removed and whatever was there is returned |
| SlabImpl.Slab.Contains | src/storage/impls/slab.rs:56-67 | `contains`, the guard of `set` and `remove`, holds exactly when `get` finds a value in the slot |
| SlabImpl.Slab.Get | src/storage/impls/slab.rs:7-9 | `get` finds a value exactly at an occupied slot |
| SlabImpl.Slab.Len | src/storage/impls/slab.rs:15-17 | the length is the number of occupied slots |
| SlabImpl.Slab.Iter | src/storage/impls/slab.rs:23-25 | iteration lists every occupied slot exactly once |
| SlabImpl.Slab.GetMut | src/storage/impls/slab.rs:37-39 | a write through `get_mut` changes only that slot, and only when it is occupied |
| SlabImpl.Slab.Clear | src/storage/impls/slab.rs:41-43 | afterwards no slot is occupied |
| SlabImpl.Slab.Set | src/storage/impls/slab.rs:55-62 | an occupied slot is overwritten and its old value returned (the swap); otherwise `Err(value)` and nothing changes |
| SlabImpl.Slab.Remove | src/storage/impls/slab.rs:66-72 | an occupied slot is freed and its value returned; otherwise `None` and nothing changes |
| Backends.Backend.Get | src/storage.rs:11 | `Storage::get` on any backend is lookup in its view |
| Backends.Backend.Len | src/storage.rs:17 | `Storage::len` on any backend is the size of its view |
| Backends.Backend.IsEmpty | src/storage.rs:20-22 | the default `is_empty` is `len() == 0`, and it holds exactly when nothing is stored |
| Backends.Backend.Iter | src/storage.rs:30 | `StorageIter::iter` lists every stored entry once; on the vector and the ordered map, in ascending index order |
| Backends.Backend.GetMut | src/storage.rs:40 | `StorageMut::get_mut` followed by a write changes only the occupied slot it names |
| Backends.Backend.Clear | src/storage.rs:42 | `StorageMut::clear` leaves nothing stored |
| Backends.Backend.Allocate | src/storage.rs:53-56 | `StorageAllocate::allocate` stores the value at a previously free index and changes nothing else |
| Backends.Backend.Set | src/storage.rs:63-69 | `StorageSet::set` overwrites an occupied index and returns the old value, or returns `Err(value)` and changes nothing |
| Backends.Backend.Insert | src/storage.rs:71-79 | `StorageInsert::insert` stores at the index, allocating it if needed, and returns what was there |
| Backends.Backend.Remove | src/storage.rs:91-93 | `StorageRemove::remove` frees the index and returns what was there |
| Shelves.Shelf.constructor | src/shelf.rs:14-16 | a new shelf sees exactly what its storage holds |
| Shelves.Shelf.Len | src/shelf.rs:77-79 | the number of values on the shelf |
| Shelves.Shelf.IsEmpty | src/shelf.rs:81-83 | empty exactly when the length is zero, which is exactly when nothing is stored |
| Shelves.Shelf.Get | src/shelf.rs:85-97 | `get` (and `borrow`) finds the value at the reference's index, if any |
| Shelves.Shelf.Iter | src/shelf.rs:28-49 | iteration yields each stored value once, behind a reference that finds it, by ascending index on the vector and the ordered map |
| Shelves.Shelf.GetMut | src/shelf.rs:108-113 | a write through `get_mut` changes only the referenced value, and only if it is there |
| Shelves.Shelf.Insert | src/shelf.rs:117-119 | the value is allocated at a fresh index, and the returned reference finds it |
| Shelves.Shelf.Set | src/shelf.rs:129-134 | `set` through a reference, with the storage's `set` contract |
| Shelves.Shelf.Remove | src/shelf.rs:138-143 | the referenced value is removed and returned; afterwards the reference finds nothing |
| Shelves.Shelf.SetOrRemove | src/shelf.rs:147-159 | `Some(v)` behaves as `set`, with the old value wrapped in `Some`; `None` behaves as `remove` and always succeeds |
| SideTable.Map.constructor | src/map.rs:19-24 | a new side table sees exactly what its storage holds |
| SideTable.Map.Get | src/map.rs:36-38 | the value attached to the reference's index, if any |
| SideTable.Map.GetMut | src/map.rs:42-44 | a write through `get_mut` changes only the attached value, and only if there is one |
| SideTable.Map.Insert | src/map.rs:48-50 | the value is attached at the reference's index and the previous one returned; the reference then finds it, and only that index is added |
| Interning.InsertKeeps | src/hash_dictionary.rs:98-111 | `insert` preserves both halves of the invariant, afterwards `get` on the returned reference finds the value, and the reverse index grows by one exactly for a new value |
| Interning.RemoveKeeps | src/hash_dictionary.rs:115-126 | `remove` preserves both halves of the invariant; afterwards the reference finds nothing; removing an empty slot changes nothing |
| Interning.RemoveValueKeeps | src/hash_dictionary.rs:128-135 | `remove_value` preserves `Consistent` and `Bijective`, and the value it returns is the one asked for |
| Interning.RemoveValueNeverPanics | src/hash_dictionary.rs:128-135 | under `Consistent`, for every registered value the `unwrap` in `remove_value` finds an occupied slot |
| Interning.InsertIdempotent | src/hash_dictionary.rs:98-111 | inserting the same value twice gives the same reference, and the second insert changes nothing |
| Interning.RemoveThenAbsent | src/hash_dictionary.rs:115-126 | after `remove(r)`, `get(r)` is `None` and a second `remove(r)` returns `None` and changes nothing |
| Interning.OneCopyPerValue | src/hash_dictionary.rs:7-10 | when both sides agree, no value is stored at two indices and no two values share a reference |
| Interning.SizesAgree | src/btree_dictionary.rs:29-31 | when both sides agree, the reverse index has exactly as many entries as the shelf has values |
| Interning.TraceKeepsBijection | src/hash_dictionary.rs:98-135 | every state reached from an empty dictionary by any sequence of `insert`, `remove` and `remove_value` has both sides in agreement |
| Interning.Scenario | src/hash_dictionary.rs:98-135 | inserting "a", "b", "a" gives two references and two stored values; then `remove_value("b")` returns b's reference, and "a" is still found |
| Interning.PopulatedStorageAllowsDuplicate | src/hash_dictionary.rs:23-28 | a dictionary built over a storage that already holds "a" stores a second copy on `insert("a")`; only `Consistent` survives |
| Interning.Interner.constructor | src/hash_dictionary.rs:23-28 | `new`: an empty reverse index beside the given shelf, `Consistent` at once, and `Bijective` if the shelf is empty |
| Interning.Interner.Get | src/hash_dictionary.rs:67-72 | `get` is the shelf's lookup |
| Interning.Interner.Len | src/btree_dictionary.rs:29-31 | `len` is the reverse index's size, and equals the number of stored values when both sides agree |
| Interning.Interner.IsEmpty | src/btree_dictionary.rs:33-35 | empty exactly when `len` is zero |
| Interning.Interner.Insert | src/hash_dictionary.rs:98-111 | the insert step: a registered value gives back its reference, a new one is allocated and recorded; the invariants are kept and the reference finds the value |
| Interning.Interner.Remove | src/hash_dictionary.rs:115-126 | the remove step: the slot is removed, and its value leaves the reverse index; the invariants are kept |
| Interning.Interner.RemoveValue | src/hash_dictionary.rs:128-135 | the remove_value step: `Some((r, value))` exactly for a registered value, with both sides updated and the invariants kept |
| HashDictionaries.HashDictionary.constructor | src/hash_dictionary.rs:23-28 | a dictionary over the given storage, with an empty reverse index; `Bijective` when the storage is empty |
| HashDictionaries.HashDictionary.Get | src/hash_dictionary.rs:67-72 | the value behind the reference |
| HashDictionaries.HashDictionary.Insert | src/hash_dictionary.rs:98-111 | the insert step; the returned reference finds the value, and the invariants are kept |
| HashDictionaries.HashDictionary.Remove | src/hash_dictionary.rs:115-126 | the remove step; the reference then finds nothing |
| HashDictionaries.HashDictionary.RemoveValue | src/hash_dictionary.rs:128-135 | the remove_value step; `Some((r, value))` exactly for a registered value |
| BTreeDictionaries.BTreeDictionary.constructor | src/btree_dictionary.rs:22-27 | a dictionary over the given storage, with an empty reverse index; `Bijective` when the storage is empty |
| BTreeDictionaries.BTreeDictionary.Len | src/btree_dictionary.rs:29-31 | the reverse index's size; the number of stored values when both sides agree |
| BTreeDictionaries.BTreeDictionary.IsEmpty | src/btree_dictionary.rs:33-35 | empty exactly when `len` is zero |
| BTreeDictionaries.BTreeDictionary.Get | src/btree_dictionary.rs:75-80 | the value behind the reference |
| BTreeDictionaries.BTreeDictionary.Insert | src/btree_dictionary.rs:106-119 | the insert step; `len` grows by one exactly for a new value |
| BTreeDictionaries.BTreeDictionary.Remove | src/btree_dictionary.rs:123-134 | the remove step; the reference then finds nothing |
| BTreeDictionaries.BTreeDictionary.RemoveValue | src/btree_dictionary.rs:136-143 | the remove_value step; `Some((r, value))` exactly for a registered value |
| HashConstDictionaries.HashConstDictionary.constructor | src/hash_const_dictionary.rs:24-29 | a dictionary over the given storage, with an empty reverse index; `Bijective` when the storage is empty |
| HashConstDictionaries.HashConstDictionary.Len | src/hash_const_dictionary.rs:31-33 | the reverse index's size; the number of stored values when both sides agree |
| HashConstDictionaries.HashConstDictionary.IsEmpty | src/hash_const_dictionary.rs:35-37 | empty exactly when `len` is zero |
| HashConstDictionaries.HashConstDictionary.Get | src/hash_const_dictionary.rs:77-82 | the value behind the reference |
| HashConstDictionaries.HashConstDictionary.Insert | src/hash_const_dictionary.rs:108-122 | the insert step through a shared receiver; `len` grows by one exactly for a new value |
| HashConstDictionaries.HashConstDictionary.Remove | src/hash_const_dictionary.rs:126-138 | the remove step; the reference then finds nothing |
| HashConstDictionaries.HashConstDictionary.RemoveValue | src/hash_const_dictionary.rs:140-147 | the remove_value step; `Some((r, value))` exactly for a registered value |
| BTreeConstDictionaries.BTreeConstDictionary.constructor | src/btree_const_dictionary.rs:23-28 | a dictionary over the given storage, with an empty reverse index; `Bijective` when the storage is empty |
| BTreeConstDictionaries.BTreeConstDictionary.Len | src/btree_const_dictionary.rs:30-32 | the reverse index's size; the number of stored values when both sides agree |
| BTreeConstDictionaries.BTreeConstDictionary.IsEmpty | src/btree_const_dictionary.rs:34-36 | empty exactly when `len` is zero |
| BTreeConstDictionaries.BTreeConstDictionary.Get | src/btree_const_dictionary.rs:76-81 | the value behind the reference |
| BTreeConstDictionaries.BTreeConstDictionary.Insert | src/btree_const_dictionary.rs:107-121 | the insert step through a shared receiver; `len` grows by one exactly for a new value |
| BTreeConstDictionaries.BTreeConstDictionary.Remove | src/btree_const_dictionary.rs:125-137 | the remove step; the reference then finds nothing |
| BTreeConstDictionaries.BTreeConstDictionary.RemoveValue | src/btree_const_dictionary.rs:139-146 | the remove_value step; `Some((r, value))` exactly for a registered value |

## Left out

- Integer width: `usize` is modelled as `nat`. Index overflow and the capacity overflow panic of `Vec::push` are not modelled.
- HashMapImpl.HashMap.Iter: promises every entry once but no order, since the standard hash map's order is unspecified. It is a method, so callers see only that contract and cannot derive the ascending order its body happens to use. The same holds for `Backends.Backend.Iter` and `Shelves.Shelf.Iter` over a hash map.
- SlabImpl.Slab.Iter: promises every occupied slot once but no order, because src/storage/impls/slab.rs:23-25 delegates to the `slab` crate's own iterator, which is not part of this model. It is a method, like the hash map's, so no order can be derived from it.
- `capacity` of `Vec`, `HashMap` and `Slab`: it reports allocator state, which the model does not have.
- `into_iter` and `iter_mut` of every backend and of the shelf: they consume or mutably borrow the storage and yield what `iter` yields. The model covers `iter` only.
- `StorageAllocateConst::allocate_const` and `Shelf::insert_const`: none of the four backends implements them. The const dictionaries' `insert` is modelled over ordinary `allocate` on the vector backend, with an update in place instead of the `RefCell` borrow.
- `StorageInsertConst`: declared but implemented by none of the backends and used by none of the modelled code.
- `RefCell` borrow flags of the const dictionaries: the model is sequential, and none of the modelled operations takes a second borrow on its own. Borrows a caller holds open across a call are a separate matter, covered by the `as_map` line below.
- `Borrow`/`BorrowMut` projections: `borrow` and `borrow_mut` are modelled as `get` and `get_mut`, so the projection is the identity.
- `get_mut` is modelled as a write-through update function (`update: V -> V`) applied to the slot, instead of a returned mutable reference.
- The dictionaries' `get_mut` and `borrow_mut`: a write through them can change a stored value without updating the reverse index, which breaks `Consistent`. They are not modelled.
- `Default`, `into_storage`, `as_storage`, `as_map` and similar accessors: they construct the dictionary or expose the storage, the shelf or the reverse index. `new` over an empty storage stands for `Default`.
- `as_map` of `HashConstDictionary` and `BTreeConstDictionary` (src/hash_const_dictionary.rs:48-50, src/btree_const_dictionary.rs:47-49) hands out the `RefCell` itself. Through `&self` a caller can rewrite the reverse index and break `Consistent`, after which the `unwrap` in `remove_value` can panic. A caller can also hold a borrow open so that the `borrow_mut` in `insert` panics. Neither is modelled: the invariant and the no-panic results hold only while the reverse index changes through the dictionary's own operations.
- `MapStorageIter` (src/storage/impls.rs:8-24): the hash-map backend's iterator adapter, which only dereferences keys. Iteration is modelled as a sequence of (index, value) pairs.
- The reverse index is a Dafny `map`, whether the source uses a `HashMap` or a `BTreeMap`.
- `Clone`: each dictionary's `insert` stores `entry.key().clone()` in the shelf and keeps the original as the reverse-index key. The model stores the value itself on both sides, so it assumes a clone is `Eq` to its original; `Consistent` after `insert` depends on this.
- Hashing and ordering of values: the model takes Dafny equality as the values' `Eq`, and it assumes `Hash` and `Ord` agree with `Eq`.
- The slab's free-list reuse of indices: `Allocate` is modelled for the vector only, because the slab backend does not implement `StorageAllocate`.
- A single backend with both `allocate` and `remove`: none of the four backends implements both. A dictionary over a given backend can therefore use either `insert` or the two remove operations, but not both.
- serde serialization of shelves and dictionaries.
