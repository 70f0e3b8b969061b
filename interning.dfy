/** What the four dictionaries (src/hash_dictionary.rs, src/btree_dictionary.rs,
    src/hash_const_dictionary.rs, src/btree_const_dictionary.rs) have in common.
    Each pairs a shelf (reference to value) with a reverse index (value to
    reference). Whether that index hashes or orders its keys, and whether
    `insert` goes through `&mut self` or a `RefCell`, changes nothing
    observable, so one abstract state, one set of steps and one class serve
    all four. */
module Interning {
  import opened Wrappers
  import opened Handle
  import Storage
  import opened Backends
  import opened Shelves

  /** A dictionary seen abstractly: the reverse index and the shelf's view. */
  datatype State<V(==)> = State(index: map<V, Ref<V>>, slots: map<nat, V>)

  /** Every reverse-index entry points at a slot holding its own value. */
  ghost predicate Consistent<V>(s: State<V>)
  {
    forall v :: v in s.index ==> s.index[v].index in s.slots && s.slots[s.index[v].index] == v
  }

  /** Every stored value has a reverse-index entry pointing back at its slot. */
  ghost predicate Complete<V>(s: State<V>)
  {
    forall i :: i in s.slots ==> s.slots[i] in s.index && s.index[s.slots[i]].index == i
  }

  /** The two sides are mutually inverse on what is present. */
  ghost predicate Bijective<V>(s: State<V>)
  {
    Consistent(s) && Complete(s)
  }

  /** `insert`: a registered value gives back its reference and nothing
      changes; a new value is allocated in the shelf and recorded. */
  ghost predicate InsertStep<V>(s: State<V>, value: V, r: Ref<V>, t: State<V>)
  {
    if value in s.index then r == s.index[value] && t == s
    else Storage.AllocateContract(s.slots, value, r.index, t.slots) && t.index == s.index[value := r]
  }

  /** `remove`: the shelf's `remove`; a value taken out of the shelf is also
      dropped from the reverse index. */
  ghost predicate RemoveStep<V>(s: State<V>, r: Ref<V>, removed: Option<V>, t: State<V>)
  {
    && Storage.RemoveContract(s.slots, r.index, removed, t.slots)
    && t.index == if removed.Some? then s.index - {removed.value} else s.index
  }

  /** `remove_value`: the reverse-index entry is dropped and the slot it named
      is removed from the shelf, which must hold it (the `unwrap`). */
  ghost predicate RemoveValueStep<V>(s: State<V>, value: V, removed: Option<(Ref<V>, V)>, t: State<V>)
  {
    if value in s.index then
      var r := s.index[value];
      && r.index in s.slots
      && removed == Some((r, s.slots[r.index]))
      && t == State(s.index - {value}, s.slots - {r.index})
    else removed == None && t == s
  }

  /** `insert` keeps both halves of the invariant, and afterwards the returned
      reference finds the value: `get(insert(v)) == Some(v)`. */
  lemma InsertKeeps<V>(s: State<V>, value: V, r: Ref<V>, t: State<V>)
    requires InsertStep(s, value, r, t)
    ensures Consistent(s) ==> Consistent(t) && Storage.Lookup(t.slots, r.index) == Some(value)
    ensures Complete(s) ==> Complete(t)
    ensures |t.index| == if value in s.index then |s.index| else |s.index| + 1
  {
  }

  /** `remove` keeps both halves of the invariant; afterwards the reference
      finds nothing. */
  lemma RemoveKeeps<V>(s: State<V>, r: Ref<V>, removed: Option<V>, t: State<V>)
    requires RemoveStep(s, r, removed, t)
    ensures Consistent(s) ==> Consistent(t)
    ensures Complete(s) ==> Complete(t)
    ensures Storage.Lookup(t.slots, r.index) == None
    ensures removed.None? ==> t == s
  {
    if Complete(s) && removed.Some? {
      forall i | i in t.slots ensures t.slots[i] in t.index && t.index[t.slots[i]].index == i {
        assert s.slots[i] != removed.value;
      }
    }
  }

  /** `remove_value` keeps both halves of the invariant. */
  lemma RemoveValueKeeps<V>(s: State<V>, value: V, removed: Option<(Ref<V>, V)>, t: State<V>)
    requires RemoveValueStep(s, value, removed, t)
    ensures Consistent(s) ==> Consistent(t)
    ensures Bijective(s) ==> Bijective(t)
    ensures Consistent(s) && removed.Some? ==> removed.value.1 == value
  {
    if Bijective(s) && value in s.index {
      var r := s.index[value];
      forall i | i in t.slots ensures t.slots[i] in t.index && t.index[t.slots[i]].index == i {
        assert i != r.index;
        assert s.slots[i] != value;
      }
    }
  }

  /** Under the weaker half alone, the slot `remove_value` unwraps is there. */
  lemma RemoveValueNeverPanics<V>(s: State<V>, value: V)
    requires Consistent(s)
    ensures value in s.index ==> exists removed, t :: RemoveValueStep(s, value, removed, t)
  {
    if value in s.index {
      var r := s.index[value];
      var t := State(s.index - {value}, s.slots - {r.index});
      assert RemoveValueStep(s, value, Some((r, s.slots[r.index])), t);
    }
  }

  /** Inserting an equal value twice gives one reference and one stored copy. */
  lemma InsertIdempotent<V>(s: State<V>, value: V, r1: Ref<V>, t1: State<V>, r2: Ref<V>, t2: State<V>)
    requires InsertStep(s, value, r1, t1) && InsertStep(t1, value, r2, t2)
    ensures r1 == r2 && t2 == t1
  {
  }

  /** After `remove(r)`, `get(r)` is absent and a second `remove(r)` returns
      `None` and changes nothing. */
  lemma RemoveThenAbsent<V>(s: State<V>, r: Ref<V>, removed1: Option<V>, t1: State<V>, removed2: Option<V>, t2: State<V>)
    requires RemoveStep(s, r, removed1, t1) && RemoveStep(t1, r, removed2, t2)
    ensures Storage.Lookup(t1.slots, r.index) == None
    ensures removed2 == None && t2 == t1
  {
  }

  /** Interning: when both sides agree, no value is stored twice and no two
      values share a reference. */
  lemma OneCopyPerValue<V>(s: State<V>, i: nat, j: nat, v: V, w: V)
    requires Bijective(s)
    ensures i in s.slots && j in s.slots && s.slots[i] == s.slots[j] ==> i == j
    ensures v in s.index && w in s.index && s.index[v] == s.index[w] ==> v == w
  {
  }

  /** When both sides agree, the reverse index has as many entries as the shelf
      holds values: a dictionary's `len` counts its stored values. */
  lemma {:induction false} SizesAgree<V>(s: State<V>)
    requires Bijective(s)
    ensures |s.index| == |s.slots|
    decreases |s.slots|
  {
    if s.slots != map[] {
      var i :| i in s.slots;
      var v := s.slots[i];
      var t := State(s.index - {v}, s.slots - {i});
      assert Bijective(t) by {
        forall w | w in t.index ensures t.index[w].index in t.slots && t.slots[t.index[w].index] == w {
          assert s.index[w].index != i;
        }
        forall k | k in t.slots ensures t.slots[k] in t.index && t.index[t.slots[k]].index == k {
          assert s.slots[k] != v;
        }
      }
      SizesAgree(t);
      assert |t.index| == |s.index| - 1;
      assert |t.slots| == |s.slots| - 1;
    }
  }

  /** One step of any dictionary operation. */
  ghost predicate Step<V(!new)>(s: State<V>, t: State<V>)
  {
    || (exists v, r :: InsertStep(s, v, r, t))
    || (exists r, removed :: RemoveStep(s, r, removed, t))
    || (exists v, removed :: RemoveValueStep(s, v, removed, t))
  }

  /** Starting from an empty dictionary, every state any sequence of `insert`,
      `remove` and `remove_value` reaches has both sides in agreement. */
  lemma {:induction false} TraceKeepsBijection<V(!new)>(trace: seq<State<V>>)
    requires |trace| > 0 && trace[0] == State(map[], map[])
    requires forall j :: 0 < j < |trace| ==> Step(trace[j - 1], trace[j])
    ensures forall j :: 0 <= j < |trace| ==> Bijective(trace[j])
  {
    if |trace| > 1 {
      var prefix := trace[..|trace| - 1];
      assert forall j :: 0 < j < |prefix| ==> Step(prefix[j - 1], prefix[j]) by {
        forall j | 0 < j < |prefix| ensures Step(prefix[j - 1], prefix[j]) {
          assert prefix[j - 1] == trace[j - 1] && prefix[j] == trace[j];
        }
      }
      TraceKeepsBijection(prefix);
      var s, t := trace[|trace| - 2], trace[|trace| - 1];
      assert Bijective(s) by {
        assert s == prefix[|prefix| - 1];
      }
      assert Step(s, t);
      if exists v, r :: InsertStep(s, v, r, t) {
        var v, r :| InsertStep(s, v, r, t);
        InsertKeeps(s, v, r, t);
      } else if exists r, removed :: RemoveStep(s, r, removed, t) {
        var r, removed :| RemoveStep(s, r, removed, t);
        RemoveKeeps(s, r, removed, t);
      } else {
        var v, removed :| RemoveValueStep(s, v, removed, t);
        RemoveValueKeeps(s, v, removed, t);
      }
      forall j | 0 <= j < |trace| ensures Bijective(trace[j]) {
        if j < |trace| - 1 {
          assert trace[j] == prefix[j];
        }
      }
    }
  }

  /** A worked run: `insert("a")`, `insert("b")`, `insert("a")` again, then
      `remove_value("b")`, whatever indices the storage allocates. */
  lemma Scenario(ra: Ref<string>, s1: State<string>, rb: Ref<string>, s2: State<string>,
                 ra2: Ref<string>, s3: State<string>, out: Option<(Ref<string>, string)>, s4: State<string>)
    requires InsertStep(State(map[], map[]), "a", ra, s1)
    requires InsertStep(s1, "b", rb, s2)
    requires InsertStep(s2, "a", ra2, s3)
    requires RemoveValueStep(s3, "b", out, s4)
    ensures ra2 == ra && ra != rb
    ensures |s3.index| == 2 && |s3.slots| == 2
    ensures out == Some((rb, "b")) && |s4.index| == 1
    ensures Storage.Lookup(s4.slots, rb.index) == None
    ensures Storage.Lookup(s4.slots, ra.index) == Some("a")
  {
  }

  /** `new` over a storage that already holds values leaves those values
      without reverse entries, and `insert` of one of them then stores a
      second copy. Only `Consistent` survives such a start. */
  lemma PopulatedStorageAllowsDuplicate()
    ensures var s := State(map[], map[0 := "a"]);
            var t := State(map["a" := Ref(1)], map[0 := "a", 1 := "a"]);
            && Consistent(s) && !Complete(s)
            && InsertStep(s, "a", Ref(1), t)
            && Consistent(t) && !Complete(t) && t.slots[0] == t.slots[1]
  {
    var s := State(map[], map[0 := "a"]);
    var t := State(map["a" := Ref(1)], map[0 := "a", 1 := "a"]);
    assert 0 in s.slots && s.slots[0] !in s.index;
    assert 0 in t.slots && t.index[t.slots[0]].index != 0;
    assert t.slots == s.slots[1 := "a"];
  }

  /** The dictionary itself: a shelf and a reverse index updated in lockstep.
      Its invariant is `Consistent`, which holds however the storage was
      populated when the dictionary was built; `Bijective` also holds when it
      was built empty, and every operation keeps it. */
  class Interner<V(==)> {
    /** The reverse index (`map` in the source). */
    var reverse: map<V, Ref<V>>
    /** The shelf of stored values (`values` in the source). */
    const values: Shelf<V>

    function Model(): State<V>
      reads this, values.storage.Obj()
    {
      State(reverse, values.View())
    }

    ghost predicate Valid()
      reads this, values.storage.Obj()
    {
      Consistent(Model())
    }

    /** `new(storage)`: an empty reverse index next to the given shelf. */
    constructor (values: Shelf<V>)
      ensures this.values == values
      ensures Valid() && Model() == State(map[], values.View())
      ensures values.View() == map[] ==> Bijective(Model())
    {
      this.values := values;
      reverse := map[];
    }

    predicate CanAllocate()
    {
      values.storage.CanAllocate()
    }

    predicate CanRemove()
    {
      values.storage.CanRemove()
    }

    /** `get` (and `borrow`): the shelf's lookup. */
    function Get(r: Ref<V>): (o: Option<V>)
      reads values.storage.Obj()
      ensures o == Storage.Lookup(Model().slots, r.index)
    {
      values.Get(r)
    }

    /** `len`: the number of reverse-index entries. It is the number of stored
        values whenever both sides agree. */
    function Len(): (n: nat)
      reads this, values.storage.Obj()
      ensures n == |Model().index|
      ensures Bijective(Model()) ==> n == values.Len()
    {
      assert Bijective(Model()) ==> |reverse| == values.Len() by {
        if Bijective(Model()) {
          SizesAgree(Model());
        }
      }
      |reverse|
    }

    /** `is_empty`: the reverse index has no entry. */
    function IsEmpty(): (b: bool)
      reads this, values.storage.Obj()
      ensures b <==> Len() == 0
    {
      |reverse| == 0
    }

    /** `insert`. A registered value gives its old reference without touching
        the stored value; a new one is allocated in the shelf and recorded. */
    method Insert(value: V) returns (r: Ref<V>)
      requires Valid() && CanAllocate()
      modifies this, values.storage.Obj()
      ensures Valid()
      ensures InsertStep(old(Model()), value, r, Model())
      ensures old(Bijective(Model())) ==> Bijective(Model())
      ensures Get(r) == Some(value)
    {
      if value in reverse {
        r := reverse[value];
      } else {
        r := values.Insert(value);
        reverse := reverse[value := r];
      }
      InsertKeeps(old(Model()), value, r, Model());
    }

    /** `remove`. The shelf gives up the slot, and the value it held leaves the
        reverse index; an empty slot changes nothing. */
    method Remove(r: Ref<V>) returns (removed: Option<V>)
      requires Valid() && CanRemove()
      modifies this, values.storage.Obj()
      ensures Valid()
      ensures RemoveStep(old(Model()), r, removed, Model())
      ensures old(Bijective(Model())) ==> Bijective(Model())
      ensures Get(r) == None
    {
      removed := values.Remove(r);
      if removed.Some? {
        reverse := reverse - {removed.value};
      }
      RemoveKeeps(old(Model()), r, removed, Model());
    }

    /** `remove_value`. The reverse index gives up the value's reference, and
        the shelf's slot at it is removed; the `unwrap` cannot fail, because
        every entry of the reverse index names an occupied slot. */
    method RemoveValue(value: V) returns (removed: Option<(Ref<V>, V)>)
      requires Valid() && CanRemove()
      modifies this, values.storage.Obj()
      ensures Valid()
      ensures RemoveValueStep(old(Model()), value, removed, Model())
      ensures old(Bijective(Model())) ==> Bijective(Model())
      ensures removed.Some? <==> value in old(reverse)
      ensures removed.Some? ==> removed.value == (old(reverse)[value], value)
    {
      if value in reverse {
        var r := reverse[value];
        reverse := reverse - {value};
        var slot := values.Remove(r);
        match slot
        case None =>
          assert false;
        case Some(stored) =>
          removed := Some((r, stored));
      } else {
        removed := None;
      }
      RemoveValueKeeps(old(Model()), value, removed, Model());
    }
  }
}
