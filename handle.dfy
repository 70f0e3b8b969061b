/** `Ref<T>` (src/lib.rs): a typed reference to a stored value. It is an index
    plus a phantom tag `T`; the tag is never stored and only the index is
    compared, ordered and hashed. */
module Handle {

  /** A reference: the raw index of a slot. `T` only appears in the type. */
  datatype Ref<T> = Ref(index: nat)
  {
    /** `cast`: the same index under another tag; nothing is checked. */
    function Cast<U>(): (r: Ref<U>)
      ensures r.index == index
    {
      New(index)
    }

    /** The derived `Ord`: references compare as their indices do. */
    function Compare(other: Ref<T>): (o: Ordering)
      ensures o == Equal <==> this == other
      ensures o == Less <==> index < other.index
      ensures o == Greater <==> other.index < index
    {
      if index < other.index then Less
      else if other.index < index then Greater
      else Equal
    }
  }

  datatype Ordering = Less | Equal | Greater

  /** `Ref::new`: wraps an index. */
  function New<T>(index: nat): (r: Ref<T>)
    ensures r.index == index
  {
    Ref(index)
  }

  /** Casting away and back gives the same reference. */
  lemma CastRoundTrip<T, U>(r: Ref<T>)
    ensures r.Cast<U>().Cast<T>() == r
  {
  }

  /** Two references of one type are equal exactly when their indices are: the
      phantom tag never tells them apart. */
  lemma EqualIffSameIndex<T>(a: Ref<T>, b: Ref<T>)
    ensures a == b <==> a.index == b.index
  {
  }

  /** `Compare` is a total order: antisymmetric and transitive. */
  lemma CompareIsTotalOrder<T>(a: Ref<T>, b: Ref<T>, c: Ref<T>)
    ensures a.Compare(b) == Less <==> b.Compare(a) == Greater
    ensures a.Compare(b) == Less && b.Compare(c) == Less ==> a.Compare(c) == Less
  {
  }
}
