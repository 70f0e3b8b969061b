/** Iteration as the backends produce it: a finite sequence of (index, value)
    pairs. `Enumerate` is what a dense vector yields (`iter().enumerate()`);
    `Ascending` is what an ordered map yields, key by key from the smallest. */
module Entries {

  /** The view of a dense vector: index `i` holds `s[i]` for every `i < |s|`. */
  function DenseView<V>(s: seq<V>): (m: map<nat, V>)
    ensures |m| == |s|
    ensures forall i: nat :: i in m <==> i < |s|
    ensures forall i: nat :: i < |s| ==> m[i] == s[i]
  {
    if s == [] then map[] else DenseView(s[..|s| - 1])[|s| - 1 := s[|s| - 1]]
  }

  /** The pairs `(i, s[i])` in ascending `i`. */
  function Enumerate<V>(s: seq<V>): (es: seq<(nat, V)>)
    ensures |es| == |s|
    ensures forall j :: 0 <= j < |s| ==> es[j] == (j, s[j])
  {
    if s == [] then [] else Enumerate(s[..|s| - 1]) + [(|s| - 1, s[|s| - 1])]
  }

  /** `es` lists each entry of `m` exactly once, in some order. */
  ghost predicate ListsEach<V>(es: seq<(nat, V)>, m: map<nat, V>)
  {
    && |es| == |m|
    && (forall j :: 0 <= j < |es| ==> es[j].0 in m && m[es[j].0] == es[j].1)
    && (forall j, k :: 0 <= j < k < |es| ==> es[j].0 != es[k].0)
    && (forall i :: i in m ==> (i, m[i]) in es)
  }

  /** Keys strictly increase along `es`. */
  ghost predicate StrictlyAscending<V>(es: seq<(nat, V)>)
  {
    forall j, k :: 0 <= j < k < |es| ==> es[j].0 < es[k].0
  }

  /** The smallest element of a non-empty set of indices. */
  function Min(s: set<nat>): (k: nat)
    requires s != {}
    ensures k in s && forall x :: x in s ==> k <= x
  {
    HasMin(s);
    var k :| k in s && forall x :: x in s ==> k <= x;
    k
  }

  lemma {:induction false} HasMin(s: set<nat>)
    requires s != {}
    ensures exists k :: k in s && forall x :: x in s ==> k <= x
    decreases |s|
  {
    var y :| y in s;
    if s == {y} {
      assert forall x :: x in s ==> y <= x;
    } else {
      HasMin(s - {y});
      var k :| k in s - {y} && forall x :: x in s - {y} ==> k <= x;
      var least := if y < k then y else k;
      forall x | x in s ensures least <= x {
        if x != y {
          assert x in s - {y};
        }
      }
    }
  }

  /** Putting the least entry in front of an ascending listing of the rest
      gives an ascending listing of the whole map. */
  lemma PrependLeast<V>(m: map<nat, V>, k: nat, rest: seq<(nat, V)>)
    requires k in m && forall x :: x in m ==> k <= x
    requires ListsEach(rest, m - {k}) && StrictlyAscending(rest)
    ensures ListsEach([(k, m[k])] + rest, m) && StrictlyAscending([(k, m[k])] + rest)
  {
    var es := [(k, m[k])] + rest;
    assert |m - {k}| == |m| - 1;
    forall j | 0 <= j < |es| ensures es[j].0 in m && m[es[j].0] == es[j].1 {
      if j > 0 {
        assert es[j] == rest[j - 1];
      }
    }
    forall j | 0 <= j < |rest| ensures k < rest[j].0 {
      assert rest[j].0 in m - {k};
    }
    forall j, j' | 0 <= j < j' < |es| ensures es[j].0 < es[j'].0 {
      assert es[j'] == rest[j' - 1];
      if j > 0 {
        assert es[j] == rest[j - 1];
      }
    }
    forall i | i in m ensures (i, m[i]) in es {
      if i != k {
        assert i in m - {k};
        assert (i, m[i]) in rest;
      }
    }
  }

  /** The entries of `m` by ascending key, as an ordered map iterates them. */
  function Ascending<V>(m: map<nat, V>): (es: seq<(nat, V)>)
    ensures ListsEach(es, m)
    ensures StrictlyAscending(es)
    decreases |m|
  {
    if |m| == 0 then []
    else
      var k := Min(m.Keys);
      var rest := Ascending(m - {k});
      PrependLeast(m, k, rest);
      [(k, m[k])] + rest
  }
}
