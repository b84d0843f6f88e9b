/** Searching a list from the front: the first position of a value, and the first
    value filed under a key in a list of (key, value) pairs. */
module Seqs {
  import opened Wrappers

  /** The position of the first occurrence of `x`. */
  function FirstIndex<T(==)>(xs: seq<T>, x: T): (r: Option<nat>)
    ensures r.Some? ==> r.value < |xs| && xs[r.value] == x
    ensures r.Some? ==> forall k :: 0 <= k < r.value ==> xs[k] != x
    ensures r.None? <==> x !in xs
  {
    if xs == [] then None
    else if xs[0] == x then Some(0)
    else match FirstIndex(xs[1..], x)
      case None => None
      case Some(k) => Some(k + 1)
  }

  /** An element of `a` is found in `a + b` where it is found in `a`. */
  lemma {:induction false} FirstIndexPrefix<T>(a: seq<T>, b: seq<T>, x: T)
    requires x in a
    ensures FirstIndex(a + b, x) == FirstIndex(a, x)
  {
    var i := FirstIndex(a, x).value;
    assert (a + b)[i] == x;
    assert forall k :: 0 <= k < i ==> (a + b)[k] == a[k];
    FirstIndexAt(a + b, x, i);
  }

  lemma FirstIndexAt<T>(xs: seq<T>, x: T, i: nat)
    requires i < |xs| && xs[i] == x
    requires forall k :: 0 <= k < i ==> xs[k] != x
    ensures FirstIndex(xs, x) == Some(i)
  {
  }

  /**
   * The value of the first pair whose key is `k`: `dict.get` on the pairs of a
   * dict, `findtext` on the (tag, text) children of an element.
   */
  function FindByKey<K(==), V(==)>(pairs: seq<(K, V)>, k: K): (r: Option<V>)
    ensures r.Some? ==> (k, r.value) in pairs
    ensures r.None? <==> forall e :: e in pairs ==> e.0 != k
  {
    if pairs == [] then None
    else if pairs[0].0 == k then Some(pairs[0].1)
    else FindByKey(pairs[1..], k)
  }

  /** A pair whose key no earlier pair carries is the one found. */
  lemma {:induction false} FindByKeyAt<K, V>(pairs: seq<(K, V)>, k: K, i: nat)
    requires i < |pairs| && pairs[i].0 == k
    requires forall j :: 0 <= j < i ==> pairs[j].0 != k
    ensures FindByKey(pairs, k) == Some(pairs[i].1)
  {
    if i > 0 {
      FindByKeyAt(pairs[1..], k, i - 1);
    }
  }

  /** A value is in the image of `xs` under `f`, position by position, exactly when some element maps to it. */
  lemma ImageMembers<A, B>(f: A -> B, xs: seq<A>, ys: seq<B>, y: B)
    requires |ys| == |xs| && forall i :: 0 <= i < |xs| ==> ys[i] == f(xs[i])
    ensures y in ys <==> exists x :: x in xs && f(x) == y
  {
    if y in ys {
      var i :| 0 <= i < |ys| && ys[i] == y;
      assert xs[i] in xs;
    }
  }
}
