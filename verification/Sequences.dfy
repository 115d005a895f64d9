/** Editing and slicing of lists. */
module Sequences {
  import opened Values

  function Min(a: int, b: int): int {
    if a <= b then a else b
  }

  function InsertAt<T>(es: seq<T>, i: nat, e: T): (r: seq<T>)
    requires i <= |es|
  {
    es[..i] + [e] + es[i..]
  }

  function RemoveAt<T>(es: seq<T>, i: nat): (r: seq<T>)
    requires i < |es|
  {
    es[..i] + es[i + 1..]
  }

  /** Entries `offset` up to `offset + limit` of a list, as far as the list has them. */
  function Slice<T>(es: seq<T>, offset: nat, limit: Option<nat>): seq<T> {
    var start := if offset <= |es| then offset else |es|;
    if limit.None? || offset + limit.value >= |es| then es[start..] else es[start..offset + limit.value]
  }

  lemma SliceIsPrefix<T>(es: seq<T>, n: nat)
    ensures Slice(es, 0, Some(n)) == es[..Min(n, |es|)]
  {
  }

  /** Slicing a list is slicing its leading part, as long as that part reaches the end of the slice. */
  lemma SliceOfPrefix<T>(es: seq<T>, n: nat, offset: nat, limit: nat)
    requires Min(|es|, offset + limit) <= n <= |es|
    ensures Slice(es[..n], offset, Some(limit)) == Slice(es, offset, Some(limit))
  {
  }

  lemma InsertAtMembers<T>(es: seq<T>, i: nat, e: T)
    requires i <= |es|
    ensures forall x :: x in InsertAt(es, i, e) <==> x in es || x == e
  {
    var r := InsertAt(es, i, e);
    assert r[i] == e;
    forall x | x in es
      ensures x in r
    {
      var j :| 0 <= j < |es| && es[j] == x;
      assert r[if j < i then j else j + 1] == x;
    }
  }

  lemma SameMaps<K, V>(a: map<K, V>, b: map<K, V>)
    requires a.Keys == b.Keys && forall k | k in a :: a[k] == b[k]
    ensures a == b
  {
  }

  lemma SmallerMap<K, V>(m: map<K, V>, k: K)
    ensures |m - {k}| == |m| - if k in m then 1 else 0
  {
    assert (m - {k}).Keys == m.Keys - {k};
    assert |m - {k}| == |(m - {k}).Keys| && |m| == |m.Keys|;
  }

  lemma LargerMap<K, V>(m: map<K, V>, k: K, v: V)
    ensures |m[k := v]| == |m| + if k in m then 0 else 1
  {
    assert m[k := v].Keys == m.Keys + {k};
    assert |m[k := v]| == |m[k := v].Keys| && |m| == |m.Keys|;
  }

  /** The members of a set, listed in some order. */
  method ListOf<T(==)>(s: set<T>) returns (list: seq<T>)
    ensures forall i, j | 0 <= i < j < |list| :: list[i] != list[j]
    ensures forall x :: x in list <==> x in s
  {
    list := [];
    var rest := s;
    while rest != {}
      invariant rest <= s && forall x :: x in list <==> x in s && x !in rest
      invariant forall i, j | 0 <= i < j < |list| :: list[i] != list[j]
      decreases |rest|
    {
      var x :| x in rest;
      assert forall y :: y in list + [x] <==> y in list || y == x;
      assert x !in list;
      list := list + [x];
      rest := rest - {x};
    }
  }
}
