/** Insertion-ordered dictionaries: Python's OrderedDict and JavaScript's Map. */
module Ordered {

  ghost predicate NoDuplicates<K>(s: seq<K>) {
    forall i, j :: 0 <= i < j < |s| ==> s[i] != s[j]
  }

  /** The sequence without the first occurrence of k. */
  function Without<K(==, !new)>(s: seq<K>, k: K): (r: seq<K>)
    ensures k !in s ==> r == s
    ensures k in s ==> |r| == |s| - 1
    ensures forall x :: x in r ==> x in s
    ensures forall x :: x in s && x != k ==> x in r
  {
    if s == [] then []
    else
      assert forall x :: x in s <==> x == s[0] || x in s[1..];
      if s[0] == k then s[1..] else [s[0]] + Without(s[1..], k)
  }

  lemma {:induction false} WithoutIsDistinct<K(!new)>(s: seq<K>, k: K)
    requires NoDuplicates(s)
    ensures NoDuplicates(Without(s, k)) && k !in Without(s, k)
  {
    if s != [] && s[0] != k {
      WithoutIsDistinct(s[1..], k);
      assert s[0] !in s[1..];
    }
  }

  /** The elements of a sequence, as a set. */
  function Elements<T(==, !new)>(s: seq<T>): (r: set<T>)
    ensures forall x :: x in s <==> x in r
  {
    if s == [] then {}
    else
      assert s == s[..|s| - 1] + [s[|s| - 1]];
      Elements(s[..|s| - 1]) + {s[|s| - 1]}
  }

  datatype Dict<K(==, !new), +V> = Dict(order: seq<K>, items: map<K, V>) {
    predicate Has(k: K) { k in items }

    function Size(): nat { |order| }
  }

  ghost predicate WellFormed<K(!new), V>(d: Dict<K, V>) {
    NoDuplicates(d.order) && forall k :: k in d.items <==> k in d.order
  }

  type OrderedDict<K(==, !new), +V> = d: Dict<K, V> | WellFormed(d) witness Dict([], map[])

  function Empty<K(==, !new), V>(): OrderedDict<K, V> { Dict([], map[]) }

  /** Assigning to a key that is present keeps its place. */
  function Put<K(==, !new), V>(d: OrderedDict<K, V>, k: K, v: V): (r: OrderedDict<K, V>)
    ensures r.items == d.items[k := v]
    ensures r.Size() == d.Size() + (if d.Has(k) then 0 else 1)
  {
    Dict(if d.Has(k) then d.order else d.order + [k], d.items[k := v])
  }

  function Remove<K(==, !new), V>(d: OrderedDict<K, V>, k: K): (r: OrderedDict<K, V>)
    ensures r.items == d.items - {k}
    ensures r.Size() == d.Size() - (if d.Has(k) then 1 else 0)
  {
    WithoutIsDistinct(d.order, k);
    Dict(Without(d.order, k), d.items - {k})
  }
}
