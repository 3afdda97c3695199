/** Python's insertion-ordered `dict`, as a sequence of key/value pairs with
    distinct keys: assigning to an existing key replaces its value where it
    stands, assigning to a new key appends it. */
module Dicts {
  import opened Common

  type Dict<K, V> = seq<(K, V)>

  function Keys<K, V>(d: Dict<K, V>): (r: seq<K>)
    ensures |r| == |d| && forall i :: 0 <= i < |d| ==> r[i] == d[i].0
  {
    seq(|d|, i requires 0 <= i < |d| => d[i].0)
  }

  /** `d.values()`, in order. */
  function Values<K, V>(d: Dict<K, V>): (r: seq<V>)
    ensures |r| == |d| && forall i :: 0 <= i < |d| ==> r[i] == d[i].1
  {
    seq(|d|, i requires 0 <= i < |d| => d[i].1)
  }

  predicate UniqueKeys<K(==,!new), V>(d: Dict<K, V>)
  {
    forall i, j :: 0 <= i < j < |d| ==> d[i].0 != d[j].0
  }

  /** `d.get(k)`. */
  function Lookup<K(==,!new), V>(d: Dict<K, V>, k: K): (r: Option<V>)
    ensures r.None? <==> k !in Keys(d)
    ensures UniqueKeys(d) ==> forall i :: 0 <= i < |d| && d[i].0 == k ==> r == Some(d[i].1)
  {
    if d == [] then None
    else if d[0].0 == k then Some(d[0].1)
    else
      assert Keys(d) == [d[0].0] + Keys(d[1..]);
      assert forall i :: 0 < i < |d| ==> d[1..][i - 1] == d[i];
      assert UniqueKeys(d) ==> UniqueKeys(d[1..]) by {
        if UniqueKeys(d) {
          forall i, j | 0 <= i < j < |d[1..]|
            ensures d[1..][i].0 != d[1..][j].0
          {
            assert d[1..][i] == d[i + 1] && d[1..][j] == d[j + 1];
          }
        }
      }
      Lookup(d[1..], k)
  }

  /** `d[k] = v`. */
  function Put<K(==,!new), V>(d: Dict<K, V>, k: K, v: V): (r: Dict<K, V>)
    ensures k in Keys(d) ==> Keys(r) == Keys(d)
    ensures k !in Keys(d) ==> r == d + [(k, v)]
    ensures forall k' :: k' in Keys(r) <==> k' in Keys(d) || k' == k
    ensures forall i :: 0 <= i < |r| ==> r[i] in d || r[i] == (k, v)
    ensures UniqueKeys(d) ==> UniqueKeys(r)
    ensures UniqueKeys(d) ==> Lookup(r, k) == Some(v)
    ensures UniqueKeys(d) ==> forall k' :: k' != k ==> Lookup(r, k') == Lookup(d, k')
  {
    if k in Keys(d) then
      var i := Find(Keys(d), k);
      var r := d[i := (k, v)];
      assert Keys(r) == Keys(d);
      r
    else
      var r := d + [(k, v)];
      assert Keys(r) == Keys(d) + [k];
      r
  }
}
