/**
 * A JavaScript `Map` as a value: its entries, and its keys in insertion
 * order, which is the order `keys()` and `for ... of` visit them in.
 */
module OrderedMaps {
  import opened Wrappers

  datatype OrderedMap<V> = OrderedMap(keys: seq<string>, values: map<string, V>) {

    /** Each key is listed once, and the listed keys are exactly the stored ones. */
    ghost predicate Valid() {
      && Distinct(keys)
      && (forall k :: k in values <==> k in keys)
    }

    /** `m.get(k)` */
    function Get(k: string): (r: Option<V>)
      ensures r.Some? <==> k in values
      ensures r.Some? ==> r.value == values[k]
    {
      if k in values then Some(values[k]) else None
    }

    /**
     * `m.set(k, v)`: `k` now maps to `v` and every other key keeps its value.
     * A key already present keeps its place in the order; a new key goes last.
     */
    function Set(k: string, v: V): (r: OrderedMap<V>)
      requires Valid()
      ensures r.Valid()
      ensures r.values.Keys == values.Keys + {k} && r.values[k] == v
      ensures forall j :: j in values && j != k ==> r.values[j] == values[j]
      ensures k in values ==> r.keys == keys
      ensures k !in values ==> r.keys == keys + [k]
    {
      OrderedMap(if k in values then keys else keys + [k], values[k := v])
    }

    /**
     * `m.delete(k)`: `k` is gone, every other key keeps its value, and the
     * remaining keys keep their relative order.
     */
    function Delete(k: string): (r: OrderedMap<V>)
      requires Valid()
      ensures r.Valid()
      ensures r.values.Keys == values.Keys - {k}
      ensures forall j :: j in r.values ==> r.values[j] == values[j]
      ensures k !in values ==> r.keys == keys
      ensures k in values ==> exists i :: 0 <= i < |keys| && keys[i] == k && r.keys == keys[..i] + keys[i + 1..]
    {
      RemoveDistinct(keys, k);
      if k in keys then
        var i :| 0 <= i < |keys| && keys[i] == k;
        RemoveAt(keys, k, i);
        OrderedMap(Remove(keys, k), values - {k})
      else
        OrderedMap(Remove(keys, k), values - {k})
    }

    /** `m.clear()` */
    static function Empty(): (r: OrderedMap<V>)
      ensures r.Valid() && r.keys == [] && r.values == map[]
    {
      OrderedMap([], map[])
    }
  }

  predicate Distinct(s: seq<string>) {
    forall i, j :: 0 <= i < j < |s| ==> s[i] != s[j]
  }

  /** `s` without its occurrences of `k`, the rest in order. */
  function Remove(s: seq<string>, k: string): (r: seq<string>)
    ensures forall x :: x in r <==> x in s && x != k
    ensures k !in s ==> r == s
    decreases |s|
  {
    if s == [] then s
    else if s[0] == k then Remove(s[1..], k)
    else [s[0]] + Remove(s[1..], k)
  }

  lemma {:induction false} RemoveDistinct(s: seq<string>, k: string)
    requires Distinct(s)
    ensures Distinct(Remove(s, k))
    decreases |s|
  {
    if s != [] {
      RemoveDistinct(s[1..], k);
      var t := Remove(s[1..], k);
      if s[0] != k {
        assert s[0] !in t by {
          assert s[0] !in s[1..];
        }
        assert Remove(s, k) == [s[0]] + t;
        forall i, j | 0 <= i < j < |[s[0]] + t| ensures ([s[0]] + t)[i] != ([s[0]] + t)[j] {
          if i == 0 {
            assert ([s[0]] + t)[j] == t[j - 1];
          }
        }
      }
    }
  }

  /** In a list without repeats, removing `k` cuts out its one position. */
  lemma {:induction false} RemoveAt(s: seq<string>, k: string, i: nat)
    requires Distinct(s) && i < |s| && s[i] == k
    ensures Remove(s, k) == s[..i] + s[i + 1..]
    decreases |s|
  {
    DistinctTail(s);
    if i == 0 {
      assert k !in s[1..];
      assert Remove(s, k) == Remove(s[1..], k);
    } else {
      assert s[0] != k;
      RemoveAt(s[1..], k, i - 1);
      assert Remove(s, k) == [s[0]] + (s[1..][..i - 1] + s[1..][i..]);
      assert s[..i] == [s[0]] + s[1..][..i - 1];
      assert s[i + 1..] == s[1..][i..];
    }
  }

  lemma DistinctTail(s: seq<string>)
    requires Distinct(s) && s != []
    ensures Distinct(s[1..]) && s[0] !in s[1..]
  {
    forall a, b | 0 <= a < b < |s| - 1 ensures s[1..][a] != s[1..][b] {
      assert s[1..][a] == s[a + 1] && s[1..][b] == s[b + 1];
    }
  }

  /** A valid map lists as many keys as it stores. */
  lemma {:induction false} SizeAgrees<V>(m: OrderedMap<V>)
    requires m.Valid()
    ensures |m.keys| == |m.values|
  {
    DistinctCard(m.keys);
    assert (set k | k in m.keys) == m.values.Keys;
  }

  lemma {:induction false} DistinctCard(s: seq<string>)
    requires Distinct(s)
    ensures |set k | k in s| == |s|
  {
    if s != [] {
      var t := s[1..];
      DistinctCard(t);
      assert (set k | k in s) == {s[0]} + (set k | k in t);
      assert s[0] !in t;
    }
  }
}
