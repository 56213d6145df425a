/** An insertion-ordered map, as the source's Map objects are: setting a new key appends it,
    setting a known key keeps its place, and iteration follows the order of the keys. */
module JsMaps {

  /** The keys of a map, each once. */
  ghost predicate Lists<K(!new), V>(keys: seq<K>, m: map<K, V>) {
    && (forall i, j :: 0 <= i < j < |keys| ==> keys[i] != keys[j])
    && (forall k :: k in keys <==> k in m)
  }

  datatype JsMap<K(==, !new), V> = JsMap(keys: seq<K>, m: map<K, V>) {

    ghost predicate Valid() {
      Lists(keys, m)
    }

    function Set(k: K, v: V): JsMap<K, V> {
      JsMap(if k in m then keys else keys + [k], m[k := v])
    }

    lemma SetKeepsValid(k: K, v: V)
      requires Valid()
      ensures Set(k, v).Valid()
    {
      assert forall x :: x in Set(k, v).keys <==> x in keys || x == k;
    }
  }

  function Empty<K(!new), V>(): JsMap<K, V> {
    JsMap([], map[])
  }

  /** The number under a key, or zero: the source's `get(key) || 0`. */
  function Amount<K>(m: map<K, real>, k: K): real {
    if k in m then m[k] else 0.0
  }

  /** The sum of the values of some keys, one addend for each occurrence. */
  function Sum<K>(keys: seq<K>, m: map<K, real>): real {
    if keys == [] then 0.0 else Sum(keys[..|keys| - 1], m) + Amount(m, keys[|keys| - 1])
  }

  /** The sum of all values, in iteration order. */
  function Total<K(!new)>(j: JsMap<K, real>): real {
    Sum(j.keys, j.m)
  }

  lemma NothingYet<K>(keys: seq<K>, m: map<K, real>)
    ensures Sum(keys[..0], m) == 0.0 && CountPositive(keys[..0], m) == 0
  {
  }

  /** A list of keys serves every map with the same keys. */
  lemma ListsSame<K(!new), V, W>(keys: seq<K>, m: map<K, V>, m': map<K, W>)
    requires Lists(keys, m) && m.Keys == m'.Keys
    ensures Lists(keys, m')
  {
    forall k ensures k in keys <==> k in m' {
      assert k in m.Keys <==> k in m'.Keys;
    }
  }

  lemma SumOneMore<K>(keys: seq<K>, n: nat, m: map<K, real>)
    requires n < |keys|
    ensures Sum(keys[..n + 1], m) == Sum(keys[..n], m) + Amount(m, keys[n])
  {
    assert keys[..n + 1][..n] == keys[..n];
  }

  /** How many of the keys have a positive value. */
  function CountPositive<K>(keys: seq<K>, m: map<K, real>): nat {
    if keys == [] then 0
    else CountPositive(keys[..|keys| - 1], m) + (if Amount(m, keys[|keys| - 1]) > 0.0 then 1 else 0)
  }

  lemma CountOneMore<K>(keys: seq<K>, n: nat, m: map<K, real>)
    requires n < |keys|
    ensures CountPositive(keys[..n + 1], m) == CountPositive(keys[..n], m) + (if Amount(m, keys[n]) > 0.0 then 1 else 0)
  {
    assert keys[..n + 1][..n] == keys[..n];
  }

  lemma {:induction false} SumDependsOnValues<K(!new)>(keys: seq<K>, m: map<K, real>, m': map<K, real>)
    requires forall k :: k in keys ==> Amount(m, k) == Amount(m', k)
    ensures Sum(keys, m) == Sum(keys, m')
  {
    if keys == [] {
    } else {
      SumDependsOnValues(keys[..|keys| - 1], m, m');
    }
  }

  /** Changing one value of a key that occurs once moves the sum by the difference. */
  lemma {:induction false} SumAfterChange<K(!new)>(keys: seq<K>, m: map<K, real>, k: K, v: real)
    requires k in keys && forall i, j :: 0 <= i < j < |keys| ==> keys[i] != keys[j]
    ensures Sum(keys, m[k := v]) == Sum(keys, m) - Amount(m, k) + v
  {
    var rest, last := keys[..|keys| - 1], keys[|keys| - 1];
    if last == k {
      SumDependsOnValues(rest, m, m[k := v]);
    } else {
      SumAfterChange(rest, m, k, v);
    }
  }

  /** Setting a key raises the total by the new value less what the key held before. */
  lemma TotalAfterSet<K(!new)>(j: JsMap<K, real>, k: K, v: real)
    requires j.Valid()
    ensures j.Set(k, v).Valid()
    ensures Total(j.Set(k, v)) == Total(j) - Amount(j.m, k) + v
  {
    j.SetKeepsValid(k, v);
    if k in j.m {
      SumAfterChange(j.keys, j.m, k, v);
    } else {
      assert (j.keys + [k])[..|j.keys|] == j.keys;
      SumDependsOnValues(j.keys, j.m, j.m[k := v]);
    }
  }
}
