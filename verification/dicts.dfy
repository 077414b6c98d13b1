/** Python dictionaries as association lists in insertion order.
    `Set` updates an existing key in place and appends a new one, `Remove`
    deletes a key, `Get` finds a key; on lists with unique keys these are
    exactly `d[k] = v`, `d.pop(k)` and `d.get(k)`. */
module Dicts {
  import opened Wrappers
  import opened Seqs

  type Dict<K, V> = seq<(K, V)>

  function Keys<K(==), V>(d: Dict<K, V>): (ks: seq<K>)
    ensures |ks| == |d|
    ensures forall i :: 0 <= i < |d| ==> ks[i] == d[i].0
    decreases |d|
  {
    if |d| == 0 then [] else [d[0].0] + Keys(d[1..])
  }

  predicate UniqueKeys<K(==), V>(d: Dict<K, V>) {
    Distinct(Keys(d))
  }

  /** The value under the first entry with key `k`. */
  function Get<K(==), V>(d: Dict<K, V>, k: K): (r: Option<V>)
    ensures r.None? <==> k !in Keys(d)
    ensures r.Some? ==> exists i :: 0 <= i < |d| && d[i] == (k, r.value)
    decreases |d|
  {
    if |d| == 0 then None
    else if d[0].0 == k then Some(d[0].1)
    else
      assert Keys(d) == [d[0].0] + Keys(d[1..]);
      var r := Get(d[1..], k);
      assert r.Some? ==> exists i :: 0 <= i < |d| && d[i] == (k, r.value) by {
        if r.Some? {
          var i :| 0 <= i < |d[1..]| && d[1..][i] == (k, r.value);
          assert d[i + 1] == (k, r.value);
        }
      }
      r
  }

  function Set<K(==,!new), V>(d: Dict<K, V>, k: K, v: V): (r: Dict<K, V>)
    ensures Get(r, k) == Some(v)
    ensures forall j :: j != k ==> Get(r, j) == Get(d, j)
    decreases |d|
  {
    if |d| == 0 then [(k, v)]
    else if d[0].0 == k then [(k, v)] + d[1..]
    else [d[0]] + Set(d[1..], k, v)
  }

  function Remove<K(==,!new), V>(d: Dict<K, V>, k: K): (r: Dict<K, V>)
    ensures Get(r, k) == None
    ensures forall j :: j != k ==> Get(r, j) == Get(d, j)
    decreases |d|
  {
    if |d| == 0 then []
    else if d[0].0 == k then Remove(d[1..], k)
    else [d[0]] + Remove(d[1..], k)
  }

  /** Setting a key that is present keeps the key order; a new key is
      appended at the end. */
  lemma {:induction false} SetKeys<K(!new), V>(d: Dict<K, V>, k: K, v: V)
    ensures k in Keys(d) ==> Keys(Set(d, k, v)) == Keys(d)
    ensures k !in Keys(d) ==> Keys(Set(d, k, v)) == Keys(d) + [k]
    decreases |d|
  {
    if |d| > 0 {
      assert Keys(d) == [d[0].0] + Keys(d[1..]);
      if d[0].0 != k {
        SetKeys(d[1..], k, v);
        assert Keys(Set(d, k, v)) == [d[0].0] + Keys(Set(d[1..], k, v));
      } else {
        assert Keys(Set(d, k, v)) == [k] + Keys(d[1..]);
      }
    }
  }

  lemma {:induction false} SetUnique<K(!new), V>(d: Dict<K, V>, k: K, v: V)
    requires UniqueKeys(d)
    ensures UniqueKeys(Set(d, k, v))
  {
    SetKeys(d, k, v);
    if k !in Keys(d) {
      var ks := Keys(d) + [k];
      forall i, j | 0 <= i < j < |ks|
        ensures ks[i] != ks[j]
      {
        if j == |ks| - 1 {
          assert ks[i] == Keys(d)[i];
        } else {
          assert ks[i] == Keys(d)[i] && ks[j] == Keys(d)[j];
        }
      }
    }
  }

  /** Folding `Set` over a list of pairs, as a loop of `d[k] = v` does. */
  function SetAll<K(==,!new), V>(d: Dict<K, V>, pairs: seq<(K, V)>): Dict<K, V>
    decreases |pairs|
  {
    if |pairs| == 0 then d
    else SetAll(Set(d, pairs[0].0, pairs[0].1), pairs[1..])
  }

  /** Keys no pair mentions keep their old value. */
  lemma {:induction false} SetAllUntouched<K(!new), V>(d: Dict<K, V>, pairs: seq<(K, V)>, k: K)
    requires k !in Keys(pairs)
    ensures Get(SetAll(d, pairs), k) == Get(d, k)
    decreases |pairs|
  {
    if |pairs| > 0 {
      assert Keys(pairs) == [pairs[0].0] + Keys(pairs[1..]);
      SetAllUntouched(Set(d, pairs[0].0, pairs[0].1), pairs[1..], k);
    }
  }

  /** The last pair with a given key decides its value. */
  lemma {:induction false} SetAllLast<K(!new), V>(d: Dict<K, V>, pairs: seq<(K, V)>, i: nat)
    requires i < |pairs|
    requires forall j :: i < j < |pairs| ==> pairs[j].0 != pairs[i].0
    ensures Get(SetAll(d, pairs), pairs[i].0) == Some(pairs[i].1)
    decreases |pairs|
  {
    var d' := Set(d, pairs[0].0, pairs[0].1);
    if i == 0 {
      assert pairs[0].0 !in Keys(pairs[1..]) by {
        forall j | 0 <= j < |pairs[1..]|
          ensures Keys(pairs[1..])[j] != pairs[0].0
        {
          assert pairs[1..][j] == pairs[j + 1];
        }
      }
      SetAllUntouched(d', pairs[1..], pairs[0].0);
    } else {
      assert pairs[1..][i - 1] == pairs[i];
      SetAllLast(d', pairs[1..], i - 1);
    }
  }

  /** The keys after the fold are the old keys plus every key mentioned. */
  lemma {:induction false} SetAllKeys<K(!new), V>(d: Dict<K, V>, pairs: seq<(K, V)>, k: K)
    ensures k in Keys(SetAll(d, pairs)) <==> k in Keys(d) || k in Keys(pairs)
    decreases |pairs|
  {
    if |pairs| > 0 {
      assert Keys(pairs) == [pairs[0].0] + Keys(pairs[1..]);
      SetKeys(d, pairs[0].0, pairs[0].1);
      SetAllKeys(Set(d, pairs[0].0, pairs[0].1), pairs[1..], k);
    }
  }

  /** Setting a key to the value it already holds changes nothing. */
  lemma {:induction false} SetSame<K(!new), V>(d: Dict<K, V>, k: K, v: V)
    requires Get(d, k) == Some(v)
    ensures Set(d, k, v) == d
    decreases |d|
  {
    if d[0].0 != k {
      SetSame(d[1..], k, v);
    }
  }

  /** Merging a dictionary with unique keys into `d`: its keys take its
      values, every other key keeps the value it had. */
  lemma MergeUnique<K(!new), V>(d: Dict<K, V>, nd: Dict<K, V>, k: K)
    requires UniqueKeys(nd)
    ensures Get(SetAll(d, nd), k) == if k in Keys(nd) then Get(nd, k) else Get(d, k)
  {
    if k in Keys(nd) {
      var v := Get(nd, k).value;
      var i :| 0 <= i < |nd| && nd[i] == (k, v);
      forall j | i < j < |nd|
        ensures nd[j].0 != nd[i].0
      {
        assert Keys(nd)[i] != Keys(nd)[j];
      }
      SetAllLast(d, nd, i);
    } else {
      SetAllUntouched(d, nd, k);
    }
  }
}
