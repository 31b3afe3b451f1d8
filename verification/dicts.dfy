/** Python's insertion-ordered `dict`, as a sequence of key/value pairs. */
module Dicts {
  import opened Py

  type Dict<K, V> = seq<(K, V)>

  /** A dict never holds one key twice. */
  predicate DistinctKeys<K(==), V>(d: Dict<K, V>) {
    d == [] || (d[0].0 !in Keys(d[1..]) && DistinctKeys(d[1..]))
  }

  function Keys<K, V>(d: Dict<K, V>): set<K> {
    if d == [] then {} else {d[0].0} + Keys(d[1..])
  }

  lemma {:induction false} KeysConcat<K, V>(a: Dict<K, V>, b: Dict<K, V>)
    ensures Keys(a + b) == Keys(a) + Keys(b)
  {
    if a != [] {
      assert (a + b)[1..] == a[1..] + b;
      KeysConcat(a[1..], b);
    } else {
      assert a + b == b;
    }
  }

  /** `d.get(k)`: the value stored under k, if any. */
  function Get<K(==), V>(d: Dict<K, V>, k: K): (r: Option<V>)
    ensures r.Some? <==> k in Keys(d)
    ensures r.Some? ==> (k, r.value) in d
  {
    if d == [] then None
    else if d[0].0 == k then Some(d[0].1)
    else Get(d[1..], k)
  }

  /** In a dict with distinct keys, the pair stored at index i is what `get` finds. */
  lemma {:induction false} GetAt<K, V>(d: Dict<K, V>, i: nat)
    requires DistinctKeys(d) && i < |d|
    ensures Get(d, d[i].0) == Some(d[i].1)
  {
    if i > 0 {
      GetAt(d[1..], i - 1);
    }
  }

  /** `d[k] = v`: an existing key keeps its position and gets the new value,
      a new key is appended; no other key is touched. */
  function Put<K(==), V>(d: Dict<K, V>, k: K, v: V): (r: Dict<K, V>)
    ensures Keys(r) == Keys(d) + {k}
    ensures DistinctKeys(d) ==> DistinctKeys(r)
    ensures Get(r, k) == Some(v)
  {
    if d == [] then [(k, v)]
    else if d[0].0 == k then [(k, v)] + d[1..]
    else [d[0]] + Put(d[1..], k, v)
  }

  /** Storing under k leaves what every other key finds unchanged. */
  lemma {:induction false} PutOther<K, V>(d: Dict<K, V>, k: K, v: V, k': K)
    requires k' != k
    ensures Get(Put(d, k, v), k') == Get(d, k')
  {
    if d != [] && d[0].0 != k {
      PutOther(d[1..], k, v, k');
    }
  }

  /** `{k: v for k, v in pairs}`: later pairs overwrite earlier ones. */
  function FromPairs<K(==), V>(pairs: seq<(K, V)>): Dict<K, V>
    decreases |pairs|
  {
    if pairs == [] then []
    else
      var last := pairs[|pairs| - 1];
      Put(FromPairs(pairs[..|pairs| - 1]), last.0, last.1)
  }

  /** The dict built from a sequence of pairs has distinct keys, holds exactly
      the keys of the pairs, and maps each key to the value of the LAST pair
      carrying it. */
  lemma {:induction false} FromPairsLastWins<K, V>(pairs: seq<(K, V)>)
    ensures DistinctKeys(FromPairs(pairs))
    ensures Keys(FromPairs(pairs)) == Keys(pairs)
    ensures forall i :: 0 <= i < |pairs| && (forall j :: i < j < |pairs| ==> pairs[j].0 != pairs[i].0)
              ==> Get(FromPairs(pairs), pairs[i].0) == Some(pairs[i].1)
    decreases |pairs|
  {
    if pairs != [] {
      var init := pairs[..|pairs| - 1];
      FromPairsLastWins(init);
      assert pairs == init + [pairs[|pairs| - 1]];
      KeysConcat(init, [pairs[|pairs| - 1]]);
      forall i | 0 <= i < |pairs| - 1 && (forall j :: i < j < |pairs| ==> pairs[j].0 != pairs[i].0)
        ensures Get(FromPairs(pairs), pairs[i].0) == Some(pairs[i].1)
      {
        assert pairs[i] == init[i];
        PutOther(FromPairs(init), pairs[|pairs| - 1].0, pairs[|pairs| - 1].1, pairs[i].0);
        assert forall j :: i < j < |init| ==> init[j].0 != init[i].0 by {
          forall j | i < j < |init| ensures init[j].0 != init[i].0 {
            assert init[j] == pairs[j];
          }
        }
      }
    }
  }

  /** Building from `a + b`: a key carried by some pair of b takes its value
      from b alone, any other key from a. */
  lemma {:induction false} FromPairsConcat<K, V>(a: seq<(K, V)>, b: seq<(K, V)>, k: K)
    ensures Get(FromPairs(a + b), k) == if k in Keys(b) then Get(FromPairs(b), k) else Get(FromPairs(a), k)
    decreases |b|
  {
    if b == [] {
      assert a + b == a;
    } else {
      var init := b[..|b| - 1];
      var last := b[|b| - 1];
      assert b == init + [last];
      assert a + b == (a + init) + [last];
      assert (a + b)[..|a + b| - 1] == a + init;
      KeysConcat(init, [last]);
      FromPairsConcat(a, init, k);
      if k != last.0 {
        PutOther(FromPairs(a + init), last.0, last.1, k);
        PutOther(FromPairs(init), last.0, last.1, k);
      }
    }
  }

  lemma {:induction false} PairInKeys<K, V>(d: Dict<K, V>, k: K, v: V)
    requires (k, v) in d
    ensures k in Keys(d)
  {
    if d[0] != (k, v) {
      assert (k, v) in d[1..];
      PairInKeys(d[1..], k, v);
    }
  }

  /** Every pair after `d[k] = v` is the new pair or one that was there before. */
  lemma {:induction false} PutPairs<K, V>(d: Dict<K, V>, k: K, v: V, x: (K, V))
    requires x in Put(d, k, v)
    ensures x == (k, v) || x in d
  {
    if d != [] && d[0].0 != k && x != d[0] {
      assert x in Put(d[1..], k, v);
      PutPairs(d[1..], k, v, x);
    } else if d != [] && d[0].0 == k && x != (k, v) {
      assert x in d[1..];
    }
  }
}
