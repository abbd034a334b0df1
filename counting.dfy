/**
 * Counter dictionaries (`d[k] = d.get(k, 0) + n`) and the totals of their
 * values, used by every statistics pass of the tools.
 */
module Counting {

  /** Python's `d.get(k, 0)`. */
  function Get<K>(m: map<K, nat>, k: K): nat
  {
    if k in m then m[k] else 0
  }

  /** Python's `d[k] = d.get(k, 0) + n`. */
  function Add<K(!new)>(m: map<K, nat>, k: K, n: nat): (r: map<K, nat>)
    ensures r.Keys == m.Keys + {k}
    ensures Get(r, k) == Get(m, k) + n
    ensures forall j :: j != k ==> Get(r, j) == Get(m, j)
  {
    m[k := Get(m, k) + n]
  }

  /** Some key of a non-empty map. */
  ghost function Pick<K>(m: map<K, nat>): (k: K)
    requires m != map[]
    ensures k in m
  {
    var k :| k in m; k
  }

  /** The total of the values of a counter dictionary (`sum(d.values())`). */
  ghost function Sum<K>(m: map<K, nat>): nat
    decreases |m|
  {
    if m == map[] then 0
    else var k := Pick(m); m[k] + Sum(m - {k})
  }

  /** The total does not depend on which key is taken out first. */
  lemma {:induction false} SumRemove<K>(m: map<K, nat>, k: K)
    requires k in m
    ensures Sum(m) == m[k] + Sum(m - {k})
    decreases |m|
  {
    var p := Pick(m);
    if p != k {
      assert |m - {p}| < |m|;
      SumRemove(m - {p}, k);
      SumRemove(m - {k}, p);
      assert m - {p} - {k} == m - {k} - {p};
    }
  }

  /** Adding `n` to one counter adds `n` to the total. */
  lemma SumAdd<K(!new)>(m: map<K, nat>, k: K, n: nat)
    ensures Sum(Add(m, k, n)) == Sum(m) + n
  {
    var r := Add(m, k, n);
    SumRemove(r, k);
    if k in m {
      SumRemove(m, k);
      assert r - {k} == m - {k};
    } else {
      assert r - {k} == m;
    }
  }

  /** One counter per distinct key: `k` occurs `Get(Tally(keys), k)` times in `keys`. */
  function Tally<K(!new)>(keys: seq<K>): map<K, nat>
    decreases |keys|
  {
    if keys == [] then map[] else Add(Tally(keys[..|keys| - 1]), keys[|keys| - 1], 1)
  }

  lemma TallySnoc<K(!new)>(keys: seq<K>, k: K)
    ensures Tally(keys + [k]) == Add(Tally(keys), k, 1)
  {
    assert (keys + [k])[..|keys|] == keys;
  }

  /** Counting every key once makes the counters add up to the number of keys. */
  lemma {:induction false} TallySum<K(!new)>(keys: seq<K>)
    ensures Sum(Tally(keys)) == |keys|
    decreases |keys|
  {
    if keys != [] {
      TallySum(keys[..|keys| - 1]);
      SumAdd(Tally(keys[..|keys| - 1]), keys[|keys| - 1], 1);
    }
  }

  /** Each counter is the number of occurrences of its key. */
  lemma {:induction false} TallyCount<K(!new)>(keys: seq<K>, k: K)
    ensures Get(Tally(keys), k) == multiset(keys)[k]
    decreases |keys|
  {
    if keys != [] {
      var init := keys[..|keys| - 1];
      TallyCount(init, k);
      assert keys == init + [keys[|keys| - 1]];
    }
  }

  /** The keys counted are the keys that occur. */
  lemma {:induction false} TallyKeys<K(!new)>(keys: seq<K>)
    ensures Tally(keys).Keys == set x | x in keys
    decreases |keys|
  {
    if keys != [] {
      var init := keys[..|keys| - 1];
      TallyKeys(init);
      assert keys == init + [keys[|keys| - 1]];
    }
  }

  /** The total of a sequence of counts. */
  function SumSeq(s: seq<nat>): nat
  {
    if s == [] then 0 else SumSeq(s[..|s| - 1]) + s[|s| - 1]
  }

  /** Totals of concatenated sequences add up. */
  lemma {:induction false} SumSeqAppend(a: seq<nat>, b: seq<nat>)
    ensures SumSeq(a + b) == SumSeq(a) + SumSeq(b)
    decreases |b|
  {
    if b != [] {
      assert (a + b)[..|a + b| - 1] == a + b[..|b| - 1];
      SumSeqAppend(a, b[..|b| - 1]);
    } else {
      assert a + b == a;
    }
  }
}
