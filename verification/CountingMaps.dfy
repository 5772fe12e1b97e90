/**
 Hash maps that count, and that can be merged by adding up their counts.
 */
module CountingMaps {

  function Get<K>(m: map<K, nat>, k: K): nat {
    if k in m then m[k] else 0
  }

  ghost function Sum<K>(a: map<K, nat>, b: map<K, nat>): map<K, nat> {
    map k | k in a.Keys + b.Keys :: Get(a, k) + Get(b, k)
  }

  /** The items that have `k`. */
  ghost function Having<K>(items: set<nat>, has: (nat, K) -> bool, k: K): set<nat> {
    set i | i in items && has(i, k)
  }

  /** The map says of each key how many of the items have it. */
  ghost predicate Counts<K(!new)>(m: map<K, nat>, items: set<nat>, has: (nat, K) -> bool) {
    forall k :: CountsKey(m, items, has, k)
  }

  ghost predicate CountsKey<K>(m: map<K, nat>, items: set<nat>, has: (nat, K) -> bool, k: K) {
    Get(m, k) == |Having(items, has, k)| && (k in m ==> m[k] > 0)
  }

  lemma CountsNothing<K(!new)>(has: (nat, K) -> bool)
    ensures Counts(map[], {}, has)
  {}

  /** Maps for disjoint sets of items add up to one for all of them. */
  lemma CountsSum<K(!new)>(a: map<K, nat>, itemsA: set<nat>, b: map<K, nat>, itemsB: set<nat>, has: (nat, K) -> bool)
    requires Counts(a, itemsA, has) && Counts(b, itemsB, has) && itemsA !! itemsB
    ensures Counts(Sum(a, b), itemsA + itemsB, has)
  {
    forall k
      ensures CountsKey(Sum(a, b), itemsA + itemsB, has, k)
    {
      assert CountsKey(a, itemsA, has, k) && CountsKey(b, itemsB, has, k);
      assert Having(itemsA + itemsB, has, k) == Having(itemsA, has, k) + Having(itemsB, has, k);
    }
  }

  /** The effect of adding `n` for each of the `keys`. */
  ghost predicate AddedTo<K(!new)>(m: map<K, nat>, keys: set<K>, n: nat, m': map<K, nat>) {
    && m'.Keys == m.Keys + keys
    && forall k :: Get(m', k) == Get(m, k) + if k in keys then n else 0
  }

  /** New items that all have exactly the `keys`. */
  lemma CountsAdded<K(!new)>(m: map<K, nat>, items: set<nat>, has: (nat, K) -> bool, keys: set<K>, more: set<nat>,
                             m': map<K, nat>)
    requires Counts(m, items, has) && items !! more && (keys != {} ==> more != {})
    requires forall i, k | i in more :: has(i, k) <==> k in keys
    requires AddedTo(m, keys, |more|, m')
    ensures Counts(m', items + more, has)
  {
    forall k
      ensures CountsKey(m', items + more, has, k)
    {
      assert CountsKey(m, items, has, k);
      assert Having(items + more, has, k) == Having(items, has, k) + if k in keys then more else {};
      assert k in keys ==> |more| > 0;
    }
  }

  lemma SumStep<K>(a: map<K, nat>, b: map<K, nat>, rest: set<K>, key: K)
    requires key in rest && rest <= b.Keys
    ensures Sum(a, b - (rest - {key})) == Sum(a, b - rest)[key := Get(Sum(a, b - rest), key) + b[key]]
  {
    var l, r := Sum(a, b - (rest - {key})), Sum(a, b - rest)[key := Get(Sum(a, b - rest), key) + b[key]];
    assert (b - (rest - {key})).Keys == (b - rest).Keys + {key};
    assert l.Keys == r.Keys;
    forall k | k in l
      ensures l[k] == r[k]
    {
      assert k != key ==> Get(b - (rest - {key}), k) == Get(b - rest, k);
    }
  }

  class MergeableHashMap<K(==)> {
    var content: map<K, nat>

    constructor ()
      ensures content == map[]
    {
      content := map[];
    }

    /** `(*this)[key] += n` */
    method Add(key: K, n: nat)
      modifies this
      ensures content == old(content)[key := Get(old(content), key) + n]
    {
      content := content[key := Get(content, key) + n];
    }

    method Merge(rhs: MergeableHashMap<K>)
      requires rhs != this
      modifies this
      ensures content == Sum(old(content), rhs.content)
    {
      var rest := rhs.content.Keys;
      assert content == Sum(old(content), rhs.content - rest);
      while rest != {}
        invariant rest <= rhs.content.Keys
        invariant content == Sum(old(content), rhs.content - rest)
        decreases |rest|
      {
        var key :| key in rest;
        SumStep(old(content), rhs.content, rest, key);
        Add(key, rhs.content[key]);
        rest := rest - {key};
      }
      assert rhs.content - {} == rhs.content;
    }
  }

  /** The entries of a map, in some order. */
  method Entries<K(==)>(m: map<K, nat>) returns (entries: seq<(K, nat)>)
    ensures forall i | 0 <= i < |entries| :: entries[i].0 in m && entries[i].1 == m[entries[i].0]
    ensures forall i, j | 0 <= i < j < |entries| :: entries[i].0 != entries[j].0
    ensures forall k | k in m :: (k, m[k]) in entries
  {
    entries := [];
    var rest := m.Keys;
    while rest != {}
      invariant rest <= m.Keys
      invariant forall i | 0 <= i < |entries| ::
                  entries[i].0 in m && entries[i].0 !in rest && entries[i].1 == m[entries[i].0]
      invariant forall i, j | 0 <= i < j < |entries| :: entries[i].0 != entries[j].0
      invariant forall k | k in m && k !in rest :: (k, m[k]) in entries
      decreases |rest|
    {
      var key :| key in rest;
      ghost var before := entries;
      entries := entries + [(key, m[key])];
      assert entries[|before|] == (key, m[key]);
      rest := rest - {key};
    }
  }
}
