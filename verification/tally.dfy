/** Counting with a JavaScript `Map` seeded with some keys at zero: each element
    adds one under its key, and a key met for the first time is appended after
    all keys already present. */
module Tally {
  import opened Common
  import opened Seqs

  function NotIn<K(==)>(seeds: seq<K>): K -> bool { (k: K) => k !in seeds }

  /** The keys a seeded map ends with: the seeds, then the other keys of `s` in
      first-seen order. */
  function KeysAfter<T, K(==)>(seeds: seq<K>, s: seq<T>, key: T -> K): seq<K>
  {
    seeds + Distinct(Filter(Map(s, key), NotIn(seeds)))
  }

  /** The keys outside the seeds grow by one element's key when it is not a seed. */
  lemma ExtraKeysStep<T, K>(seeds: seq<K>, prefix: seq<T>, x: T, key: T -> K)
    ensures Filter(Map(prefix + [x], key), NotIn(seeds)) ==
      if key(x) in seeds then Filter(Map(prefix, key), NotIn(seeds))
      else Filter(Map(prefix, key), NotIn(seeds)) + [key(x)]
  {
    var k := key(x);
    assert Map(prefix + [x], key) == Map(prefix, key) + [k];
    FilterAppend(Map(prefix, key), [k], NotIn(seeds));
    if k in seeds {
      assert Filter([k], NotIn(seeds)) == [];
      assert Filter(Map(prefix, key), NotIn(seeds)) + [] == Filter(Map(prefix, key), NotIn(seeds));
    } else {
      assert Filter([k], NotIn(seeds)) == [k];
    }
  }

  /** An element whose key is a seed adds no key. */
  lemma SeedKeyStep<T, K>(seeds: seq<K>, prefix: seq<T>, x: T, key: T -> K)
    requires key(x) in seeds
    ensures key(x) in KeysAfter(seeds, prefix, key)
    ensures KeysAfter(seeds, prefix + [x], key) == KeysAfter(seeds, prefix, key)
  {
    ExtraKeysStep(seeds, prefix, x, key);
  }

  /** Seeds followed by the distinct extra keys grow by a non-seed key exactly
      when it is new. */
  lemma SeededDistinctSnoc<K>(seeds: seq<K>, extra: seq<K>, k: K)
    requires k !in seeds
    ensures seeds + Distinct(extra + [k]) ==
      if k in seeds + Distinct(extra) then seeds + Distinct(extra)
      else seeds + Distinct(extra) + [k]
  {
    var d := Distinct(extra);
    DistinctSnoc(extra, k);
    if k in d {
      assert k in seeds + d;
    } else {
      assert k !in seeds + d;
      assert seeds + (d + [k]) == seeds + d + [k];
    }
  }

  /** An element whose key is not a seed adds its key unless it was met before. */
  lemma OtherKeyStep<T, K>(seeds: seq<K>, prefix: seq<T>, x: T, key: T -> K)
    requires key(x) !in seeds
    ensures KeysAfter(seeds, prefix + [x], key) ==
      if key(x) in KeysAfter(seeds, prefix, key) then KeysAfter(seeds, prefix, key)
      else KeysAfter(seeds, prefix, key) + [key(x)]
  {
    var extra := Filter(Map(prefix, key), NotIn(seeds));
    ExtraKeysStep(seeds, prefix, x, key);
    SeededDistinctSnoc(seeds, extra, key(x));
  }

  /** One more element appends its key exactly when the key is new. */
  lemma KeysStep<T, K>(seeds: seq<K>, prefix: seq<T>, x: T, key: T -> K)
    ensures KeysAfter(seeds, prefix + [x], key) ==
      if key(x) in KeysAfter(seeds, prefix, key) then KeysAfter(seeds, prefix, key)
      else KeysAfter(seeds, prefix, key) + [key(x)]
  {
    if key(x) in seeds {
      SeedKeyStep(seeds, prefix, x, key);
    } else {
      OtherKeyStep(seeds, prefix, x, key);
    }
  }

  /** One `map.set(k, (map.get(k) || 0) + 1)`: an existing key keeps its place, a
      new key goes last. */
  function Increment<K(==)>(keys: seq<K>, counts: seq<nat>, k: K): (r: (seq<K>, seq<nat>))
    requires |counts| == |keys| && NoDups(keys)
    ensures r.0 == if k in keys then keys else keys + [k]
    ensures |r.1| == |r.0|
    ensures forall j :: 0 <= j < |r.0| ==> r.1[j] == (if j < |counts| then counts[j] else 0) + (if r.0[j] == k then 1 else 0)
    ensures NoDups(r.0)
  {
    match IndexOf(keys, k)
    case Some(j) => (keys, counts[j := counts[j] + 1])
    case None => (keys + [k], counts + [1])
  }

  /** What the map holds once the elements of `prefix` are counted. */
  predicate Counted<T, K(==)>(seeds: seq<K>, prefix: seq<T>, key: T -> K, keys: seq<K>, counts: seq<nat>)
  {
    && keys == KeysAfter(seeds, prefix, key)
    && NoDups(keys)
    && |counts| == |keys|
    && (forall j :: 0 <= j < |keys| ==> counts[j] == CountKey(prefix, key, keys[j]))
    && (forall m :: 0 <= m < |prefix| ==> key(prefix[m]) in keys)
  }

  lemma CountedInitially<T, K>(seeds: seq<K>, key: T -> K)
    requires NoDups(seeds)
    ensures Counted(seeds, [], key, seeds, seq(|seeds|, _ => 0))
  {
    assert KeysAfter(seeds, [], key) == seeds + [];
  }

  lemma CountedStep<T, K>(seeds: seq<K>, prefix: seq<T>, x: T, key: T -> K, keys: seq<K>, counts: seq<nat>)
    requires Counted(seeds, prefix, key, keys, counts)
    ensures var r := Increment(keys, counts, key(x)); Counted(seeds, prefix + [x], key, r.0, r.1)
  {
    var k := key(x);
    var r := Increment(keys, counts, k);
    KeysStep(seeds, prefix, x, key);
    forall j | 0 <= j < |r.0| ensures r.1[j] == CountKey(prefix + [x], key, r.0[j]) {
      CountKeyAppend(prefix, x, key, r.0[j]);
      if j >= |counts| {
        CountKeyPositiveIff(prefix, key, k);
      }
    }
    forall m | 0 <= m < |prefix + [x]| ensures key((prefix + [x])[m]) in r.0 {
      if m < |prefix| {
        assert (prefix + [x])[m] == prefix[m];
      }
    }
  }

  /** The step of the loop below, stated on positions of `s`. */
  lemma CountedAt<T, K>(seeds: seq<K>, s: seq<T>, i: nat, key: T -> K, keys: seq<K>, counts: seq<nat>)
    requires i < |s| && Counted(seeds, s[..i], key, keys, counts)
    ensures var r := Increment(keys, counts, key(s[i])); Counted(seeds, s[..i + 1], key, r.0, r.1)
  {
    PrefixSnoc(s, i);
    CountedStep(seeds, s[..i], s[i], key, keys, counts);
  }

  /** Counts `s` by `key` into a map seeded with `seeds`; returns the keys and the
      values in the map's order. */
  method CountInto<T, K(==)>(seeds: seq<K>, s: seq<T>, key: T -> K) returns (keys: seq<K>, counts: seq<nat>)
    requires NoDups(seeds)
    ensures keys == KeysAfter(seeds, s, key)
    ensures NoDups(keys)
    ensures |counts| == |keys|
    ensures forall j :: 0 <= j < |keys| ==> counts[j] == CountKey(s, key, keys[j])
    ensures forall m :: 0 <= m < |s| ==> key(s[m]) in keys
  {
    keys, counts := seeds, seq(|seeds|, _ => 0);
    CountedInitially(seeds, key);
    assert s[..0] == [];
    var i := 0;
    while i < |s|
      invariant 0 <= i <= |s|
      invariant Counted(seeds, s[..i], key, keys, counts)
    {
      CountedAt(seeds, s, i, key, keys, counts);
      var next := Increment(keys, counts, key(s[i]));
      keys, counts := next.0, next.1;
      i := i + 1;
    }
    assert s[..i] == s;
  }

  /** The counts add up to the number of elements: each is counted under exactly
      one key. */
  lemma CountsAddUp<T, K>(s: seq<T>, key: T -> K, keys: seq<K>, counts: seq<nat>)
    requires NoDups(keys) && |counts| == |keys|
    requires forall j :: 0 <= j < |keys| ==> counts[j] == CountKey(s, key, keys[j])
    requires forall m :: 0 <= m < |s| ==> key(s[m]) in keys
    ensures Sum(counts) == |s|
  {
    SumOfKeyCounts(s, key, keys, counts);
    SumCountsIsCountIn(s, key, keys);
    CountInFullIff(s, key, keys);
  }
}
