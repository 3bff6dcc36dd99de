/** Sequence operations shared by the front-end views: `Array.prototype.filter`,
    counting by key, first-seen de-duplication, the engine's stable `sort`,
    and `slice`. */
module Seqs {
  import opened Common

  // ---------------------------------------------------------------- filter

  /** `s.filter(p)`: the elements satisfying `p`, in their original order. */
  function Filter<T(==)>(s: seq<T>, p: T -> bool): (r: seq<T>)
    ensures |r| <= |s|
    ensures forall i :: 0 <= i < |r| ==> r[i] in s && p(r[i])
    ensures forall i :: 0 <= i < |s| && p(s[i]) ==> s[i] in r
  {
    if |s| == 0 then []
    else if p(s[0]) then [s[0]] + Filter(s[1..], p)
    else Filter(s[1..], p)
  }

  /** `a` can be obtained from `b` by deleting elements (order is preserved). */
  predicate SubseqOf<T(==)>(a: seq<T>, b: seq<T>)
    decreases |b|
  {
    |a| == 0 || (|b| > 0 && if a[0] == b[0] then SubseqOf(a[1..], b[1..]) else SubseqOf(a, b[1..]))
  }

  lemma {:induction false} FilterIsSubseq<T>(s: seq<T>, p: T -> bool)
    ensures SubseqOf(Filter(s, p), s)
  {
    if |s| > 0 {
      FilterIsSubseq(s[1..], p);
      var r := Filter(s, p);
      if p(s[0]) {
        assert r[1..] == Filter(s[1..], p);
      } else if |r| > 0 {
        assert r[0] in Filter(s[1..], p);
      }
    }
  }

  lemma {:induction false} FilterAppend<T>(s: seq<T>, t: seq<T>, p: T -> bool)
    ensures Filter(s + t, p) == Filter(s, p) + Filter(t, p)
  {
    if |s| > 0 {
      var u := s + t;
      assert u[0] == s[0] && u[1..] == s[1..] + t;
      FilterAppend(s[1..], t, p);
      var a, b := Filter(s[1..], p), Filter(t, p);
      if p(s[0]) {
        assert Filter(u, p) == [s[0]] + (a + b);
        assert [s[0]] + (a + b) == ([s[0]] + a) + b;
      } else {
        assert Filter(u, p) == a + b;
      }
    } else {
      assert s + t == t;
    }
  }

  /** A prefix one longer is the shorter prefix and the next element. */
  lemma PrefixSnoc<T>(s: seq<T>, i: nat)
    requires i < |s|
    ensures s[..i + 1] == s[..i] + [s[i]]
  {
  }

  /** Filtering one more element appends it exactly when it passes. */
  lemma FilterSnoc<T>(s: seq<T>, x: T, p: T -> bool)
    ensures Filter(s + [x], p) == if p(x) then Filter(s, p) + [x] else Filter(s, p)
  {
    FilterAppend(s, [x], p);
    assert Filter([x], p) == if p(x) then [x] else [];
    if !p(x) {
      assert Filter(s, p) + [] == Filter(s, p);
    }
  }

  /** Filtering by `p` and then by `q` is filtering once by their conjunction. */
  lemma {:induction false} FilterCompose<T>(s: seq<T>, p: T -> bool, q: T -> bool, pq: T -> bool)
    requires forall x :: pq(x) == (p(x) && q(x))
    ensures Filter(Filter(s, p), q) == Filter(s, pq)
  {
    if |s| > 0 {
      FilterCompose(s[1..], p, q, pq);
      if p(s[0]) {
        assert Filter(s, p)[1..] == Filter(s[1..], p);
      }
    }
  }

  /** A filter that keeps nothing returns nothing. */
  lemma {:induction false} FilterDropsAll<T>(s: seq<T>, p: T -> bool)
    requires forall i :: 0 <= i < |s| ==> !p(s[i])
    ensures Filter(s, p) == []
  {
    if |s| > 0 {
      FilterDropsAll(s[1..], p);
    }
  }

  /** A filter that keeps every element returns its input. */
  lemma {:induction false} FilterKeepsAll<T>(s: seq<T>, p: T -> bool)
    requires forall i :: 0 <= i < |s| ==> p(s[i])
    ensures Filter(s, p) == s
  {
    if |s| > 0 {
      FilterKeepsAll(s[1..], p);
      assert [s[0]] + s[1..] == s;
    }
  }

  /** Filtering twice by the same predicate changes nothing the second time. */
  lemma FilterIdempotent<T>(s: seq<T>, p: T -> bool)
    ensures Filter(Filter(s, p), p) == Filter(s, p)
  {
    var r := Filter(s, p);
    assert forall i :: 0 <= i < |r| ==> r[i] in r;
    FilterKeepsAll(r, p);
  }

  // ---------------------------------------------------------------- counting by key

  /** The number of elements whose key is `k`. */
  function CountKey<T, K(==)>(s: seq<T>, key: T -> K, k: K): (n: nat)
    ensures n <= |s|
  {
    if |s| == 0 then 0 else (if key(s[0]) == k then 1 else 0) + CountKey(s[1..], key, k)
  }

  lemma {:induction false} CountKeyAppend<T, K>(s: seq<T>, x: T, key: T -> K, k: K)
    ensures CountKey(s + [x], key, k) == CountKey(s, key, k) + (if key(x) == k then 1 else 0)
  {
    if |s| > 0 {
      CountKeyAppend(s[1..], x, key, k);
      assert (s + [x])[1..] == s[1..] + [x];
    }
  }

  /** The count by key is the length of the corresponding filter. */
  lemma {:induction false} CountKeyIsFilterLength<T, K>(s: seq<T>, key: T -> K, k: K, p: T -> bool)
    requires forall x :: p(x) == (key(x) == k)
    ensures CountKey(s, key, k) == |Filter(s, p)|
  {
    if |s| > 0 {
      CountKeyIsFilterLength(s[1..], key, k, p);
    }
  }

  /** A key that occurs is counted at least once, one that does not is counted zero times. */
  lemma {:induction false} CountKeyPositiveIff<T, K>(s: seq<T>, key: T -> K, k: K)
    ensures CountKey(s, key, k) > 0 <==> exists i :: 0 <= i < |s| && key(s[i]) == k
  {
    if |s| > 0 {
      CountKeyPositiveIff(s[1..], key, k);
      if exists i :: 0 <= i < |s[1..]| && key(s[1..][i]) == k {
        var i :| 0 <= i < |s[1..]| && key(s[1..][i]) == k;
        assert key(s[i + 1]) == k;
      }
      if exists i :: 0 <= i < |s| && key(s[i]) == k {
        var i :| 0 <= i < |s| && key(s[i]) == k;
        if i > 0 {
          assert key(s[1..][i - 1]) == k;
        }
      }
    }
  }

  predicate NoDups<T(==)>(s: seq<T>)
  {
    forall i, j :: 0 <= i < j < |s| ==> s[i] != s[j]
  }

  /** A predicate and its negation split a sequence between them. */
  lemma {:induction false} FilterPartition<T>(s: seq<T>, p: T -> bool, q: T -> bool)
    requires forall x :: q(x) == !p(x)
    ensures multiset(Filter(s, p)) + multiset(Filter(s, q)) == multiset(s)
  {
    if |s| > 0 {
      FilterPartition(s[1..], p, q);
      assert s == [s[0]] + s[1..];
    }
  }

  lemma {:induction false} NoDupsCount<T>(s: seq<T>, x: T)
    requires NoDups(s)
    ensures multiset(s)[x] <= 1
  {
    if |s| > 0 {
      assert s == [s[0]] + s[1..];
      NoDupsCount(s[1..], x);
      if s[0] == x {
        assert x !in s[1..];
      }
    }
  }

  lemma NoDupsFromCount<T>(s: seq<T>)
    requires forall x :: multiset(s)[x] <= 1
    ensures NoDups(s)
  {
    forall i, j | 0 <= i < j < |s| ensures s[i] != s[j] {
      assert s == s[..j] + s[j..];
      assert s[i] in s[..j];
      assert s[j] in s[j..];
      assert multiset(s)[s[j]] == multiset(s[..j])[s[j]] + multiset(s[j..])[s[j]];
    }
  }

  /** A permutation of a sequence without duplicates has none either. */
  lemma NoDupsPermutation<T>(a: seq<T>, b: seq<T>)
    requires multiset(a) == multiset(b) && NoDups(a)
    ensures NoDups(b)
  {
    forall x ensures multiset(b)[x] <= 1 {
      NoDupsCount(a, x);
    }
    NoDupsFromCount(b);
  }

  lemma {:induction false} CountKeyConcat<T, K>(s: seq<T>, t: seq<T>, key: T -> K, k: K)
    ensures CountKey(s + t, key, k) == CountKey(s, key, k) + CountKey(t, key, k)
  {
    if |s| == 0 {
      assert s + t == t;
    } else {
      CountKeyConcat(s[1..], t, key, k);
      assert (s + t)[1..] == s[1..] + t;
    }
  }

  /** Removing the element at `j` removes it from the multiset and from its key's count. */
  lemma {:induction false} RemoveAt<T, K>(b: seq<T>, j: nat, key: T -> K, k: K)
    requires j < |b|
    ensures multiset(b[..j] + b[j + 1..]) == multiset(b) - multiset{b[j]}
    ensures CountKey(b, key, k) == CountKey(b[..j] + b[j + 1..], key, k) + (if key(b[j]) == k then 1 else 0)
  {
    var l, x, r := b[..j], b[j], b[j + 1..];
    assert b == l + [x] + r;
    assert multiset(b) == multiset(l) + multiset{x} + multiset(r);
    assert multiset(l + r) == multiset(l) + multiset(r);
    CountKeyRemoveAt(b, j, key, k);
  }

  /** Counting by key around one removed element. */
  lemma {:induction false} CountKeyRemoveAt<T, K>(b: seq<T>, j: nat, key: T -> K, k: K)
    requires j < |b|
    ensures CountKey(b, key, k) == CountKey(b[..j] + b[j + 1..], key, k) + (if key(b[j]) == k then 1 else 0)
  {
    var x := b[j];
    var rest := [x] + b[j + 1..];
    assert b == b[..j] + rest;
    CountKeyConcat(b[..j], rest, key, k);
    CountKeyConcat(b[..j], b[j + 1..], key, k);
    assert rest[1..] == b[j + 1..];
    assert CountKey(rest, key, k) == CountKey(b[j + 1..], key, k) + (if key(x) == k then 1 else 0);
  }

  /** Counting by key does not depend on the order of the elements. */
  lemma {:induction false} CountKeyPermutation<T, K>(a: seq<T>, b: seq<T>, key: T -> K, k: K)
    requires multiset(a) == multiset(b)
    ensures CountKey(a, key, k) == CountKey(b, key, k)
    decreases |a|
  {
    if |a| == 0 {
      assert |multiset(b)| == 0;
    } else {
      var x := a[0];
      assert x in multiset(b);
      var j :| 0 <= j < |b| && b[j] == x;
      RemoveAt(b, j, key, k);
      assert a == [x] + a[1..];
      CountKeyPermutation(a[1..], b[..j] + b[j + 1..], key, k);
    }
  }

  /** The sum of the counts of the keys `ks`. */
  function SumCounts<T, K(==)>(s: seq<T>, key: T -> K, ks: seq<K>): nat
  {
    if |ks| == 0 then 0 else CountKey(s, key, ks[0]) + SumCounts(s, key, ks[1..])
  }

  /** The number of elements whose key is one of `ks`. */
  function CountIn<T, K(==)>(s: seq<T>, key: T -> K, ks: seq<K>): (n: nat)
    ensures n <= |s|
  {
    if |s| == 0 then 0 else (if key(s[0]) in ks then 1 else 0) + CountIn(s[1..], key, ks)
  }

  lemma {:induction false} SumCountsCons<T, K>(x: T, s: seq<T>, key: T -> K, ks: seq<K>)
    requires NoDups(ks)
    ensures SumCounts([x] + s, key, ks) == SumCounts(s, key, ks) + (if key(x) in ks then 1 else 0)
  {
    if |ks| > 0 {
      assert ([x] + s)[1..] == s;
      SumCountsCons(x, s, key, ks[1..]);
      assert key(x) in ks <==> key(x) == ks[0] || key(x) in ks[1..];
      assert ks[0] !in ks[1..];
    }
  }

  /** Summing the per-key counts of distinct keys counts each element with one of
      those keys exactly once. */
  lemma {:induction false} SumCountsIsCountIn<T, K>(s: seq<T>, key: T -> K, ks: seq<K>)
    requires NoDups(ks)
    ensures SumCounts(s, key, ks) == CountIn(s, key, ks)
  {
    if |s| == 0 {
      SumCountsOfNothing(s, key, ks);
    } else {
      SumCountsIsCountIn(s[1..], key, ks);
      assert [s[0]] + s[1..] == s;
      SumCountsCons(s[0], s[1..], key, ks);
    }
  }

  lemma {:induction false} SumCountsOfNothing<T, K>(s: seq<T>, key: T -> K, ks: seq<K>)
    requires |s| == 0
    ensures SumCounts(s, key, ks) == 0
  {
    if |ks| > 0 {
      SumCountsOfNothing(s, key, ks[1..]);
    }
  }

  /** `CountIn` reaches the length exactly when every key is among `ks`. */
  lemma {:induction false} CountInFullIff<T, K>(s: seq<T>, key: T -> K, ks: seq<K>)
    ensures CountIn(s, key, ks) == |s| <==> forall i :: 0 <= i < |s| ==> key(s[i]) in ks
  {
    if |s| > 0 {
      CountInFullIff(s[1..], key, ks);
      assert forall i :: 1 <= i < |s| ==> s[i] == s[1..][i - 1];
    }
  }

  // ---------------------------------------------------------------- partition by verdict

  /** The elements `f` finds nothing wrong with. */
  function NoneTest<T, E>(f: T -> Option<E>): T -> bool { (x: T) => f(x).None? }

  /** What `f` reports about the elements, in order, skipping those it accepts. */
  function Somes<T, E>(s: seq<T>, f: T -> Option<E>): seq<E>
  {
    if |s| == 0 then []
    else match f(s[0])
      case None => Somes(s[1..], f)
      case Some(e) => [e] + Somes(s[1..], f)
  }

  lemma {:induction false} SomesAppend<T, E>(s: seq<T>, x: T, f: T -> Option<E>)
    ensures Somes(s + [x], f) == Somes(s, f) + (if f(x).Some? then [f(x).value] else [])
  {
    if |s| == 0 {
      assert s + [x] == [x];
    } else {
      SomesAppend(s[1..], x, f);
      assert (s + [x])[1..] == s[1..] + [x];
    }
  }

  /** Nothing is reported exactly when every element is accepted. */
  lemma {:induction false} SomesEmptyIff<T, E>(s: seq<T>, f: T -> Option<E>)
    ensures |Somes(s, f)| == 0 <==> forall i :: 0 <= i < |s| ==> f(s[i]).None?
  {
    if |s| > 0 {
      SomesEmptyIff(s[1..], f);
      assert forall i :: 1 <= i < |s| ==> s[i] == s[1..][i - 1];
    }
  }

  /** Each element is either reported or kept, never both. */
  lemma {:induction false} SomesAndKept<T, E>(s: seq<T>, f: T -> Option<E>)
    ensures |Somes(s, f)| + |Filter(s, NoneTest(f))| == |s|
  {
    if |s| > 0 {
      SomesAndKept(s[1..], f);
    }
  }

  /** One pass over `s` that keeps the accepted elements and collects the reports
      on the others. */
  method Partition<T(==), E>(s: seq<T>, f: T -> Option<E>) returns (kept: seq<T>, reports: seq<E>)
    ensures kept == Filter(s, NoneTest(f))
    ensures reports == Somes(s, f)
  {
    kept, reports := [], [];
    var i := 0;
    while i < |s|
      invariant 0 <= i <= |s|
      invariant kept == Filter(s[..i], NoneTest(f))
      invariant reports == Somes(s[..i], f)
    {
      assert s[..i + 1] == s[..i] + [s[i]];
      FilterSnoc(s[..i], s[i], NoneTest(f));
      SomesAppend(s[..i], s[i], f);
      match f(s[i]) {
        case Some(e) => reports := reports + [e];
        case None => kept := kept + [s[i]];
      }
      i := i + 1;
    }
    assert s[..i] == s;
  }

  // ---------------------------------------------------------------- de-duplication

  /** The distinct elements of `s` in first-seen order (the key order of a
      JavaScript `Map` filled from `s`). */
  function Distinct<T(==)>(s: seq<T>): (r: seq<T>)
    ensures NoDups(r)
    ensures forall i :: 0 <= i < |r| ==> r[i] in s
    ensures forall i :: 0 <= i < |s| ==> s[i] in r
    ensures |r| <= |s|
  {
    if |s| == 0 then []
    else
      var d := Distinct(s[..|s| - 1]);
      assert forall i :: 0 <= i < |s| - 1 ==> s[i] == s[..|s| - 1][i];
      if s[|s| - 1] in d then d else d + [s[|s| - 1]]
  }

  /** `Distinct` grows by an element exactly when that element is new. */
  lemma DistinctSnoc<T>(s: seq<T>, x: T)
    ensures Distinct(s + [x]) == if x in Distinct(s) then Distinct(s) else Distinct(s) + [x]
  {
    assert (s + [x])[..|s + [x]| - 1] == s;
  }

  /** The position of the first `x` in `s`, if any. */
  function IndexOf<T(==)>(s: seq<T>, x: T): (r: Option<nat>)
    ensures r.Some? ==> r.value < |s| && s[r.value] == x
    ensures r.None? <==> x !in s
  {
    if |s| == 0 then None
    else if s[0] == x then Some(0)
    else match IndexOf(s[1..], x)
      case None => None
      case Some(i) => Some(i + 1)
  }

  function Sum(xs: seq<nat>): nat
  {
    if |xs| == 0 then 0 else xs[0] + Sum(xs[1..])
  }

  /** A list of per-key counts sums to the keys' total count. */
  lemma {:induction false} SumOfKeyCounts<T, K>(s: seq<T>, key: T -> K, ks: seq<K>, xs: seq<nat>)
    requires |xs| == |ks|
    requires forall j :: 0 <= j < |ks| ==> xs[j] == CountKey(s, key, ks[j])
    ensures Sum(xs) == SumCounts(s, key, ks)
  {
    if |ks| > 0 {
      SumOfKeyCounts(s, key, ks[1..], xs[1..]);
    }
  }

  /** The elements of `s` mapped through `f`. */
  function Map<T, U>(s: seq<T>, f: T -> U): (r: seq<U>)
    ensures |r| == |s|
    ensures forall i :: 0 <= i < |s| ==> r[i] == f(s[i])
  {
    seq(|s|, i requires 0 <= i < |s| => f(s[i]))
  }

  // ---------------------------------------------------------------- stable sort

  /** Non-increasing by `key`. */
  predicate SortedDesc<T>(s: seq<T>, key: T -> int)
  {
    forall i, j :: 0 <= i < j < |s| ==> key(s[i]) >= key(s[j])
  }

  /** An element with a key at least that of a sorted sequence's head can go in front. */
  lemma SortedCons<T>(h: T, t: seq<T>, key: T -> int)
    requires SortedDesc(t, key)
    requires |t| == 0 || key(h) >= key(t[0])
    ensures SortedDesc([h] + t, key)
  {
    var r := [h] + t;
    forall i, j | 0 <= i < j < |r| ensures key(r[i]) >= key(r[j]) {
      if i == 0 {
        assert r[j] == t[j - 1];
      } else {
        assert r[i] == t[i - 1] && r[j] == t[j - 1];
      }
    }
  }

  /** The tail of a sorted sequence is sorted and headed by no larger key. */
  lemma SortedTail<T>(s: seq<T>, key: T -> int)
    requires SortedDesc(s, key) && |s| > 0
    ensures SortedDesc(s[1..], key)
    ensures |s| > 1 ==> key(s[0]) >= key(s[1..][0])
  {
    forall i, j | 0 <= i < j < |s[1..]| ensures key(s[1..][i]) >= key(s[1..][j]) {
      assert s[1..][i] == s[i + 1] && s[1..][j] == s[j + 1];
    }
  }

  /** A non-empty sequence holds its head and the elements of its tail. */
  lemma MultisetHeadTail<T>(s: seq<T>)
    requires |s| > 0
    ensures multiset(s) == multiset{s[0]} + multiset(s[1..])
  {
    assert s == [s[0]] + s[1..];
  }

  /** Inserts `x` before the first element whose key does not exceed its own. */
  function InsertDesc<T(==)>(x: T, s: seq<T>, key: T -> int): (r: seq<T>)
    requires SortedDesc(s, key)
    ensures SortedDesc(r, key)
    ensures multiset(r) == multiset(s) + multiset{x}
    ensures |r| == |s| + 1
    ensures r[0] == if |s| == 0 || key(x) >= key(s[0]) then x else s[0]
  {
    if |s| == 0 || key(x) >= key(s[0]) then
      SortedCons(x, s, key);
      [x] + s
    else
      SortedTail(s, key);
      var rest := InsertDesc(x, s[1..], key);
      SortedCons(s[0], rest, key);
      MultisetHeadTail(s);
      [s[0]] + rest
  }

  /** The stable sort `s.sort((a, b) => key(b) - key(a))`: elements with equal keys
      keep their relative order, because an earlier element is inserted in front of
      the later elements with the same key. */
  function SortDesc<T(==)>(s: seq<T>, key: T -> int): (r: seq<T>)
    ensures SortedDesc(r, key)
    ensures multiset(r) == multiset(s)
    ensures |r| == |s|
  {
    if |s| == 0 then []
    else
      assert s == [s[0]] + s[1..];
      InsertDesc(s[0], SortDesc(s[1..], key), key)
  }

  /** `s.slice(0, n)`. */
  function Take<T>(s: seq<T>, n: nat): (r: seq<T>)
    ensures |r| == if n < |s| then n else |s|
    ensures forall i :: 0 <= i < |r| ==> r[i] == s[i]
  {
    if n < |s| then s[..n] else s
  }

  /** A prefix of a sorted sequence is sorted and made of the sequence's elements. */
  lemma TakeOfSorted<T>(r: seq<T>, n: nat, key: T -> int)
    requires SortedDesc(r, key)
    ensures SortedDesc(Take(r, n), key)
    ensures multiset(Take(r, n)) <= multiset(r)
  {
    var p := Take(r, n);
    assert r == p + r[|p|..];
  }

  /** The first `n` of distinct entries sorted by `key`: distinct, sorted, drawn
      from the entries, as many as there are up to `n`, and no entry left out has a
      larger key than one kept. */
  lemma TopOf<T>(entries: seq<T>, key: T -> int, n: nat)
    requires NoDups(entries)
    ensures var r := Take(SortDesc(entries, key), n);
      && NoDups(r)
      && SortedDesc(r, key)
      && (forall i :: 0 <= i < |r| ==> r[i] in entries)
      && |r| == (if n < |entries| then n else |entries|)
      && (forall e, x :: e in entries && e !in r && x in r ==> key(x) >= key(e))
  {
    var sorted := SortDesc(entries, key);
    var r := Take(sorted, n);
    NoDupsPermutation(entries, sorted);
    TakeOfSorted(sorted, n, key);
    PrefixDominates(sorted, n, key);
    forall i | 0 <= i < |r| ensures r[i] in entries {
      assert r[i] == sorted[i];
      assert r[i] in multiset(entries);
    }
    forall e, x | e in entries && e !in r && x in r ensures key(x) >= key(e) {
      assert e in multiset(sorted);
      assert multiset(r)[e] == 0;
      assert e in multiset(sorted) - multiset(r);
    }
  }

  /** Every element of a prefix of a sorted sequence has a key at least that of
      every element left out of the prefix. */
  lemma PrefixDominates<T>(r: seq<T>, n: nat, key: T -> int)
    requires SortedDesc(r, key)
    ensures forall x, y :: x in Take(r, n) && y in multiset(r) - multiset(Take(r, n)) ==> key(x) >= key(y)
  {
    var p := Take(r, n);
    var k := |p|;
    assert r == p + r[k..];
    assert multiset(r) - multiset(p) == multiset(r[k..]);
    forall x, y | x in p && y in multiset(r[k..])
      ensures key(x) >= key(y)
    {
      var i :| 0 <= i < k && p[i] == x;
      var j :| 0 <= j < |r[k..]| && r[k..][j] == y;
      assert r[k + j] == y;
    }
  }
}
