/**
 * The pool index of enoslib/infra/utils.py: `mk_pools` groups interchangeable
 * resources into buckets by a key, after a stable sort on that key, and
 * `pick_things` withdraws at most `n` resources from the front of one bucket.
 */
module Pools {
  import opened Common

  // ---------------------------------------------------------------------------
  // Specification: the bucket of a key is the input filtered by that key.

  /** The items of `s` whose key is `k`, in their order in `s`. */
  function Bucket<K(==,!new), T(==,!new)>(s: seq<T>, key: T -> K, k: K): (r: seq<T>)
    ensures |r| <= |s|
  {
    if s == [] then []
    else (if key(s[0]) == k then [s[0]] else []) + Bucket(s[1..], key, k)
  }

  /** The bucket of `k` holds only items of `s` whose key is `k`. */
  lemma {:induction false} BucketKeyed<K(!new), T(!new)>(s: seq<T>, key: T -> K, k: K)
    ensures forall x :: x in Bucket(s, key, k) ==> x in s && key(x) == k
  {
    if s != [] {
      BucketKeyed(s[1..], key, k);
    }
  }

  /** An item of key `k` occurs in the bucket of `k` exactly as often as in `s`. */
  lemma {:induction false} BucketCount<K(!new), T(!new)>(s: seq<T>, key: T -> K, k: K, x: T)
    requires key(x) == k
    ensures multiset(Bucket(s, key, k))[x] == multiset(s)[x]
  {
    if s != [] {
      BucketCount(s[1..], key, k, x);
      assert s == [s[0]] + s[1..];
    }
  }

  lemma {:induction false} BucketConcat<K(!new), T(!new)>(a: seq<T>, b: seq<T>, key: T -> K, k: K)
    ensures Bucket(a + b, key, k) == Bucket(a, key, k) + Bucket(b, key, k)
  {
    if a == [] {
      assert a + b == b;
    } else {
      var h := if key(a[0]) == k then [a[0]] else [];
      assert (a + b)[0] == a[0];
      assert (a + b)[1..] == a[1..] + b;
      BucketConcat(a[1..], b, key, k);
      calc {
        Bucket(a + b, key, k);
        h + Bucket(a[1..] + b, key, k);
        h + (Bucket(a[1..], key, k) + Bucket(b, key, k));
        (h + Bucket(a[1..], key, k)) + Bucket(b, key, k);
      }
    }
  }

  /** The keys that occur in `s`. */
  function Keys<K(!new), T(==,!new)>(s: seq<T>, key: T -> K): set<K>
  {
    set x | x in s :: key(x)
  }

  /** What `mk_pools(s, key)` builds: one bucket per key present in `s`. */
  function Index<K(==,!new), T(==,!new)>(s: seq<T>, key: T -> K): (pools: map<K, seq<T>>)
  {
    map k | k in Keys(s, key) :: Bucket(s, key, k)
  }

  /**
   * Every input item lies in the bucket of its key, as often as it occurs in
   * the input, and in no other bucket; no bucket is empty.
   */
  lemma IndexPartition<K(!new), T(!new)>(s: seq<T>, key: T -> K)
    ensures forall k :: k in Index(s, key) ==> Index(s, key)[k] != []
    ensures forall k, x :: k in Index(s, key) && x in Index(s, key)[k] ==> key(x) == k
    ensures forall x :: x in s ==>
      key(x) in Index(s, key) && multiset(Index(s, key)[key(x)])[x] == multiset(s)[x]
  {
    var pools := Index(s, key);
    forall k | k in pools ensures forall x :: x in pools[k] ==> key(x) == k {
      BucketKeyed(s, key, k);
    }
    forall k | k in pools ensures pools[k] != [] {
      var x :| x in s && key(x) == k;
      BucketCount(s, key, k, x);
    }
    forall x | x in s ensures multiset(pools[key(x)])[x] == multiset(s)[x] {
      BucketCount(s, key, key(x), x);
    }
  }

  /** Sum of the sizes of the buckets of the keys `ks`. */
  function SumBucketSizes<K(==,!new), T(==,!new)>(s: seq<T>, key: T -> K, ks: seq<K>): nat
  {
    if ks == [] then 0 else |Bucket(s, key, ks[0])| + SumBucketSizes(s, key, ks[1..])
  }

  /** Conservation: over any listing of the keys, each once, bucket sizes sum to |s|. */
  lemma {:induction false} BucketSizesSum<K(!new), T(!new)>(s: seq<T>, key: T -> K, ks: seq<K>)
    requires forall i, j :: 0 <= i < j < |ks| ==> ks[i] != ks[j]
    requires Keys(s, key) <= set k | k in ks
    ensures SumBucketSizes(s, key, ks) == |s|
  {
    if s == [] {
      ZeroSizes(s, key, ks);
    } else {
      var x := s[0];
      assert key(x) in Keys(s, key);
      assert Keys(s[1..], key) <= Keys(s, key) by {
        forall k | k in Keys(s[1..], key) ensures k in Keys(s, key) {
          var y :| y in s[1..] && key(y) == k;
          assert y in s;
        }
      }
      BucketSizesSum(s[1..], key, ks);
      SizesSplit(s, key, ks);
    }
  }

  lemma {:induction false} ZeroSizes<K(!new), T(!new)>(s: seq<T>, key: T -> K, ks: seq<K>)
    requires s == []
    ensures SumBucketSizes(s, key, ks) == 0
  {
    if ks != [] {
      ZeroSizes(s, key, ks[1..]);
    }
  }

  /** Adding the head of `s` adds one to the bucket of its key and nothing elsewhere. */
  lemma {:induction false} SizesSplit<K(!new), T(!new)>(s: seq<T>, key: T -> K, ks: seq<K>)
    requires s != []
    requires forall i, j :: 0 <= i < j < |ks| ==> ks[i] != ks[j]
    ensures SumBucketSizes(s, key, ks)
      == SumBucketSizes(s[1..], key, ks) + (if key(s[0]) in ks then 1 else 0)
  {
    if ks != [] {
      assert s == [s[0]] + s[1..];
      SizesSplit(s, key, ks[1..]);
      if key(s[0]) == ks[0] {
        assert key(s[0]) !in ks[1..];
      }
    }
  }

  // ---------------------------------------------------------------------------
  // Python's `sorted(s, key=key)`: a stable sort, written as an insertion sort.

  /** Inserts `x` before the first item whose key is not smaller than its own. */
  function InsertByKey<K(!new), T(!new)>(x: T, s: seq<T>, key: T -> K, less: (K, K) -> bool): (r: seq<T>)
    ensures multiset(r) == multiset(s) + multiset{x}
  {
    if s == [] || !less(key(s[0]), key(x)) then [x] + s
    else
      assert s == [s[0]] + s[1..];
      [s[0]] + InsertByKey(x, s[1..], key, less)
  }

  function SortByKey<K(!new), T(!new)>(s: seq<T>, key: T -> K, less: (K, K) -> bool): (r: seq<T>)
    ensures multiset(r) == multiset(s)
  {
    if s == [] then []
    else
      assert s == [s[0]] + s[1..];
      InsertByKey(s[0], SortByKey(s[1..], key, less), key, less)
  }

  ghost predicate Irreflexive<K(!new)>(less: (K, K) -> bool) {
    forall a :: !less(a, a)
  }

  ghost predicate StrictTotalOrder<K(!new)>(less: (K, K) -> bool) {
    && Irreflexive(less)
    && (forall a, b, c :: less(a, b) && less(b, c) ==> less(a, c))
    && (forall a, b :: a != b ==> less(a, b) || less(b, a))
  }

  /** No item's key is smaller than the key of an item placed before it. */
  ghost predicate SortedByKey<K(!new), T(!new)>(s: seq<T>, key: T -> K, less: (K, K) -> bool) {
    forall i, j :: 0 <= i < j < |s| ==> !less(key(s[j]), key(s[i]))
  }

  lemma {:induction false} InsertBucket<K(!new), T(!new)>(x: T, s: seq<T>, key: T -> K, less: (K, K) -> bool, k: K)
    requires forall a :: !less(a, a)
    ensures Bucket(InsertByKey(x, s, key, less), key, k)
      == (if key(x) == k then [x] else []) + Bucket(s, key, k)
  {
    var bx := if key(x) == k then [x] else [];
    if s == [] || !less(key(s[0]), key(x)) {
      assert InsertByKey(x, s, key, less) == [x] + s;
      assert ([x] + s)[1..] == s;
    } else {
      assert InsertByKey(x, s, key, less) == [s[0]] + InsertByKey(x, s[1..], key, less);
      var rest := InsertByKey(x, s[1..], key, less);
      var r := [s[0]] + rest;
      var b0 := if key(s[0]) == k then [s[0]] else [];
      assert r[1..] == rest;
      assert Bucket(r, key, k) == b0 + Bucket(rest, key, k);
      InsertBucket(x, s[1..], key, less, k);
      assert key(s[0]) != key(x);
      assert b0 == [] || bx == [];
      assert Bucket(s, key, k) == b0 + Bucket(s[1..], key, k);
    }
  }

  /** Stability: sorting keeps the order of the items of each key. */
  lemma {:induction false} SortByKeyStable<K(!new), T(!new)>(s: seq<T>, key: T -> K, less: (K, K) -> bool, k: K)
    requires forall a :: !less(a, a)
    ensures Bucket(SortByKey(s, key, less), key, k) == Bucket(s, key, k)
  {
    if s != [] {
      SortByKeyStable(s[1..], key, less, k);
      InsertBucket(s[0], SortByKey(s[1..], key, less), key, less, k);
    }
  }

  /** Inserting an item whose key is not below `b` into items whose keys are not below `b`. */
  lemma InsertKeepsBound<K(!new), T(!new)>(x: T, s: seq<T>, key: T -> K, less: (K, K) -> bool, b: K)
    requires forall y :: y in s ==> !less(key(y), b)
    requires !less(key(x), b)
    ensures forall y :: y in InsertByKey(x, s, key, less) ==> !less(key(y), b)
  {
    var r := InsertByKey(x, s, key, less);
    forall y | y in r ensures !less(key(y), b) {
      assert y in multiset(r);
      assert y == x || y in multiset(s);
    }
  }

  /** A sorted sequence with a head whose key is not above any other key is sorted. */
  lemma ConsSorted<K(!new), T(!new)>(h: T, s: seq<T>, key: T -> K, less: (K, K) -> bool)
    requires SortedByKey(s, key, less)
    requires forall y :: y in s ==> !less(key(y), key(h))
    ensures SortedByKey([h] + s, key, less)
  {
    var r := [h] + s;
    forall i, j | 0 <= i < j < |r| ensures !less(key(r[j]), key(r[i])) {
      assert r[j] == s[j - 1];
      if i > 0 {
        assert r[i] == s[i - 1];
      }
    }
  }

  lemma {:induction false} InsertSorted<K(!new), T(!new)>(x: T, s: seq<T>, key: T -> K, less: (K, K) -> bool)
    requires StrictTotalOrder(less)
    requires SortedByKey(s, key, less)
    ensures SortedByKey(InsertByKey(x, s, key, less), key, less)
  {
    if s == [] || !less(key(s[0]), key(x)) {
      forall y | y in s ensures !less(key(y), key(x)) {
        var j :| 0 <= j < |s| && s[j] == y;
        assert !less(key(s[j]), key(s[0]));
      }
      ConsSorted(x, s, key, less);
    } else {
      var h := s[0];
      assert s == [h] + s[1..];
      InsertSorted(x, s[1..], key, less);
      forall y | y in s[1..] ensures !less(key(y), key(h)) {
        var j :| 0 <= j < |s[1..]| && s[1..][j] == y;
        assert s[j + 1] == y;
      }
      InsertKeepsBound(x, s[1..], key, less, key(h));
      ConsSorted(h, InsertByKey(x, s[1..], key, less), key, less);
    }
  }

  /** Sorting leaves the items in non-decreasing order of their keys. */
  lemma {:induction false} SortByKeySorted<K(!new), T(!new)>(s: seq<T>, key: T -> K, less: (K, K) -> bool)
    requires StrictTotalOrder(less)
    ensures SortedByKey(SortByKey(s, key, less), key, less)
  {
    if s != [] {
      SortByKeySorted(s[1..], key, less);
      InsertSorted(s[0], SortByKey(s[1..], key, less), key, less);
    }
  }

  /** Sequences holding the same items have the same keys. */
  lemma SameKeys<K(!new), T(!new)>(s: seq<T>, t: seq<T>, key: T -> K)
    requires multiset(s) == multiset(t)
    ensures Keys(s, key) == Keys(t, key)
  {
    forall x ensures x in t <==> x in s {
      assert x in t <==> x in multiset(t);
      assert x in s <==> x in multiset(s);
    }
  }

  /** Two inputs with the same keys and the same bucket for each key index alike. */
  lemma SameIndex<K(!new), T(!new)>(s: seq<T>, t: seq<T>, key: T -> K)
    requires Keys(s, key) == Keys(t, key)
    requires forall k :: Bucket(t, key, k) == Bucket(s, key, k)
    ensures Index(t, key) == Index(s, key)
  {
  }

  /** Sorting by the grouping key does not change the pools built from it. */
  lemma SortKeepsIndex<K(!new), T(!new)>(s: seq<T>, key: T -> K, less: (K, K) -> bool)
    requires forall a :: !less(a, a)
    ensures Index(SortByKey(s, key, less), key) == Index(s, key)
  {
    var t := SortByKey(s, key, less);
    SameKeys(s, t, key);
    forall k ensures Bucket(t, key, k) == Bucket(s, key, k) {
      SortByKeyStable(s, key, less, k);
    }
    SameIndex(s, t, key);
  }

  /** Appending a run of items of key `k` extends the bucket of `k` only. */
  lemma IndexExtendRun<K(!new), T(!new)>(a: seq<T>, run: seq<T>, key: T -> K, k: K)
    requires run != []
    requires forall i :: 0 <= i < |run| ==> key(run[i]) == k
    ensures Index(a + run, key)
      == Index(a, key)[k := (if k in Index(a, key) then Index(a, key)[k] else []) + run]
  {
    var lhs := Index(a + run, key);
    var old_ := Index(a, key);
    assert Keys(a + run, key) == Keys(a, key) + {k} by {
      assert run[0] in a + run;
      forall y | y in a + run ensures key(y) in Keys(a, key) + {k} {
        if y !in a {
          var i :| 0 <= i < |run| && run[i] == y;
        }
      }
    }
    forall k' | k' in Keys(a + run, key)
      ensures lhs[k'] == old_[k := (if k in old_ then old_[k] else []) + run][k']
    {
      BucketConcat(a, run, key, k');
      RunBucket(run, key, k, k');
      if k !in old_ {
        AbsentKeyBucket(a, key, k);
      }
    }
  }

  lemma {:induction false} AbsentKeyBucket<K(!new), T(!new)>(s: seq<T>, key: T -> K, k: K)
    requires k !in Keys(s, key)
    ensures Bucket(s, key, k) == []
  {
    if s != [] {
      assert s[0] in s;
      assert Keys(s[1..], key) <= Keys(s, key) by {
        forall k' | k' in Keys(s[1..], key) ensures k' in Keys(s, key) {
          var y :| y in s[1..] && key(y) == k';
          assert y in s;
        }
      }
      AbsentKeyBucket(s[1..], key, k);
    }
  }

  lemma {:induction false} RunBucket<K(!new), T(!new)>(run: seq<T>, key: T -> K, k: K, k': K)
    requires forall i :: 0 <= i < |run| ==> key(run[i]) == k
    ensures Bucket(run, key, k') == if k' == k then run else []
  {
    if run != [] {
      RunBucket(run[1..], key, k, k');
      assert run == [run[0]] + run[1..];
    }
  }

  // ---------------------------------------------------------------------------
  // Reading the pools in key order.

  /** The buckets of the keys `ks`, one after the other. */
  function ConcatBuckets<K(==,!new), T(==,!new)>(s: seq<T>, key: T -> K, ks: seq<K>): seq<T>
  {
    if ks == [] then [] else Bucket(s, key, ks[0]) + ConcatBuckets(s, key, ks[1..])
  }

  /** The pools read bucket after bucket in the order `ks`; a key without a bucket reads as empty. */
  function InKeyOrder<K(==,!new), T(!new)>(pools: map<K, seq<T>>, ks: seq<K>): seq<T>
  {
    if ks == [] then [] else (if ks[0] in pools then pools[ks[0]] else []) + InKeyOrder(pools, ks[1..])
  }

  ghost predicate Ascending<K(!new)>(ks: seq<K>, less: (K, K) -> bool) {
    forall i, j :: 0 <= i < j < |ks| ==> less(ks[i], ks[j])
  }

  /** How many items at the front of `s` have key `k`. */
  function LeadingRun<K(==,!new), T(!new)>(s: seq<T>, key: T -> K, k: K): (p: nat)
    ensures p <= |s|
    ensures forall i :: 0 <= i < p ==> key(s[i]) == k
    ensures p < |s| ==> key(s[p]) != k
  {
    if s == [] || key(s[0]) != k then 0 else 1 + LeadingRun(s[1..], key, k)
  }

  lemma {:induction false} ConcatBucketsSame<K(!new), T(!new)>(s: seq<T>, t: seq<T>, key: T -> K, ks: seq<K>)
    requires forall i :: 0 <= i < |ks| ==> Bucket(s, key, ks[i]) == Bucket(t, key, ks[i])
    ensures ConcatBuckets(s, key, ks) == ConcatBuckets(t, key, ks)
  {
    if ks != [] {
      ConcatBucketsSame(s, t, key, ks[1..]);
    }
  }

  /** In a sorted sequence, the items after the leading run of the least key have later keys. */
  lemma RestInTail<K(!new), T(!new)>(s: seq<T>, key: T -> K, less: (K, K) -> bool, ks: seq<K>, p: nat)
    requires SortedByKey(s, key, less) && Ascending(ks, less) && ks != []
    requires forall x :: x in s ==> key(x) in ks
    requires p == LeadingRun(s, key, ks[0])
    ensures forall x :: x in s[p..] ==> key(x) in ks[1..]
    ensures SortedByKey(s[p..], key, less)
  {
    var rest := s[p..];
    forall x | x in rest ensures key(x) in ks[1..] {
      var j :| 0 <= j < |rest| && rest[j] == x;
      assert s[p] in s;
      var m :| 0 <= m < |ks| && ks[m] == key(s[p]);
      assert key(x) != ks[0] by {
        assert m > 0 && less(ks[0], ks[m]);
        if j > 0 {
          assert !less(key(s[p + j]), key(s[p]));
        }
      }
      assert x in s;
      var m' :| 0 <= m' < |ks| && ks[m'] == key(x);
      assert ks[1..][m' - 1] == key(x);
    }
    forall i, j | 0 <= i < j < |rest| ensures !less(key(rest[j]), key(rest[i])) {
      assert rest[i] == s[p + i] && rest[j] == s[p + j];
    }
  }

  /** Splitting at the leading run of the least key: that run is its bucket, the rest hold the others. */
  lemma LeadingRunBuckets<K(!new), T(!new)>(s: seq<T>, key: T -> K, less: (K, K) -> bool, ks: seq<K>, p: nat)
    requires Irreflexive(less) && Ascending(ks, less) && ks != []
    requires p == LeadingRun(s, key, ks[0])
    requires forall x :: x in s[p..] ==> key(x) in ks[1..]
    ensures Bucket(s, key, ks[0]) == s[..p]
    ensures forall i :: 1 <= i < |ks| ==> Bucket(s, key, ks[i]) == Bucket(s[p..], key, ks[i])
  {
    var k0 := ks[0];
    var run, rest := s[..p], s[p..];
    assert s == run + rest;
    assert k0 !in Keys(rest, key);
    BucketConcat(run, rest, key, k0);
    RunBucket(run, key, k0, k0);
    AbsentKeyBucket(rest, key, k0);
    forall i | 1 <= i < |ks| ensures Bucket(s, key, ks[i]) == Bucket(rest, key, ks[i]) {
      assert less(ks[0], ks[i]);
      BucketConcat(run, rest, key, ks[i]);
      RunBucket(run, key, k0, ks[i]);
    }
  }

  lemma {:induction false} EmptyConcatBuckets<K(!new), T(!new)>(s: seq<T>, key: T -> K, ks: seq<K>)
    requires s == []
    ensures ConcatBuckets(s, key, ks) == []
  {
    if ks != [] {
      EmptyConcatBuckets(s, key, ks[1..]);
    }
  }

  /** The leading run of the least key, split off: its bucket, and a sorted rest holding the other keys. */
  lemma SplitLeading<K(!new), T(!new)>(s: seq<T>, key: T -> K, less: (K, K) -> bool, ks: seq<K>) returns (p: nat)
    requires Irreflexive(less) && SortedByKey(s, key, less) && Ascending(ks, less) && ks != []
    requires forall x :: x in s ==> key(x) in ks
    ensures p <= |s|
    ensures SortedByKey(s[p..], key, less) && forall x :: x in s[p..] ==> key(x) in ks[1..]
    ensures Bucket(s, key, ks[0]) == s[..p]
    ensures ConcatBuckets(s, key, ks[1..]) == ConcatBuckets(s[p..], key, ks[1..])
  {
    p := LeadingRun(s, key, ks[0]);
    RestInTail(s, key, less, ks, p);
    LeadingRunBuckets(s, key, less, ks, p);
    ConcatBucketsSame(s, s[p..], key, ks[1..]);
  }

  /** A sequence sorted by key is its buckets laid end to end in ascending key order. */
  lemma {:induction false} SortedConcatBuckets<K(!new), T(!new)>(s: seq<T>, key: T -> K, less: (K, K) -> bool, ks: seq<K>)
    requires Irreflexive(less) && SortedByKey(s, key, less) && Ascending(ks, less)
    requires forall x :: x in s ==> key(x) in ks
    ensures ConcatBuckets(s, key, ks) == s
    decreases |ks|
  {
    if s == [] {
      EmptyConcatBuckets(s, key, ks);
    } else {
      assert s[0] in s;
      var p := SplitLeading(s, key, less, ks);
      SortedConcatBuckets(s[p..], key, less, ks[1..]);
      assert s == s[..p] + s[p..];
    }
  }

  /** Reading the pools of any input in the order `ks` reads the buckets of `ks` from that input. */
  lemma {:induction false} InKeyOrderBuckets<K(!new), T(!new)>(s: seq<T>, key: T -> K, ks: seq<K>)
    ensures InKeyOrder(Index(s, key), ks) == ConcatBuckets(s, key, ks)
  {
    if ks != [] {
      InKeyOrderBuckets(s, key, ks[1..]);
      if ks[0] !in Index(s, key) {
        AbsentKeyBucket(s, key, ks[0]);
      }
    }
  }

  /**
   * The buckets of `mk_pools`, read in ascending key order, give back the
   * input stably sorted by key.
   */
  lemma PoolsInKeyOrder<K(!new), T(!new)>(things: seq<T>, key: T -> K, less: (K, K) -> bool, ks: seq<K>)
    requires StrictTotalOrder(less) && Ascending(ks, less)
    requires Keys(things, key) <= set k | k in ks
    ensures InKeyOrder(Index(things, key), ks) == SortByKey(things, key, less)
  {
    var s := SortByKey(things, key, less);
    SortKeepsIndex(things, key, less);
    InKeyOrderBuckets(s, key, ks);
    SortByKeySorted(things, key, less);
    forall x | x in s ensures key(x) in ks {
      assert multiset(s)[x] > 0;
      assert x in things;
      assert key(x) in Keys(things, key);
    }
    SortedConcatBuckets(s, key, less, ks);
  }

  // ---------------------------------------------------------------------------
  // Withdrawal.

  /** The end index of the Python slice `pool[:n]` on a list of length `len`. */
  function SliceEnd(len: nat, n: int): (e: nat)
    ensures e <= len
    ensures n >= 0 ==> e == if n < len then n else len
    ensures n < 0 ==> e == if len + n > 0 then len + n else 0
  {
    if n >= 0 then (if n < len then n else len)
    else if len + n > 0 then len + n else 0
  }

  /**
   * What `pick_things(pools, k, n)` returns and leaves in `pools`: the picked
   * items followed by what is left of the bucket make up the old bucket, and
   * every other bucket is untouched.
   */
  function Take<K(!new), T(!new)>(pools: map<K, seq<T>>, k: K, n: int): (r: (seq<T>, map<K, seq<T>>))
    ensures r.1.Keys == pools.Keys
    ensures forall k' :: k' in pools && k' != k ==> r.1[k'] == pools[k']
    ensures k !in pools ==> r == ([], pools)
    ensures k in pools ==> r.0 + r.1[k] == pools[k]
    ensures k in pools && n >= 0 ==> |r.0| == if n < |pools[k]| then n else |pools[k]|
    ensures k in pools && n < 0 ==> |r.0| == if |pools[k]| + n > 0 then |pools[k]| + n else 0
  {
    if k !in pools || pools[k] == [] then ([], pools)
    else
      var pool := pools[k];
      var e := SliceEnd(|pool|, n);
      assert pool[..e] + pool[e..] == pool;
      (pool[..e], pools[k := pool[e..]])
  }

  /** Taking from a bucket never adds to it: an exhausted bucket stays empty. */
  lemma TakeShrinks<K(!new), T(!new)>(pools: map<K, seq<T>>, k: K, n: int, k': K)
    requires k' in pools
    ensures |Take(pools, k, n).1[k']| <= |pools[k']|
    ensures forall x :: multiset(Take(pools, k, n).1[k'])[x] <= multiset(pools[k'])[x]
  {
    var r := Take(pools, k, n);
    if k' == k {
      assert multiset(r.0 + r.1[k]) == multiset(pools[k]);
    }
  }

  /** Asking for `n >= 0` items and getting fewer empties the bucket. */
  lemma {:induction false} TakeShortEmpties<K(!new), T(!new)>(pools: map<K, seq<T>>, k: K, n: int)
    requires n >= 0
    requires |Take(pools, k, n).0| < n
    ensures k !in pools || Take(pools, k, n).1[k] == []
  {
    var r := Take(pools, k, n);
    if k in pools {
      assert |r.0 + r.1[k]| == |pools[k]|;
    }
  }

  // ---------------------------------------------------------------------------
  // Bookkeeping across the picks of one pass: pooled items sit in the bucket
  // of their key, and each item is either handed out already or still pooled.

  /** Every pooled item sits in the bucket of its own key. */
  ghost predicate Keyed<K(!new), T(!new)>(pools: map<K, seq<T>>, key: T -> K) {
    forall k, y :: k in pools && y in pools[k] ==> key(y) == k
  }

  /** How many copies of `x` are still pooled. */
  ghost function Pooled<K(!new), T(!new)>(pools: map<K, seq<T>>, key: T -> K, x: T): nat {
    if key(x) in pools then multiset(pools[key(x)])[x] else 0
  }

  /** A bucket with nothing left. */
  ghost predicate Exhausted<K(!new), T(!new)>(pools: map<K, seq<T>>, k: K) {
    k !in pools || pools[k] == []
  }

  /** The items `handed` out plus those still pooled are exactly the `total` given. */
  ghost predicate Accounted<K(!new), T(!new)>(pools: map<K, seq<T>>, key: T -> K, handed: multiset<T>, total: multiset<T>) {
    && Keyed(pools, key)
    && forall x {:trigger Pooled(pools, key, x)} :: handed[x] + Pooled(pools, key, x) == total[x]
  }

  /** Fresh pools account for every item, none handed out. */
  lemma IndexAccounted<K(!new), T(!new)>(s: seq<T>, key: T -> K, handed: multiset<T>)
    ensures Accounted(Index(s, key), key, handed, handed + multiset(s))
  {
    IndexPartition(s, key);
    forall x ensures Pooled(Index(s, key), key, x) == multiset(s)[x] {
      if x in s {
      } else if key(x) in Index(s, key) {
        BucketCount(s, key, key(x), x);
      }
    }
  }

  /** A pick moves items of the picked key from the pools to the picker, and nothing else. */
  lemma TakeAccounted<K(!new), T(!new)>(pools: map<K, seq<T>>, key: T -> K, k: K, n: int,
                                        handed: multiset<T>, total: multiset<T>)
    requires Accounted(pools, key, handed, total)
    ensures forall y :: y in Take(pools, k, n).0 ==> key(y) == k
    ensures Accounted(Take(pools, k, n).1, key, handed + multiset(Take(pools, k, n).0), total)
  {
    var (p, b') := Take(pools, k, n);
    if k in pools {
      assert p + b'[k] == pools[k];
      assert forall y :: y in p ==> y in pools[k];
      assert forall y :: y in b'[k] ==> y in pools[k];
      forall x ensures (handed + multiset(p))[x] + Pooled(b', key, x) == total[x] {
        assert handed[x] + Pooled(pools, key, x) == total[x];
        if key(x) == k {
          assert multiset(p) + multiset(b'[k]) == multiset(pools[k]);
        } else {
          assert x !in p;
        }
      }
    }
  }

  /** What was handed out is part of what was given. */
  lemma AccountedBound<K(!new), T(!new)>(pools: map<K, seq<T>>, key: T -> K, handed: multiset<T>, total: multiset<T>)
    requires Accounted(pools, key, handed, total)
    ensures handed <= total
  {
    forall x ensures handed[x] <= total[x] {
      assert handed[x] + Pooled(pools, key, x) == total[x];
    }
  }

  /** What is still pooled under `k` is exactly the items of key `k` not handed out. */
  lemma PoolIsRemainder<K(!new), T(!new)>(pools: map<K, seq<T>>, key: T -> K, handed: multiset<T>, s: seq<T>, k: K)
    requires Accounted(pools, key, handed, multiset(s))
    ensures multiset(Bucket(s, key, k)) - handed == if k in pools then multiset(pools[k]) else multiset{}
  {
    var left := multiset(Bucket(s, key, k)) - handed;
    var pooled: multiset<T> := if k in pools then multiset(pools[k]) else multiset{};
    BucketKeyed(s, key, k);
    forall x ensures left[x] == pooled[x] {
      assert handed[x] + Pooled(pools, key, x) == multiset(s)[x];
      if key(x) == k {
        BucketCount(s, key, k, x);
      } else {
        assert x !in Bucket(s, key, k);
        assert k in pools ==> x !in pools[k];
      }
    }
    assert left == pooled;
  }

  /** With its bucket empty, every copy of an item has been handed out. */
  lemma ExhaustedAccounted<K(!new), T(!new)>(pools: map<K, seq<T>>, key: T -> K, handed: multiset<T>,
                                             total: multiset<T>, x: T)
    requires Accounted(pools, key, handed, total) && Exhausted(pools, key(x))
    ensures handed[x] == total[x]
  {
    assert Pooled(pools, key, x) == 0;
  }

  /** A bucket never refills: an exhausted bucket stays exhausted after any pick. */
  lemma TakeKeepsExhausted<K(!new), T(!new)>(pools: map<K, seq<T>>, k: K, n: int, k': K)
    requires Exhausted(pools, k')
    ensures Exhausted(Take(pools, k, n).1, k')
  {
    if k' in pools {
      TakeShrinks(pools, k, n, k');
    }
  }

  /**
   * One pick keeps the account: the picked items move from the pools to
   * entry `d` of the handed-out entries `c`, appended to what it held.
   */
  lemma PickAccounted<K(!new), T(!new)>(b: map<K, seq<T>>, key: T -> K, k: K, n: int,
                                        c: seq<Option<seq<T>>>, d: nat, total: multiset<T>)
    requires Accounted(b, key, multiset(Assigned(c)), total) && d < |c|
    ensures forall y :: y in Take(b, k, n).0 ==> key(y) == k
    ensures Accounted(Take(b, k, n).1, key, multiset(Assigned(c[d := Some(c[d].GetOr([]) + Take(b, k, n).0)])), total)
  {
    var p := Take(b, k, n).0;
    var b' := Take(b, k, n).1;
    var g := c[d].GetOr([]);
    var c' := c[d := Some(g + p)];
    TakeAccounted(b, key, k, n, multiset(Assigned(c)), total);
    AssignedUpdate(c, d, Some(g + p));
    assert multiset(g + p) == multiset(g) + multiset(p);
    forall x ensures multiset(Assigned(c'))[x] + Pooled(b', key, x) == total[x] {
      assert (multiset(Assigned(c)) + multiset(p))[x] + Pooled(b', key, x) == total[x];
    }
  }

  /** The pools of one concretization pass, shared by all the picks of that pass. */
  class Pools<K(==,!new), T(!new)> {
    var buckets: map<K, seq<T>>

    /** `mk_pools(things, key)`: sort stably by key, then group equal keys. */
    constructor (things: seq<T>, key: T -> K, less: (K, K) -> bool)
      requires forall a :: !less(a, a)
      ensures buckets == Index(things, key)
    {
      var sthings := SortByKey(things, key, less);
      var pools: map<K, seq<T>> := map[];
      var i := 0;
      assert sthings[..0] == [];
      while i < |sthings|
        invariant 0 <= i <= |sthings|
        invariant pools == Index(sthings[..i], key)
      {
        // one group of `groupby`: the maximal run of items sharing a key
        var k := key(sthings[i]);
        var j := i + 1;
        while j < |sthings| && key(sthings[j]) == k
          invariant i < j <= |sthings|
          invariant forall t :: i <= t < j ==> key(sthings[t]) == k
        {
          j := j + 1;
        }
        var run := sthings[i..j];
        assert sthings[..j] == sthings[..i] + run;
        IndexExtendRun(sthings[..i], run, key, k);
        pools := pools[k := (if k in pools then pools[k] else []) + run];
        i := j;
      }
      assert sthings[..i] == sthings;
      SortKeepsIndex(things, key, less);
      buckets := pools;
    }

    /** `pick_things(pools, k, n)`: withdraws up to `n` items from the front of bucket `k`. */
    method Pick(k: K, n: int) returns (picked: seq<T>)
      modifies this
      ensures (picked, buckets) == Take(old(buckets), k, n)
    {
      if k !in buckets || buckets[k] == [] {
        return [];
      }
      var pool := buckets[k];
      var e := SliceEnd(|pool|, n);
      picked := pool[..e];
      buckets := buckets[k := pool[e..]];
    }
  }
}
