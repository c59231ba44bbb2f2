/**
 * `concretize_networks` of enoslib/infra/enos_g5k/utils.py: each network
 * request of a resources description is bound to concrete networks drawn
 * from the pools of what the testbed handed out, keyed by (site, nature).
 */
module G5kNetworks {
  import opened Common
  import opened Pools
  import opened G5kTypes

  type Pair = (string, string)
  type Triple = (string, string, string)

  /** The pool key of a concrete network: `(n.site, n.nature)`. */
  function NetKey(n: ConcreteNetwork): Pair {
    (n.site, n.nature)
  }

  /** The sort key of a concrete network: `(n.site, n.nature, n.network)`. */
  function NetOrder(n: ConcreteNetwork): Triple {
    (n.site, n.nature, n.network)
  }

  /** Python's `<` on pairs of strings: lexicographic. */
  predicate PairLess(a: Pair, b: Pair) {
    StrLess(a.0, b.0) || (a.0 == b.0 && StrLess(a.1, b.1))
  }

  /** Python's `<` on triples of strings: lexicographic. */
  predicate TripleLess(a: Triple, b: Triple) {
    StrLess(a.0, b.0) || (a.0 == b.0 && (StrLess(a.1, b.1) || (a.1 == b.1 && StrLess(a.2, b.2))))
  }

  lemma PairLessIrreflexive()
    ensures forall a :: !PairLess(a, a)
  {
    forall a: Pair ensures !PairLess(a, a) {
      StrLessIrreflexive(a.0);
      StrLessIrreflexive(a.1);
    }
  }

  /**
   * The bucket a request draws from: a `slash_16` is served by the `slash_22`
   * blocks of its site (64 of them make one), any other type by its own.
   */
  function FetchKey(req: NetworkDesc): (k: Pair)
    ensures k.0 == req.site
    ensures req.netType == SLASH_16 <==> k.1 == SLASH_22 && req.netType != SLASH_22
  {
    if req.netType == SLASH_16 then (req.site, SLASH_22) else (req.site, req.netType)
  }

  /** How many networks a request asks its bucket for. */
  function FetchCount(req: NetworkDesc): (n: nat)
    ensures n == 64 || n == 1
    ensures n == 64 <==> req.netType == SLASH_16
  {
    if req.netType == SLASH_16 then 64 else 1
  }

  /**
   * The `_c_network` a request ends with: between one and the count it asked
   * for, all from its bucket, and fewer than asked only once that bucket is empty.
   */
  ghost predicate Resolved(req: NetworkDesc, entry: Option<seq<ConcreteNetwork>>,
                           buckets: map<Pair, seq<ConcreteNetwork>>)
  {
    && entry.Some?
    && 1 <= |entry.value| <= FetchCount(req)
    && (forall y :: y in entry.value ==> NetKey(y) == FetchKey(req))
    && (|entry.value| < FetchCount(req) ==> Exhausted(buckets, FetchKey(req)))
  }

  /** The state once the requests before `t` are bound: every concrete network accounted for. */
  ghost predicate Resolving(reqs: seq<NetworkDesc>, t: nat, c: seq<Option<seq<ConcreteNetwork>>>,
                            buckets: map<Pair, seq<ConcreteNetwork>>, networks: seq<ConcreteNetwork>)
  {
    && t <= |reqs| && |c| == |reqs|
    && Accounted(buckets, NetKey, multiset(Assigned(c)), multiset(networks))
    && (forall u :: t <= u < |reqs| ==> c[u] == None)
    && (forall u :: 0 <= u < t ==> Resolved(reqs[u], c[u], buckets))
  }

  /** Later picks keep a bound request bound: an empty bucket stays empty. */
  lemma TakeKeepsResolved(req: NetworkDesc, entry: Option<seq<ConcreteNetwork>>,
                          buckets: map<Pair, seq<ConcreteNetwork>>, k: Pair, n: int)
    requires Resolved(req, entry, buckets)
    ensures Resolved(req, entry, Take(buckets, k, n).1)
  {
    if |entry.value| < FetchCount(req) {
      TakeKeepsExhausted(buckets, k, n, FetchKey(req));
    }
  }

  /** `mk_pools(sorted(networks, key=(site, nature, network)), key=(site, nature))`. */
  method NetworkPools(networks: seq<ConcreteNetwork>) returns (pools: Pools<Pair, ConcreteNetwork>)
    ensures fresh(pools)
    ensures pools.buckets == Index(SortByKey(networks, NetOrder, TripleLess), NetKey)
    ensures Accounted(pools.buckets, NetKey, multiset{}, multiset(networks))
  {
    var sNetworks := SortByKey(networks, NetOrder, TripleLess);
    PairLessIrreflexive();
    pools := new Pools(sNetworks, NetKey, PairLess);
    IndexAccounted(sNetworks, NetKey, multiset{});
  }

  /**
   * One request: `ok` is false, and nothing moves, when its bucket is empty
   * or missing (MissingNetworkError); otherwise it takes what it asks for,
   * or what is left.
   */
  method ResolveOne(pools: Pools<Pair, ConcreteNetwork>, reqs: seq<NetworkDesc>, t: nat,
                    c: seq<Option<seq<ConcreteNetwork>>>, ghost networks: seq<ConcreteNetwork>)
    returns (c': seq<Option<seq<ConcreteNetwork>>>, ok: bool)
    requires t < |reqs| && Resolving(reqs, t, c, pools.buckets, networks)
    modifies pools
    ensures ok ==> Resolving(reqs, t + 1, c', pools.buckets, networks)
    ensures !ok ==> c' == c && Resolving(reqs, t, c, pools.buckets, networks)
                    && Exhausted(pools.buckets, FetchKey(reqs[t]))
    // a failed pick found nothing, so took nothing
    ensures !ok ==> pools.buckets == old(pools.buckets)
    // `desc["_c_network"]` is what `pick_things` took from the pool of the request
    ensures ok ==> pools.buckets == Take(old(pools.buckets), FetchKey(reqs[t]), FetchCount(reqs[t])).1
    ensures ok ==> c' == c[t := Some(Take(old(pools.buckets), FetchKey(reqs[t]), FetchCount(reqs[t])).0)]
  {
    var req := reqs[t];
    var k := FetchKey(req);
    var n := FetchCount(req);
    ghost var before := pools.buckets;
    var picked := pools.Pick(k, n);
    if |picked| < 1 {
      TakeShortEmpties(before, k, n);
      if k in before {
        assert pools.buckets[k] == before[k];
      }
      assert pools.buckets == before;
      return c, false;
    }
    PickAccounted(before, NetKey, k, n, c, t, multiset(networks));
    forall u | 0 <= u < t ensures Resolved(reqs[u], c[u], pools.buckets) {
      TakeKeepsResolved(reqs[u], c[u], before, k, n);
    }
    if |picked| < n {
      TakeShortEmpties(before, k, n);
    }
    assert c[t].GetOr([]) + picked == picked;
    c' := c[t := Some(picked)];
    ok := true;
  }

  /** A request whose bucket ran dry: every network of that bucket went to earlier requests. */
  ghost predicate Missing(reqs: seq<NetworkDesc>, i: nat, c: seq<Option<seq<ConcreteNetwork>>>,
                          networks: seq<ConcreteNetwork>, err: G5kError)
    requires |c| == |reqs|
  {
    && i < |reqs|
    && err == MissingNetwork(reqs[i].site, reqs[i].netType)
    && (forall u :: 0 <= u < i ==> c[u].Some?)
    && (forall u :: i <= u < |reqs| ==> c[u] == None)
    && (forall x :: NetKey(x) == FetchKey(reqs[i]) ==> multiset(Assigned(c))[x] == multiset(networks)[x])
  }

  /**
   * `concretize_networks(resources, networks)`: `c[i]` is the `_c_network`
   * left on request `i` (None: never set), also when the pass raises halfway.
   */
  method ConcretizeNetworks(reqs: seq<NetworkDesc>, networks: seq<ConcreteNetwork>)
    returns (c: seq<Option<seq<ConcreteNetwork>>>, err: Option<G5kError>)
    ensures |c| == |reqs|
    // no concrete network is bound twice, and each bound one was handed out
    ensures multiset(Assigned(c)) <= multiset(networks)
    ensures err.None? ==> forall i :: 0 <= i < |reqs| ==>
      && c[i].Some?
      && 1 <= |c[i].value| <= FetchCount(reqs[i])
      && (forall y :: y in c[i].value ==> NetKey(y) == FetchKey(reqs[i]))
    // a request gets fewer than it asked for only when its bucket is used up
    ensures err.None? ==> forall i, x :: (0 <= i < |reqs| && |c[i].value| < FetchCount(reqs[i])
                                         && NetKey(x) == FetchKey(reqs[i])
                                         ==> multiset(Assigned(c))[x] == multiset(networks)[x])
    ensures err.Some? ==> exists i :: Missing(reqs, i, c, networks, err.value)
  {
    var pools := NetworkPools(networks);
    c := seq(|reqs|, _ => None);
    AssignedNone<ConcreteNetwork>(|reqs|);
    var t := 0;
    while t < |reqs|
      invariant Resolving(reqs, t, c, pools.buckets, networks)
      decreases |reqs| - t
    {
      var ok;
      c, ok := ResolveOne(pools, reqs, t, c, networks);
      if !ok {
        var req := reqs[t];
        err := Some(MissingNetwork(req.site, req.netType));
        forall x | NetKey(x) == FetchKey(req)
          ensures multiset(Assigned(c))[x] == multiset(networks)[x]
        {
          ExhaustedAccounted(pools.buckets, NetKey, multiset(Assigned(c)), multiset(networks), x);
        }
        AccountedBound(pools.buckets, NetKey, multiset(Assigned(c)), multiset(networks));
        assert Missing(reqs, t, c, networks, err.value);
        return;
      }
      t := t + 1;
    }
    err := None;
    forall i, x | 0 <= i < |reqs| && |c[i].value| < FetchCount(reqs[i]) && NetKey(x) == FetchKey(reqs[i])
      ensures multiset(Assigned(c))[x] == multiset(networks)[x]
    {
      ExhaustedAccounted(pools.buckets, NetKey, multiset(Assigned(c)), multiset(networks), x);
    }
    AccountedBound(pools.buckets, NetKey, multiset(Assigned(c)), multiset(networks));
  }
}
