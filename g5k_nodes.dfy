/**
 * `concretize_nodes` of enoslib/infra/enos_g5k/utils.py: maps the machine
 * descriptors of a request onto the concrete nodes the testbed handed out,
 * in three phases (explicit servers, cluster minimums, best-effort fill).
 */
module G5kNodes {
  import opened Common
  import opened Pools
  import opened G5kTypes

  predicate IsServersDesc(m: Machine) {
    m.servers != []
  }

  /** A descriptor that the cluster phases serve: no servers, a cluster. */
  predicate IsClusterDesc(m: Machine) {
    m.servers == [] && m.cluster != ""
  }

  /** `desc.get("min", 0)`. */
  function MinOf(m: Machine): nat {
    m.min.GetOr(0)
  }

  /** All explicit servers, descriptor by descriptor, in listed order. */
  function ServersOf(ms: seq<Machine>): seq<string>
  {
    if ms == [] then [] else ms[0].servers + ServersOf(ms[1..])
  }

  lemma {:induction false} ServersOfConcat(a: seq<Machine>, b: seq<Machine>)
    ensures ServersOf(a + b) == ServersOf(a) + ServersOf(b)
  {
    if a == [] {
      assert a + b == b;
    } else {
      assert (a + b)[1..] == a[1..] + b;
      ServersOfConcat(a[1..], b);
    }
  }

  /** `list.remove(x)`: drops the first occurrence of `x`. */
  function RemoveFirst(s: seq<string>, x: string): (r: seq<string>)
    requires x in s
    ensures multiset(r) + multiset{x} == multiset(s)
  {
    if s[0] == x then
      assert s == [s[0]] + s[1..];
      s[1..]
    else
      assert s == [s[0]] + s[1..];
      [s[0]] + RemoveFirst(s[1..], x)
  }

  /** Indexes of the descriptors the cluster phases serve, in declaration order. */
  function ClusterIndices(ms: seq<Machine>, from: nat): (r: seq<nat>)
    requires from <= |ms|
    ensures forall t :: 0 <= t < |r| ==> from <= r[t] < |ms| && IsClusterDesc(ms[r[t]])
    ensures forall i :: from <= i < |ms| && IsClusterDesc(ms[i]) ==> i in r
    ensures forall a, b :: 0 <= a < b < |r| ==> r[a] < r[b]
    decreases |ms| - from
  {
    if from == |ms| then []
    else if IsClusterDesc(ms[from]) then [from] + ClusterIndices(ms, from + 1)
    else ClusterIndices(ms, from + 1)
  }

  // ---------------------------------------------------------------------------
  // Multiset facts used by the proof.

  lemma DistinctCounts(s: seq<nat>, v: nat)
    requires forall a, b :: 0 <= a < b < |s| ==> s[a] != s[b]
    ensures multiset(s)[v] <= 1
  {
    if s != [] {
      assert s == [s[0]] + s[1..];
      DistinctCounts(s[1..], v);
      if s[0] == v {
        assert v !in s[1..];
      }
    }
  }

  lemma TwoPositions(s: seq<nat>, a: nat, b: nat)
    requires a < b < |s| && s[a] == s[b]
    ensures multiset(s)[s[a]] >= 2
  {
    assert s == s[..b] + [s[b]] + s[b + 1..];
    assert s[a] in s[..b];
  }

  /** A permutation of a duplicate-free sequence is duplicate-free. */
  lemma PermutationDistinct(s: seq<nat>, t: seq<nat>)
    requires multiset(s) == multiset(t)
    requires forall a, b :: 0 <= a < b < |t| ==> t[a] != t[b]
    ensures forall a, b :: 0 <= a < b < |s| ==> s[a] != s[b]
  {
    forall a, b | 0 <= a < b < |s| ensures s[a] != s[b] {
      if s[a] == s[b] {
        TwoPositions(s, a, b);
        DistinctCounts(t, s[a]);
      }
    }
  }

  /** The entries after the first pass has served descriptors `0 .. i-1`. */
  function Claimed(machines: seq<Machine>, i: nat): (c: seq<Option<seq<string>>>)
    ensures |c| == |machines|
    ensures forall t :: 0 <= t < |machines| ==>
      c[t] == if t < i && IsServersDesc(machines[t]) then Some(machines[t].servers) else None
  {
    seq(|machines|, t requires 0 <= t < |machines| =>
      if t < i && IsServersDesc(machines[t]) then Some(machines[t].servers) else None)
  }

  /** What the first pass has handed out so far is the servers of the descriptors it served. */
  lemma {:induction false} ClaimedAssigned(machines: seq<Machine>, i: nat)
    requires i <= |machines|
    ensures Assigned(Claimed(machines, i)) == ServersOf(machines[..i])
    decreases |machines|
  {
    var c := Claimed(machines, i);
    if i == 0 {
      assert c == seq(|machines|, _ => None);
      AssignedNone<string>(|machines|);
    } else {
      assert c[1..] == Claimed(machines[1..], i - 1);
      ClaimedAssigned(machines[1..], i - 1);
      assert machines[1..][..i - 1] == machines[..i][1..];
      assert c[0].GetOr([]) == machines[0].servers;
    }
  }

  /** A descriptor whose servers were all removed from `rest` is served. */
  lemma ClaimStep(machines: seq<Machine>, i: nat, rest: seq<string>, left: seq<string>, nodes: seq<string>)
    requires i < |machines|
    requires multiset(rest) + multiset(ServersOf(machines[..i])) == multiset(nodes)
    requires multiset(left) + multiset(machines[i].servers) == multiset(rest)
    ensures multiset(left) + multiset(ServersOf(machines[..i + 1])) == multiset(nodes)
  {
    ServersPrefix(machines, i, 0);
  }

  /** Counting one node: a claim that exceeds what was given is not contained in it. */
  lemma CountExceeds(all: multiset<string>, nodes: multiset<string>, rest: multiset<string>,
                     left: multiset<string>, pre: multiset<string>, part: multiset<string>, x: string)
    requires pre + part + multiset{x} <= all
    requires nodes == rest + pre && rest == left + part && left[x] == 0
    ensures !(all <= nodes)
  {
    assert all[x] >= pre[x] + part[x] + 1;
    assert nodes[x] == pre[x] + part[x];
  }

  /** A server missing from what is left means the servers are not all among the given nodes. */
  lemma ClaimFails(machines: seq<Machine>, i: nat, rest: seq<string>, left: seq<string>, taken: nat,
                   nodes: seq<string>)
    requires i < |machines| && taken < |machines[i].servers|
    requires multiset(rest) + multiset(ServersOf(machines[..i])) == multiset(nodes)
    requires multiset(left) + multiset(machines[i].servers[..taken]) == multiset(rest)
    requires machines[i].servers[taken] !in left
    ensures !(multiset(ServersOf(machines)) <= multiset(nodes))
  {
    var servers := machines[i].servers;
    var x := servers[taken];
    var pre := ServersOf(machines[..i]);
    var part := servers[..taken];
    ServersPrefix(machines, i, taken + 1);
    assert servers[..taken + 1] == part + [x];
    assert pre + servers[..taken + 1] == pre + part + [x];
    CountExceeds(multiset(ServersOf(machines)), multiset(nodes), multiset(rest), multiset(left),
                 multiset(pre), multiset(part), x);
  }

  /** The entries a failed first pass leaves behind hold given nodes only. */
  lemma ClaimPartial(machines: seq<Machine>, i: nat, rest: seq<string>, left: seq<string>, taken: nat,
                     nodes: seq<string>)
    requires i < |machines| && taken <= |machines[i].servers|
    requires multiset(rest) + multiset(ServersOf(machines[..i])) == multiset(nodes)
    requires multiset(left) + multiset(machines[i].servers[..taken]) == multiset(rest)
    ensures multiset(Assigned(Claimed(machines, i)[i := if taken == 0 then None
                                                        else Some(machines[i].servers[..taken])]))
         <= multiset(nodes)
  {
    var c := Claimed(machines, i);
    var part := machines[i].servers[..taken];
    var e := if taken == 0 then None else Some(part);
    ClaimedAssigned(machines, i);
    AssignedUpdate(c, i, e);
    assert c[i] == None;
    assert e.GetOr([]) == part;
    forall x ensures multiset(Assigned(c[i := e]))[x] <= multiset(nodes)[x] {
      assert multiset(Assigned(c[i := e]))[x] == multiset(ServersOf(machines[..i]))[x] + multiset(part)[x];
    }
  }

  /** A prefix of the servers claimed so far is a sub-multiset of all servers. */
  lemma ServersPrefix(ms: seq<Machine>, i: nat, j: nat)
    requires i < |ms| && j <= |ms[i].servers|
    ensures multiset(ServersOf(ms[..i]) + ms[i].servers[..j]) <= multiset(ServersOf(ms))
    ensures ServersOf(ms[..i + 1]) == ServersOf(ms[..i]) + ms[i].servers
  {
    assert ms == ms[..i] + [ms[i]] + ms[i + 1..];
    ServersOfConcat(ms[..i] + [ms[i]], ms[i + 1..]);
    ServersOfConcat(ms[..i], [ms[i]]);
    assert ServersOf([ms[i]]) == ms[i].servers by { assert [ms[i]][1..] == []; }
    assert ms[..i + 1] == ms[..i] + [ms[i]];
    assert ms[i].servers == ms[i].servers[..j] + ms[i].servers[j..];
  }

  // ---------------------------------------------------------------------------
  // The three passes of `concretize_nodes`, each against the state it keeps.

  /** Descriptors the cluster passes do not serve hold their explicit servers, or nothing. */
  predicate ServersDone(machines: seq<Machine>, c: seq<Option<seq<string>>>)
    requires |c| == |machines|
  {
    forall u :: 0 <= u < |machines| && !IsClusterDesc(machines[u]) ==>
      c[u] == if IsServersDesc(machines[u]) then Some(machines[u].servers) else None
  }

  /** Every node of `v` belongs to the cluster of `m`. */
  predicate InCluster(m: Machine, v: seq<string>) {
    forall y :: y in v ==> ClusterOf(y) == m.cluster
  }

  /** Each given node is either handed out or still in the pool of its cluster. */
  ghost predicate Ledger(buckets: map<string, seq<string>>, c: seq<Option<seq<string>>>, nodes: seq<string>) {
    Accounted(buckets, ClusterOf, multiset(Assigned(c)), multiset(nodes))
  }

  /** Valid, pairwise distinct indexes of cluster descriptors. */
  predicate ClusterSlots(machines: seq<Machine>, order: seq<nat>) {
    && (forall u :: 0 <= u < |order| ==> order[u] < |machines| && IsClusterDesc(machines[order[u]]))
    && (forall a, b :: 0 <= a < b < |order| ==> order[a] != order[b])
  }

  /**
   * The inner loop of the first pass: `list.remove` of each server in turn.
   * `taken` servers were removed before one was missing (ValueError) or all were.
   */
  method RemoveServers(rest: seq<string>, servers: seq<string>) returns (left: seq<string>, taken: nat)
    ensures taken <= |servers|
    ensures multiset(left) + multiset(servers[..taken]) == multiset(rest)
    ensures taken < |servers| ==> servers[taken] !in left
  {
    left := rest;
    taken := 0;
    while taken < |servers|
      invariant taken <= |servers|
      invariant multiset(left) + multiset(servers[..taken]) == multiset(rest)
    {
      var s := servers[taken];
      if s !in left {
        return;
      }
      assert servers[..taken + 1] == servers[..taken] + [s];
      left := RemoveFirst(left, s);
      taken := taken + 1;
    }
  }

  /**
   * The loop of the first pass: `rest` is what is left of the candidates once
   * descriptors `0 .. i-1` have had their servers removed; `i < |machines|`
   * when `list.remove` raised on server `taken` of descriptor `i`, with
   * `left` what the removals before it left.
   */
  method RemoveAllServers(machines: seq<Machine>, nodes: seq<string>)
    returns (rest: seq<string>, left: seq<string>, i: nat, taken: nat)
    ensures i <= |machines|
    ensures multiset(rest) + multiset(ServersOf(machines[..i])) == multiset(nodes)
    ensures i < |machines| ==>
      && taken < |machines[i].servers|
      && multiset(left) + multiset(machines[i].servers[..taken]) == multiset(rest)
      && machines[i].servers[taken] !in left
  {
    rest := nodes;
    left := nodes;
    i := 0;
    taken := 0;
    while i < |machines|
      invariant 0 <= i <= |machines|
      invariant multiset(rest) + multiset(ServersOf(machines[..i])) == multiset(nodes)
    {
      var servers := machines[i].servers;
      left, taken := RemoveServers(rest, servers);
      if taken < |servers| {
        return;
      }
      assert servers[..taken] == servers;
      ClaimStep(machines, i, rest, left, nodes);
      rest := left;
      i := i + 1;
    }
  }

  /**
   * First pass: each explicit server is removed from a copy of the candidates
   * (`list.remove`) and appended to its descriptor. `ok` is false where
   * `remove` raises ValueError.
   */
  method ClaimServers(machines: seq<Machine>, nodes: seq<string>)
    returns (c: seq<Option<seq<string>>>, rest: seq<string>, ok: bool)
    ensures |c| == |machines|
    ensures ok <==> multiset(ServersOf(machines)) <= multiset(nodes)
    ensures multiset(Assigned(c)) <= multiset(nodes)
    ensures ok ==> multiset(rest) + multiset(Assigned(c)) == multiset(nodes)
    ensures ok ==> c == Claimed(machines, |machines|)
    ensures forall u :: 0 <= u < |machines| && machines[u].servers == [] ==> c[u] == None
  {
    var left, i, taken;
    rest, left, i, taken := RemoveAllServers(machines, nodes);
    if i < |machines| {
      // `_c_nodes` as the exception leaves them: the servers of the
      // descriptors served, and those of this one removed before it raised
      var servers := machines[i].servers;
      ClaimFails(machines, i, rest, left, taken, nodes);
      ClaimPartial(machines, i, rest, left, taken, nodes);
      c := Claimed(machines, i)[i := if taken == 0 then None else Some(servers[..taken])];
      ok := false;
    } else {
      assert machines[..i] == machines;
      ClaimedAssigned(machines, i);
      c := Claimed(machines, i);
      ok := true;
    }
  }

  /**
   * A cluster descriptor served by the cluster passes: it got at least its
   * `min`, at most its `nodes` when `min` does not exceed them, all of its cluster.
   */
  predicate Served(m: Machine, entry: Option<seq<string>>) {
    && entry.Some?
    && MinOf(m) <= |entry.value|
    && (MinOf(m) <= m.nodes ==> |entry.value| <= m.nodes)
    && InCluster(m, entry.value)
  }

  /** Every cluster descriptor is served. */
  predicate ClustersServed(machines: seq<Machine>, c: seq<Option<seq<string>>>)
    requires |c| == |machines|
  {
    forall i :: 0 <= i < |machines| && IsClusterDesc(machines[i]) ==> Served(machines[i], c[i])
  }

  /** A cluster descriptor left short of `nodes` got every given node of its cluster that nobody else holds. */
  ghost predicate ShortMeansExhausted(machines: seq<Machine>, nodes: seq<string>, c: seq<Option<seq<string>>>)
    requires |c| == |machines|
  {
    forall i, x :: (0 <= i < |machines| && IsClusterDesc(machines[i])
                    && |c[i].GetOr([])| < machines[i].nodes
                    && ClusterOf(x) == machines[i].cluster
                    ==> multiset(Assigned(c))[x] == multiset(nodes)[x])
  }

  /** The entry of a cluster descriptor holds exactly its `min` nodes, all of its cluster. */
  predicate MinTaken(m: Machine, entry: Option<seq<string>>) {
    && entry.Some?
    && |entry.value| == MinOf(m)
    && InCluster(m, entry.value)
  }

  /**
   * What the second pass does from the pools `b`, descriptor by descriptor in
   * `order`: the entries, the pools after, and the descriptor left short (the
   * pick that came up short has already consumed what it found).
   */
  function MinPass(b: map<string, seq<string>>, machines: seq<Machine>, order: seq<nat>,
                   c: seq<Option<seq<string>>>): (seq<Option<seq<string>>>, map<string, seq<string>>, Option<nat>)
    requires |c| == |machines| && forall u :: 0 <= u < |order| ==> order[u] < |machines|
    decreases |order|
  {
    if order == [] then (c, b, None)
    else
      var d := order[0];
      var r := Take(b, machines[d].cluster, MinOf(machines[d]));
      if |r.0| < MinOf(machines[d]) then (c, r.1, Some(d))
      else MinPass(r.1, machines, order[1..], c[d := Some(r.0)])
  }

  /**
   * The second pass stopped at `order[t]`: the descriptors served before it
   * hold their `min`, it and those after it were never set.
   */
  ghost predicate StoppedAt(machines: seq<Machine>, order: seq<nat>, t: nat, c: seq<Option<seq<string>>>) {
    && t < |order| && |c| == |machines|
    && (forall u :: 0 <= u < |order| ==> order[u] < |machines|)
    && (forall u :: 0 <= u < t ==> MinTaken(machines[order[u]], c[order[u]]))
    && (forall u :: t <= u < |order| ==> c[order[u]] == None)
  }

  /** The given nodes of cluster `k` that `c` does not hand out. */
  ghost function LeftIn(nodes: seq<string>, c: seq<Option<seq<string>>>, k: string): multiset<string> {
    multiset(Bucket(nodes, ClusterOf, k)) - multiset(Assigned(c))
  }

  /**
   * The state of the second pass once the descriptors `order[..t]` hold their
   * `min`: the ledger holds, the others were never set.
   */
  ghost predicate Reserving(machines: seq<Machine>, order: seq<nat>, t: nat, c: seq<Option<seq<string>>>,
                            buckets: map<string, seq<string>>, nodes: seq<string>)
  {
    && t <= |order| && |c| == |machines| && ClusterSlots(machines, order)
    && Ledger(buckets, c, nodes) && ServersDone(machines, c)
    && (forall u :: t <= u < |order| ==> c[order[u]] == None)
    && (forall u :: 0 <= u < t ==> MinTaken(machines[order[u]], c[order[u]]))
  }

  /** One step of the second pass: descriptor `order[t]` takes its `min`, or is left short. */
  method ReserveOne(pools: Pools<string, string>, machines: seq<Machine>, order: seq<nat>, t: nat,
                    c: seq<Option<seq<string>>>, ghost nodes: seq<string>)
    returns (c': seq<Option<seq<string>>>, short: bool)
    requires t < |order| && Reserving(machines, order, t, c, pools.buckets, nodes)
    modifies pools
    ensures pools.buckets == Take(old(pools.buckets), machines[order[t]].cluster, MinOf(machines[order[t]])).1
    ensures short <==>
      |Take(old(pools.buckets), machines[order[t]].cluster, MinOf(machines[order[t]])).0| < MinOf(machines[order[t]])
    ensures short ==> c' == c && StoppedAt(machines, order, t, c) && multiset(Assigned(c)) <= multiset(nodes)
                      && Exhausted(pools.buckets, machines[order[t]].cluster)
    // short: fewer than `min` nodes of the cluster were left to pick from
    ensures short ==> |LeftIn(nodes, c, machines[order[t]].cluster)| < MinOf(machines[order[t]])
    ensures !short ==> Reserving(machines, order, t + 1, c', pools.buckets, nodes)
    ensures !short ==>
      c' == c[order[t] := Some(Take(old(pools.buckets), machines[order[t]].cluster, MinOf(machines[order[t]])).0)]
  {
    var d := order[t];
    var m := machines[d];
    var nb := MinOf(m);
    AccountedBound(pools.buckets, ClusterOf, multiset(Assigned(c)), multiset(nodes));
    ghost var before := pools.buckets;
    var picked := pools.Pick(m.cluster, nb);
    if |picked| < nb {
      TakeShortEmpties(before, m.cluster, nb);
      PoolIsRemainder(before, ClusterOf, multiset(Assigned(c)), nodes, m.cluster);
      return c, true;
    }
    PickAccounted(before, ClusterOf, m.cluster, nb, c, d, multiset(nodes));
    assert c[d].GetOr([]) + picked == picked;
    c' := c[d := Some(picked)];
    ReservingStep(machines, order, t, c, before, pools.buckets, picked, nodes);
    short := false;
  }

  /** Setting the entry of `order[t]` to its `min` nodes advances the second pass. */
  lemma ReservingStep(machines: seq<Machine>, order: seq<nat>, t: nat, c: seq<Option<seq<string>>>,
                      b: map<string, seq<string>>, b': map<string, seq<string>>, picked: seq<string>,
                      nodes: seq<string>)
    requires t < |order| && Reserving(machines, order, t, c, b, nodes)
    requires MinTaken(machines[order[t]], Some(picked))
    requires Ledger(b', c[order[t] := Some(picked)], nodes)
    ensures Reserving(machines, order, t + 1, c[order[t] := Some(picked)], b', nodes)
  {
    var c' := c[order[t] := Some(picked)];
    forall u | 0 <= u < t + 1 ensures MinTaken(machines[order[u]], c'[order[u]]) {
      if u < t {
        assert order[u] != order[t];
      }
    }
    forall u | t + 1 <= u < |order| ensures c'[order[u]] == None {
      assert order[u] != order[t];
    }
  }

  /**
   * Second pass: in ascending `min` order, each cluster descriptor takes
   * `min` nodes of its cluster; `failed` is the first one left short
   * (NotEnoughNodesError).
   */
  method ReserveMinimums(pools: Pools<string, string>, machines: seq<Machine>, order: seq<nat>,
                         c0: seq<Option<seq<string>>>, ghost nodes: seq<string>)
    returns (c: seq<Option<seq<string>>>, failed: Option<nat>)
    requires |c0| == |machines| && ClusterSlots(machines, order)
    requires forall d :: d in order ==> c0[d] == None
    requires Ledger(pools.buckets, c0, nodes) && ServersDone(machines, c0)
    modifies pools
    ensures (c, pools.buckets, failed) == MinPass(old(pools.buckets), machines, order, c0)
    ensures |c| == |machines| && ServersDone(machines, c) && multiset(Assigned(c)) <= multiset(nodes)
    ensures failed.None? ==> Ledger(pools.buckets, c, nodes)
    ensures failed.Some? ==> failed.value in order && MinOf(machines[failed.value]) > 0
    // the descriptors before the one left short hold their `min`, the rest are unset
    ensures failed.Some? ==> exists t: nat :: StoppedAt(machines, order, t, c) && order[t] == failed.value
    // the descriptor left short emptied the pool of its cluster, which held fewer than its `min`
    ensures failed.Some? ==> Exhausted(pools.buckets, machines[failed.value].cluster)
    ensures failed.Some? ==> |LeftIn(nodes, c, machines[failed.value].cluster)| < MinOf(machines[failed.value])
    ensures failed.None? ==> forall d :: d in order ==> MinTaken(machines[d], c[d])
  {
    c := c0;
    var t := 0;
    forall u | 0 <= u < |order| ensures c[order[u]] == None {
      assert order[u] in order;
    }
    while t < |order|
      invariant Reserving(machines, order, t, c, pools.buckets, nodes)
      invariant MinPass(pools.buckets, machines, order[t..], c) == MinPass(old(pools.buckets), machines, order, c0)
    {
      assert order[t..][1..] == order[t + 1..];
      var short;
      c, short := ReserveOne(pools, machines, order, t, c, nodes);
      if short {
        return c, Some(order[t]);
      }
      t := t + 1;
    }
    failed := None;
    forall e | e in order ensures MinTaken(machines[e], c[e]) {
      var u :| 0 <= u < |order| && order[u] == e;
    }
    AccountedBound(pools.buckets, ClusterOf, multiset(Assigned(c)), multiset(nodes));
  }

  /**
   * The entry of a cluster descriptor after the fill: served, and short of
   * `nodes` only with the pool of its cluster empty.
   */
  ghost predicate Filled(m: Machine, entry: Option<seq<string>>, buckets: map<string, seq<string>>) {
    && Served(m, entry)
    && (|entry.value| < m.nodes ==> Exhausted(buckets, m.cluster))
  }

  /** Later picks keep a filled entry filled: an empty pool stays empty. */
  lemma TakeKeepsFilled(m: Machine, entry: Option<seq<string>>, buckets: map<string, seq<string>>, k: string, n: int)
    requires Filled(m, entry, buckets)
    ensures Filled(m, entry, Take(buckets, k, n).1)
  {
    if |entry.value| < m.nodes {
      TakeKeepsExhausted(buckets, k, n, m.cluster);
    }
  }

  /**
   * The state of the third pass once the descriptors `idx[..t]` are filled:
   * the ledger holds, the others still hold their `min`.
   */
  ghost predicate Filling(machines: seq<Machine>, idx: seq<nat>, t: nat, c: seq<Option<seq<string>>>,
                          buckets: map<string, seq<string>>, nodes: seq<string>)
  {
    && t <= |idx| && |c| == |machines| && ClusterSlots(machines, idx)
    && Ledger(buckets, c, nodes) && ServersDone(machines, c)
    && (forall u :: t <= u < |idx| ==> MinTaken(machines[idx[u]], c[idx[u]]))
    && (forall d :: d in idx[..t] ==> Filled(machines[d], c[d], buckets))
  }

  /**
   * What the third pass does from the pools `b`, descriptor by descriptor in
   * `idx`: each entry tops up by what its cluster still has, up to `nodes`.
   */
  function FillPass(b: map<string, seq<string>>, machines: seq<Machine>, idx: seq<nat>,
                    c: seq<Option<seq<string>>>): (seq<Option<seq<string>>>, map<string, seq<string>>)
    requires |c| == |machines| && forall u :: 0 <= u < |idx| ==> idx[u] < |machines|
    decreases |idx|
  {
    if idx == [] then (c, b)
    else
      var d := idx[0];
      var current := c[d].GetOr([]);
      var r := Take(b, machines[d].cluster, machines[d].nodes - |current|);
      FillPass(r.1, machines, idx[1..], c[d := Some(current + r.0)])
  }

  /** One step of the third pass: descriptor `idx[t]` tops up to its `nodes`. */
  method FillOne(pools: Pools<string, string>, machines: seq<Machine>, idx: seq<nat>, t: nat,
                 c: seq<Option<seq<string>>>, ghost nodes: seq<string>)
    returns (c': seq<Option<seq<string>>>)
    requires t < |idx| && Filling(machines, idx, t, c, pools.buckets, nodes)
    modifies pools
    ensures Filling(machines, idx, t + 1, c', pools.buckets, nodes)
    // the pick of `pick_things` for the missing `nodes - len(_c_nodes)`, appended to the entry
    ensures pools.buckets ==
      Take(old(pools.buckets), machines[idx[t]].cluster, machines[idx[t]].nodes - |c[idx[t]].value|).1
    ensures c' == c[idx[t] := Some(c[idx[t]].value +
      Take(old(pools.buckets), machines[idx[t]].cluster, machines[idx[t]].nodes - |c[idx[t]].value|).0)]
  {
    var d := idx[t];
    var m := machines[d];
    var current := c[d].value;
    var nb := m.nodes - |current|;
    ghost var before := pools.buckets;
    var picked := pools.Pick(m.cluster, nb);
    PickAccounted(before, ClusterOf, m.cluster, nb, c, d, multiset(nodes));
    forall e | e in idx[..t] ensures Filled(machines[e], c[e], pools.buckets) {
      TakeKeepsFilled(machines[e], c[e], before, m.cluster, nb);
    }
    if |current| + |picked| < m.nodes {
      TakeShortEmpties(before, m.cluster, nb);
    }
    c' := c[d := Some(current + picked)];
    FillingStep(machines, idx, t, c, before, pools.buckets, Some(current + picked), nodes);
  }

  /** Setting the entry of `idx[t]` to a filled one advances the third pass. */
  lemma FillingStep(machines: seq<Machine>, idx: seq<nat>, t: nat, c: seq<Option<seq<string>>>,
                    b: map<string, seq<string>>, b': map<string, seq<string>>, entry: Option<seq<string>>,
                    nodes: seq<string>)
    requires t < |idx| && Filling(machines, idx, t, c, b, nodes)
    requires Ledger(b', c[idx[t] := entry], nodes)
    requires forall e :: e in idx[..t] ==> Filled(machines[e], c[e], b')
    requires Filled(machines[idx[t]], entry, b')
    ensures Filling(machines, idx, t + 1, c[idx[t] := entry], b', nodes)
  {
    var d := idx[t];
    var c' := c[d := entry];
    assert d !in idx[..t];
    assert idx[..t + 1] == idx[..t] + [d];
    forall u | t + 1 <= u < |idx| ensures MinTaken(machines[idx[u]], c'[idx[u]]) {
      assert idx[u] != d;
    }
  }

  /**
   * Third pass: in declaration order, each cluster descriptor tops up to
   * `nodes` with what its cluster has left; a shortfall is silent, and
   * leaves that cluster's pool empty.
   */
  method FillUp(pools: Pools<string, string>, machines: seq<Machine>, idx: seq<nat>,
                c0: seq<Option<seq<string>>>, ghost nodes: seq<string>)
    returns (c: seq<Option<seq<string>>>)
    requires |c0| == |machines| && ClusterSlots(machines, idx)
    requires forall d :: d in idx ==> MinTaken(machines[d], c0[d])
    requires Ledger(pools.buckets, c0, nodes) && ServersDone(machines, c0)
    modifies pools
    ensures |c| == |machines| && Ledger(pools.buckets, c, nodes) && ServersDone(machines, c)
    ensures forall d :: d in idx ==> Filled(machines[d], c[d], pools.buckets)
    ensures (c, pools.buckets) == FillPass(old(pools.buckets), machines, idx, c0)
  {
    c := c0;
    var t := 0;
    forall u | 0 <= u < |idx| ensures MinTaken(machines[idx[u]], c[idx[u]]) {
      assert idx[u] in idx;
    }
    while t < |idx|
      invariant Filling(machines, idx, t, c, pools.buckets, nodes)
      invariant FillPass(pools.buckets, machines, idx[t..], c) == FillPass(old(pools.buckets), machines, idx, c0)
    {
      assert idx[t..][1..] == idx[t + 1..];
      c := FillOne(pools, machines, idx, t, c, nodes);
      t := t + 1;
    }
    assert idx[..t] == idx;
  }

  /** A permutation of valid cluster slots is valid cluster slots. */
  lemma PermutedSlots(machines: seq<Machine>, idx: seq<nat>, order: seq<nat>)
    requires ClusterSlots(machines, idx) && multiset(order) == multiset(idx)
    ensures ClusterSlots(machines, order)
    ensures forall d :: d in order <==> d in idx
  {
    PermutationDistinct(order, idx);
    forall d ensures d in order <==> d in idx {
      assert d in order <==> d in multiset(order);
      assert d in idx <==> d in multiset(idx);
    }
    forall u | 0 <= u < |order| ensures order[u] < |machines| && IsClusterDesc(machines[order[u]]) {
      assert order[u] in idx;
    }
  }

  /** Increasing indexes are distinct. */
  lemma IndicesSlots(machines: seq<Machine>)
    ensures ClusterSlots(machines, ClusterIndices(machines, 0))
  {
  }

  /** The sort key of the second pass: the `min` of descriptor `t`. */
  function MinKey(machines: seq<Machine>): nat -> int {
    (t: nat) => if t < |machines| then MinOf(machines[t]) as int else 0
  }

  predicate IntLess(a: int, b: int) {
    a < b
  }

  /** The order `sorted(desc_cluster, key=min)` serves the cluster descriptors `idx` in. */
  function MinOrder(machines: seq<Machine>, idx: seq<nat>): seq<nat> {
    SortByKey(idx, MinKey(machines), IntLess)
  }

  predicate Increasing(s: seq<nat>) {
    forall a, b :: 0 <= a < b < |s| ==> s[a] < s[b]
  }

  /** Entries of equal key appear in increasing order. */
  ghost predicate TiesInOrder(s: seq<nat>, key: nat -> int) {
    forall a, b :: 0 <= a < b < |s| && key(s[a]) == key(s[b]) ==> s[a] < s[b]
  }

  /** Inserting an index below all others keeps the ties in order. */
  lemma {:induction false} InsertTies(x: nat, r: seq<nat>, key: nat -> int, less: (int, int) -> bool)
    requires Irreflexive(less) && TiesInOrder(r, key)
    requires forall y :: y in r ==> x < y
    ensures TiesInOrder(InsertByKey(x, r, key, less), key)
  {
    if r == [] || !less(key(r[0]), key(x)) {
      var s := [x] + r;
      forall a, b | 0 <= a < b < |s| && key(s[a]) == key(s[b]) ensures s[a] < s[b] {
        assert s[b] == r[b - 1] && r[b - 1] in r;
        if a > 0 {
          assert s[a] == r[a - 1];
        }
      }
    } else {
      var tail := r[1..];
      forall y | y in tail ensures x < y {
        assert y in r;
      }
      assert TiesInOrder(tail, key) by {
        forall a, b | 0 <= a < b < |tail| && key(tail[a]) == key(tail[b]) ensures tail[a] < tail[b] {
          assert tail[a] == r[a + 1] && tail[b] == r[b + 1];
        }
      }
      InsertTies(x, tail, key, less);
      InsertTiesAfterHead(x, r, key, less);
    }
  }

  /** The head of `r` stays first when `x` sorts after it, and it precedes its ties in `r`. */
  lemma InsertTiesAfterHead(x: nat, r: seq<nat>, key: nat -> int, less: (int, int) -> bool)
    requires Irreflexive(less) && TiesInOrder(r, key)
    requires r != [] && less(key(r[0]), key(x))
    requires TiesInOrder(InsertByKey(x, r[1..], key, less), key)
    ensures TiesInOrder([r[0]] + InsertByKey(x, r[1..], key, less), key)
  {
    assert key(r[0]) != key(x);
    var rest := InsertByKey(x, r[1..], key, less);
    var s := [r[0]] + rest;
    forall b | 0 < b < |s| && key(s[0]) == key(s[b]) ensures s[0] < s[b] {
      InsertedFrom(x, r, key, less, rest[b - 1]);
    }
    forall a, b | 0 < a < b < |s| && key(s[a]) == key(s[b]) ensures s[a] < s[b] {
      assert s[a] == rest[a - 1] && s[b] == rest[b - 1];
    }
  }

  /** An element of `r[1..]` with `x` inserted is `x` or comes after the head of `r`. */
  lemma InsertedFrom(x: nat, r: seq<nat>, key: nat -> int, less: (int, int) -> bool, y: nat)
    requires r != [] && y in InsertByKey(x, r[1..], key, less)
    ensures y == x || exists j :: 0 < j < |r| && r[j] == y
  {
    assert y in multiset(InsertByKey(x, r[1..], key, less));
    if y != x {
      assert y in multiset(r[1..]);
      var j :| 0 <= j < |r[1..]| && r[1..][j] == y;
      assert r[j + 1] == y;
    }
  }

  /** The insertion sort is stable: sorting increasing indexes keeps equal keys in index order. */
  lemma {:induction false} SortTies(s: seq<nat>, key: nat -> int, less: (int, int) -> bool)
    requires Irreflexive(less) && Increasing(s)
    ensures TiesInOrder(SortByKey(s, key, less), key)
  {
    if s != [] {
      var tail := s[1..];
      assert Increasing(tail) by {
        forall a, b | 0 <= a < b < |tail| ensures tail[a] < tail[b] {
          assert tail[a] == s[a + 1] && tail[b] == s[b + 1];
        }
      }
      SortTies(tail, key, less);
      var r := SortByKey(tail, key, less);
      forall y | y in r ensures s[0] < y {
        assert y in multiset(r);
        var j :| 0 <= j < |tail| && tail[j] == y;
        assert s[j + 1] == y;
      }
      InsertTies(s[0], r, key, less);
    }
  }

  /** The remaining nodes, sorted, then pooled by cluster (`mk_pools`). */
  method ClusterPools(rest: seq<string>, ghost handed: multiset<string>) returns (pools: Pools<string, string>)
    ensures fresh(pools)
    ensures pools.buckets == Index(SortByKey(rest, (n: string) => n, StrLess), ClusterOf)
    ensures Accounted(pools.buckets, ClusterOf, handed, handed + multiset(rest))
  {
    var snodes := SortByKey(rest, (n: string) => n, StrLess);
    forall a: string ensures !StrLess(a, a) {
      StrLessIrreflexive(a);
    }
    pools := new Pools(snodes, ClusterOf, StrLess);
    IndexAccounted(snodes, ClusterOf, handed);
  }

  /**
   * The cluster descriptors sorted, stably, by their `min`: ascending `min`,
   * and descriptors of equal `min` in declaration order.
   */
  method ByMinimum(machines: seq<Machine>, idx: seq<nat>) returns (order: seq<nat>)
    requires ClusterSlots(machines, idx) && Increasing(idx)
    ensures order == MinOrder(machines, idx)
    ensures ClusterSlots(machines, order)
    ensures forall d :: d in order <==> d in idx
    ensures forall a, b :: 0 <= a < b < |order| ==> MinOf(machines[order[a]]) <= MinOf(machines[order[b]])
    ensures forall a, b :: (0 <= a < b < |order| && MinOf(machines[order[a]]) == MinOf(machines[order[b]])
                            ==> order[a] < order[b])
  {
    order := SortByKey(idx, MinKey(machines), IntLess);
    PermutedSlots(machines, idx, order);
    assert StrictTotalOrder(IntLess);
    SortByKeySorted(idx, MinKey(machines), IntLess);
    SortTies(idx, MinKey(machines), IntLess);
    forall a, b | 0 <= a < b < |order| ensures MinOf(machines[order[a]]) <= MinOf(machines[order[b]]) {
      assert !IntLess(MinKey(machines)(order[b]), MinKey(machines)(order[a]));
    }
    forall a, b | 0 <= a < b < |order| && MinOf(machines[order[a]]) == MinOf(machines[order[b]])
      ensures order[a] < order[b]
    {
      assert MinKey(machines)(order[a]) == MinKey(machines)(order[b]);
    }
  }

  /**
   * Once every cluster descriptor is filled, each is served, and one left
   * short has every node of its cluster among the handed-out ones.
   */
  lemma FilledServed(machines: seq<Machine>, c: seq<Option<seq<string>>>, buckets: map<string, seq<string>>,
                     nodes: seq<string>)
    requires |c| == |machines| && Ledger(buckets, c, nodes)
    requires forall d :: d in ClusterIndices(machines, 0) ==> Filled(machines[d], c[d], buckets)
    ensures multiset(Assigned(c)) <= multiset(nodes)
    ensures ClustersServed(machines, c) && ShortMeansExhausted(machines, nodes, c)
  {
    forall i, x | 0 <= i < |machines| && IsClusterDesc(machines[i])
      && |c[i].GetOr([])| < machines[i].nodes && ClusterOf(x) == machines[i].cluster
      ensures multiset(Assigned(c))[x] == multiset(nodes)[x]
    {
      ExhaustedAccounted(buckets, ClusterOf, multiset(Assigned(c)), multiset(nodes), x);
    }
    AccountedBound(buckets, ClusterOf, multiset(Assigned(c)), multiset(nodes));
  }

  /**
   * `e` is the NotEnoughNodesError of the second pass, run in `MinOrder` over
   * all cluster descriptors: it names the descriptor the pass stopped at.
   */
  ghost predicate MinimumFailed(machines: seq<Machine>, c: seq<Option<seq<string>>>, e: G5kError) {
    var order := MinOrder(machines, ClusterIndices(machines, 0));
    exists t: nat :: StoppedAt(machines, order, t, c) && e == NotEnoughNodes(machines[order[t]])
  }

  /**
   * `e` is the NotEnoughNodesError of the second pass: it names a cluster
   * descriptor with `min > 0`, the one the pass stopped at in `MinOrder`,
   * and fewer than its `min` given nodes of its cluster are left unassigned.
   */
  ghost predicate MinimumUnmet(machines: seq<Machine>, nodes: seq<string>, c: seq<Option<seq<string>>>,
                               e: G5kError)
  {
    && e.NotEnoughNodes? && e.machine in machines && IsClusterDesc(e.machine) && MinOf(e.machine) > 0
    && MinimumFailed(machines, c, e)
    && |LeftIn(nodes, c, e.machine.cluster)| < MinOf(e.machine)
  }

  /**
   * The cluster passes of `concretize_nodes`, over the nodes `rest` that the
   * explicit servers left: minimums first (NotEnoughNodesError), then a
   * best-effort fill.
   */
  method ConcretizeClusters(machines: seq<Machine>, c0: seq<Option<seq<string>>>, rest: seq<string>,
                            ghost nodes: seq<string>)
    returns (c: seq<Option<seq<string>>>, err: Option<G5kError>)
    requires c0 == Claimed(machines, |machines|)
    requires multiset(rest) + multiset(Assigned(c0)) == multiset(nodes)
    ensures |c| == |machines| && ServersDone(machines, c)
    ensures multiset(Assigned(c)) <= multiset(nodes)
    ensures err.Some? ==> err.value.NotEnoughNodes? && MinimumUnmet(machines, nodes, c, err.value)
    ensures err.None? ==> ClustersServed(machines, c) && ShortMeansExhausted(machines, nodes, c)
  {
    var pools := ClusterPools(rest, multiset(Assigned(c0)));
    assert Ledger(pools.buckets, c0, nodes);
    var clusterIdx := ClusterIndices(machines, 0);
    IndicesSlots(machines);
    var minOrder := ByMinimum(machines, clusterIdx);
    var failed;
    c, failed := ReserveMinimums(pools, machines, minOrder, c0, nodes);
    if failed.Some? {
      ghost var t: nat :| StoppedAt(machines, minOrder, t, c) && minOrder[t] == failed.value;
      return c, Some(NotEnoughNodes(machines[failed.value]));
    }
    c := FillUp(pools, machines, clusterIdx, c, nodes);
    FilledServed(machines, c, pools.buckets, nodes);
    err := None;
  }

  /**
   * `concretize_nodes(resources, nodes)`. `cNodes[i]` is the `_c_nodes`
   * entry the pass leaves on `machines[i]` (None: never set), also when it
   * raises (`err`) halfway.
   */
  method ConcretizeNodes(machines: seq<Machine>, nodes: seq<string>)
    returns (cNodes: seq<Option<seq<string>>>, err: Option<G5kError>)
    ensures |cNodes| == |machines|
    // no node is handed out twice, and each one handed out is a given node
    ensures multiset(Assigned(cNodes)) <= multiset(nodes)
    // descriptors with neither servers nor a cluster are left alone
    ensures forall i :: (0 <= i < |machines| && machines[i].servers == [] && machines[i].cluster == ""
                         ==> cNodes[i] == None)
    // the explicit servers pass fails, through `list.remove`, exactly when
    // the servers are not all among the given nodes
    ensures (err.Some? && err.value.ValueError?) <==> !(multiset(ServersOf(machines)) <= multiset(nodes))
    // otherwise the only error is a NotEnoughNodesError for a minimum that could not be met
    ensures err.Some? && !err.value.ValueError? ==> MinimumUnmet(machines, nodes, cNodes, err.value)
    ensures err.None? ==> ServersDone(machines, cNodes)
    ensures err.None? ==> ClustersServed(machines, cNodes) && ShortMeansExhausted(machines, nodes, cNodes)
  {
    var rest, ok;
    cNodes, rest, ok := ClaimServers(machines, nodes);
    if !ok {
      return cNodes, Some(ValueError("list.remove(x): x not in list"));
    }
    cNodes, err := ConcretizeClusters(machines, cNodes, rest, nodes);
    LeftAlone(machines, cNodes);
  }

  /** The passes leave alone a descriptor with neither servers nor a cluster. */
  lemma LeftAlone(machines: seq<Machine>, c: seq<Option<seq<string>>>)
    requires |c| == |machines| && ServersDone(machines, c)
    ensures forall i :: (0 <= i < |machines| && machines[i].servers == [] && machines[i].cluster == ""
                         ==> c[i] == None)
  {
  }
}
