/**
 * `mount_nics` and `_mount_secondary_nics` of enoslib/infra/enos_g5k/utils.py:
 * each machine descriptor records its mounted interface for the primary
 * network, then one spare interface per secondary network that is not
 * `prod`, putting its nodes in that network's VLAN.
 *
 * The testbed lookups are parameters: `interfaces(cluster)` lists a cluster's
 * interfaces (`get_cluster_interfaces` is that list filtered on `mounted`),
 * `clusterSite` is `get_cluster_site`. Each `set_nodes_vlan` request is
 * recorded in a call log.
 */
module G5kNics {
  import opened Common
  import opened G5kTypes

  datatype Nic = Nic(device: string, name: string, mounted: bool)

  /** An entry of `_c_nics`: an interface name and the roles of its network. */
  type NicEntry = (string, seq<string>)

  /** One `set_nodes_vlan(site, nodes, device, vlan_id)` request. */
  datatype VlanCall = VlanCall(site: string, nodes: seq<string>, device: string, vlanId: Option<nat>)

  /** The interfaces with `mounted` equal to `m`, in order. */
  function WithMounted(nics: seq<Nic>, m: bool): (r: seq<Nic>)
    ensures forall x :: x in r <==> x in nics && x.mounted == m
    ensures |r| <= |nics|
  {
    if nics == [] then []
    else
      assert nics == [nics[0]] + nics[1..];
      (if nics[0].mounted == m then [nics[0]] else []) + WithMounted(nics[1..], m)
  }

  /** The filter keeps the order of the interfaces: it distributes over concatenation. */
  lemma {:induction false} WithMountedConcat(a: seq<Nic>, b: seq<Nic>, m: bool)
    ensures WithMounted(a + b, m) == WithMounted(a, m) + WithMounted(b, m)
  {
    if a != [] {
      assert (a + b)[1..] == a[1..] + b;
      WithMountedConcat(a[1..], b, m);
    } else {
      assert a + b == b;
    }
  }

  /** The concretized networks of network `j`, None where `_c_network` is unset. */
  function CNetworkOf(cNetworks: seq<Option<seq<ConcreteNetwork>>>, j: nat): Option<seq<ConcreteNetwork>> {
    if j < |cNetworks| then cNetworks[j] else None
  }

  /**
   * What one secondary network does, given the spare interface `k` it would
   * take: nothing (`prod`), raise (after the requests made so far), or
   * append an entry to `_c_nics` after one VLAN request.
   */
  /**
   * What the secondary networks of one descriptor are wired with: its
   * cluster's spare interfaces, its cluster's site, its `_c_nodes` (None:
   * unset), the network descriptors and their `_c_network` (None: unset).
   */
  datatype Env = Env(spare: seq<Nic>, site: string, nodes: Option<seq<string>>,
                     networks: seq<NetworkDesc>, cNetworks: seq<Option<seq<ConcreteNetwork>>>)

  datatype Step = Skip | Stop(calls: seq<VlanCall>, err: G5kError) | Add(entry: NicEntry, call: VlanCall)

  function WireStep(id: string, k: nat, env: Env): Step
  {
    match LookupNetwork(id, env.networks)
    case None => Stop([], IndexError)
    case Some(j) =>
      var net := env.networks[j];
      if net.netType == PROD then Skip
      else if k >= |env.spare| then Stop([], IndexError)
      else
        match CNetworkOf(env.cNetworks, j)
        case None => Stop([], KeyError("_c_network"))
        case Some(cs) =>
          if cs == [] then Stop([], IndexError)
          else if env.nodes.None? then Stop([], KeyError("_c_nodes"))
          else
            var call := VlanCall(env.site, env.nodes.value, env.spare[k].device, cs[0].vlanId);
            match RolesAsList(net)
            case None => Stop([call], AttributeError("extend"))
            case Some(roles) => Add((env.spare[k].name, roles), call)
  }

  /**
   * The secondary networks from spare interface `k` on: what they append to
   * `_c_nics`, the VLAN requests made, and the error raised, if any (the
   * entries and requests before it stay).
   */
  datatype Wiring = Wiring(entries: seq<NicEntry>, calls: seq<VlanCall>, err: Option<G5kError>)

  function WireFrom(ids: seq<string>, k: nat, env: Env): Wiring
  {
    if ids == [] then Wiring([], [], None)
    else
      match WireStep(ids[0], k, env)
      case Skip => WireFrom(ids[1..], k, env)
      case Stop(calls, err) => Wiring([], calls, Some(err))
      case Add(entry, call) =>
        var rest := WireFrom(ids[1..], k + 1, env);
        Wiring([entry] + rest.entries, [call] + rest.calls, rest.err)
  }

  /** Indexes of the secondary networks that are not `prod`, in order (up to the first failed lookup). */
  function NonProd(ids: seq<string>, networks: seq<NetworkDesc>): (js: seq<nat>)
    ensures forall t :: 0 <= t < |js| ==> js[t] < |networks| && networks[js[t]].netType != PROD
  {
    if ids == [] then []
    else
      match LookupNetwork(ids[0], networks)
      case None => []
      case Some(j) => (if networks[j].netType == PROD then [] else [j]) + NonProd(ids[1..], networks)
  }


  /**
   * Non-`prod` network `j` wired through interface `nic`: the entry names the
   * interface and the network's roles, and the request puts the nodes in the
   * network's VLAN on the interface's device.
   */
  predicate WiredAt(j: nat, nic: Nic, env: Env, entry: NicEntry, call: VlanCall)
  {
    && j < |env.networks|
    && RolesAsList(env.networks[j]).Some?
    && CNetworkOf(env.cNetworks, j).Some? && CNetworkOf(env.cNetworks, j).value != []
    && env.nodes.Some?
    && entry == (nic.name, RolesAsList(env.networks[j]).value)
    && call == VlanCall(env.site, env.nodes.value, nic.device, CNetworkOf(env.cNetworks, j).value[0].vlanId)
  }

  /** Networks `js` wired, in order, through the spare interfaces from `k` on. */
  predicate Wired(js: seq<nat>, k: nat, env: Env, w: Wiring)
    decreases |js|
  {
    if js == [] then w.entries == [] && w.calls == []
    else
      && k < |env.spare| && w.entries != [] && w.calls != []
      && WiredAt(js[0], env.spare[k], env, w.entries[0], w.calls[0])
      && Wired(js[1..], k + 1, env, Wiring(w.entries[1..], w.calls[1..], w.err))
  }

  /** Wired, pointwise: the `t`-th non-`prod` network goes through spare interface `k + t`. */
  lemma {:induction false} WiredPointwise(js: seq<nat>, k: nat, env: Env, w: Wiring)
    requires Wired(js, k, env, w)
    ensures (js != [] ==> k + |js| <= |env.spare|) && |w.entries| == |js| && |w.calls| == |js|
    ensures forall t :: 0 <= t < |js| ==> WiredAt(js[t], env.spare[k + t], env, w.entries[t], w.calls[t])
    decreases |js|
  {
    if js != [] {
      var w' := Wiring(w.entries[1..], w.calls[1..], w.err);
      WiredPointwise(js[1..], k + 1, env, w');
      forall t | 0 <= t < |js|
        ensures WiredAt(js[t], env.spare[k + t], env, w.entries[t], w.calls[t])
      {
        if t > 0 {
          var t' := t - 1;
          assert WiredAt(js[1..][t'], env.spare[k + 1 + t'], env, w'.entries[t'], w'.calls[t']);
        }
      }
    }
  }

  /** Prepends what earlier steps did to a wiring. */
  function After(entries: seq<NicEntry>, calls: seq<VlanCall>, w: Wiring): Wiring {
    Wiring(entries + w.entries, calls + w.calls, w.err)
  }

  /** One secondary network's step, then the rest. */
  lemma WireFromStep(ids: seq<string>, k: nat, env: Env)
    requires ids != []
    ensures var s := WireStep(ids[0], k, env);
      && (s.Skip? ==> WireFrom(ids, k, env) == WireFrom(ids[1..], k, env))
      && (s.Stop? ==> WireFrom(ids, k, env) == Wiring([], s.calls, Some(s.err)))
      && (s.Add? ==> WireFrom(ids, k, env) == After([s.entry], [s.call], WireFrom(ids[1..], k + 1, env)))
  {
  }

  /**
   * A wiring that raises nothing took one spare interface per non-`prod`
   * secondary network, in order, from interface `k` on.
   */
  lemma {:induction false} WireFromShape(ids: seq<string>, k: nat, env: Env)
    requires WireFrom(ids, k, env).err.None?
    ensures Wired(NonProd(ids, env.networks), k, env, WireFrom(ids, k, env))
    decreases |ids|
  {
    if ids != [] {
      WireFromStep(ids, k, env);
      var j := LookupNetwork(ids[0], env.networks).value;
      match WireStep(ids[0], k, env)
      case Skip =>
        WireFromShape(ids[1..], k, env);
        assert NonProd(ids, env.networks) == NonProd(ids[1..], env.networks);
      case Add(entry, call) =>
        WireFromShape(ids[1..], k + 1, env);
        var js := NonProd(ids, env.networks);
        assert js == [j] + NonProd(ids[1..], env.networks);
        assert js[1..] == NonProd(ids[1..], env.networks);
        var w := WireFrom(ids, k, env);
        assert Wiring(w.entries[1..], w.calls[1..], w.err) == WireFrom(ids[1..], k + 1, env);
    }
  }

  /** A `prod` secondary network neither takes an interface nor adds an entry or a request. */
  lemma ProdSkipped(ids: seq<string>, k: nat, env: Env, j: nat)
    requires ids != [] && LookupNetwork(ids[0], env.networks) == Some(j) && env.networks[j].netType == PROD
    ensures WireFrom(ids, k, env) == WireFrom(ids[1..], k, env)
  {
  }

  /** The testbed a `mount_nics` pass works against. */
  datatype Testbed = Testbed(networks: seq<NetworkDesc>, cNetworks: seq<Option<seq<ConcreteNetwork>>>,
                             interfaces: string -> seq<Nic>, clusterSite: string -> string)

  /** The wiring context of a descriptor of cluster `cluster` with `_c_nodes` `nodes`. */
  function EnvOf(cluster: string, nodes: Option<seq<string>>, tb: Testbed): Env
  {
    Env(WithMounted(tb.interfaces(cluster), false), tb.clusterSite(cluster), nodes, tb.networks, tb.cNetworks)
  }

  /**
   * `_mount_secondary_nics(desc, networks)` for a descriptor of cluster
   * `cluster` whose `_c_nics` are `nics0`: `nics` is the list it ends with.
   */
  method MountSecondaryNics(cluster: string, secondaries: seq<string>, nodes: Option<seq<string>>,
                            nics0: seq<NicEntry>, tb: Testbed)
    returns (nics: seq<NicEntry>, calls: seq<VlanCall>, err: Option<G5kError>)
    ensures |nics| >= |nics0| && nics[..|nics0|] == nics0
    ensures Wiring(nics[|nics0|..], calls, err)
         == WireFrom(secondaries, 0, EnvOf(cluster, nodes, tb))
  {
    var env := EnvOf(cluster, nodes, tb);
    var added;
    added, calls, err := WireAll(secondaries, env);
    nics := nics0 + added;
    assert nics[..|nics0|] == nics0 && nics[|nics0|..] == added;
  }

  /** The loop of `_mount_secondary_nics`: `added` is what it appends to `_c_nics`. */
  method WireAll(secondaries: seq<string>, env: Env)
    returns (added: seq<NicEntry>, calls: seq<VlanCall>, err: Option<G5kError>)
    ensures Wiring(added, calls, err) == WireFrom(secondaries, 0, env)
  {
    ghost var whole := WireFrom(secondaries, 0, env);
    var idx := 0;
    added := [];
    calls := [];
    var i := 0;
    while i < |secondaries|
      invariant 0 <= i <= |secondaries|
      invariant whole == After(added, calls, WireFrom(secondaries[i..], idx, env))
    {
      WireFromStep(secondaries[i..], idx, env);
      assert secondaries[i..][1..] == secondaries[i + 1..];
      var step := WireStep(secondaries[i], idx, env);
      match step {
        case Skip =>
        case Stop(made, e) =>
          return added, calls + made, Some(e);
        case Add(entry, call) =>
          calls := calls + [call];
          added := added + [entry];
          idx := idx + 1;
      }
      i := i + 1;
    }
    err := None;
  }

  /**
   * What one descriptor ends with under `mount_nics`: `_c_nics` (None: never
   * set, when it raises before the primary entry), the VLAN requests, the error.
   */
  datatype Mounting = Mounting(nics: Option<seq<NicEntry>>, calls: seq<VlanCall>, err: Option<G5kError>)

  function MountOne(m: Machine, nodes: Option<seq<string>>, tb: Testbed): Mounting
  {
    if m.cluster == "" then Mounting(None, [], Some(KeyError("cluster")))
    else
      var mounted := WithMounted(tb.interfaces(m.cluster), true);
      if mounted == [] then Mounting(None, [], Some(IndexError))
      else
        match LookupNetwork(m.primaryNetwork, tb.networks)
        case None => Mounting(None, [], Some(IndexError))
        case Some(j) =>
          match RolesAsList(tb.networks[j])
          case None => Mounting(None, [], Some(AttributeError("extend")))
          case Some(roles) =>
            var w := WireFrom(m.secondaryNetworks, 0,
                              EnvOf(m.cluster, nodes, tb));
            Mounting(Some([(mounted[0].name, roles)] + w.entries), w.calls, w.err)
  }

  /**
   * A descriptor mounted without error starts its `_c_nics` with its first
   * mounted interface and the roles of its primary network, followed by
   * one spare interface per non-`prod` secondary network.
   */
  lemma MountOneShape(m: Machine, nodes: Option<seq<string>>, tb: Testbed)
    requires MountOne(m, nodes, tb).err.None?
    ensures var r := MountOne(m, nodes, tb);
      && r.nics.Some?
      && |r.nics.value| >= 1
      && Wired(NonProd(m.secondaryNetworks, tb.networks), 0,
               EnvOf(m.cluster, nodes, tb),
               Wiring(r.nics.value[1..], r.calls, None))
      && WithMounted(tb.interfaces(m.cluster), true) != []
      && r.nics.value[0].0 == WithMounted(tb.interfaces(m.cluster), true)[0].name
      && LookupNetwork(m.primaryNetwork, tb.networks).Some?
      && r.nics.value[0].1 == RolesAsList(tb.networks[LookupNetwork(m.primaryNetwork, tb.networks).value]).value
  {
    var env := EnvOf(m.cluster, nodes, tb);
    var w := WireFrom(m.secondaryNetworks, 0, env);
    WireFromShape(m.secondaryNetworks, 0, env);
    var r := MountOne(m, nodes, tb);
    assert r.nics.value[1..] == w.entries;
  }

  /** The VLAN requests `mount_nics` makes for the first `n` descriptors. */
  function CallsUpTo(machines: seq<Machine>, cNodes: seq<Option<seq<string>>>, tb: Testbed, n: nat): seq<VlanCall>
    requires n <= |machines| == |cNodes|
  {
    if n == 0 then []
    else CallsUpTo(machines, cNodes, tb, n - 1) + MountOne(machines[n - 1], cNodes[n - 1], tb).calls
  }

  /** The first `i` descriptors mounted without error, the others untouched. */
  ghost predicate MountedUpTo(machines: seq<Machine>, cNodes: seq<Option<seq<string>>>, tb: Testbed, i: nat,
                              cNics: seq<Option<seq<NicEntry>>>, calls: seq<VlanCall>)
  {
    && i <= |machines| == |cNodes| == |cNics|
    && (forall u :: 0 <= u < i ==> MountOne(machines[u], cNodes[u], tb).err.None?)
    && (forall u :: 0 <= u < i ==> cNics[u] == MountOne(machines[u], cNodes[u], tb).nics)
    && (forall u :: i <= u < |machines| ==> cNics[u] == None)
    && calls == CallsUpTo(machines, cNodes, tb, i)
  }

  /** Descriptor `i` raised `err`, after the ones before it were mounted without error. */
  ghost predicate FailedAt(machines: seq<Machine>, cNodes: seq<Option<seq<string>>>, tb: Testbed, i: nat,
                           cNics: seq<Option<seq<NicEntry>>>, calls: seq<VlanCall>, err: G5kError)
  {
    && i < |machines| == |cNodes| == |cNics|
    && MountOne(machines[i], cNodes[i], tb).err == Some(err)
    && cNics[i] == MountOne(machines[i], cNodes[i], tb).nics
    && (forall u :: 0 <= u < i ==> MountOne(machines[u], cNodes[u], tb).err.None?)
    && (forall u :: 0 <= u < i ==> cNics[u] == MountOne(machines[u], cNodes[u], tb).nics)
    && (forall u :: i < u < |machines| ==> cNics[u] == None)
    && calls == CallsUpTo(machines, cNodes, tb, i + 1)
  }

  /** One more descriptor mounted: it either extends the mounted prefix or is the one that raised. */
  lemma MountStep(machines: seq<Machine>, cNodes: seq<Option<seq<string>>>, tb: Testbed, i: nat,
                  cNics: seq<Option<seq<NicEntry>>>, calls: seq<VlanCall>, r: Mounting)
    requires MountedUpTo(machines, cNodes, tb, i, cNics, calls) && i < |machines|
    requires r == MountOne(machines[i], cNodes[i], tb)
    ensures r.err.None? ==> MountedUpTo(machines, cNodes, tb, i + 1, cNics[i := r.nics], calls + r.calls)
    ensures r.err.Some? ==> FailedAt(machines, cNodes, tb, i, cNics[i := r.nics], calls + r.calls, r.err.value)
  {
    assert CallsUpTo(machines, cNodes, tb, i + 1) == calls + r.calls;
    var c := cNics[i := r.nics];
    assert forall u :: 0 <= u < i ==> c[u] == cNics[u];
    assert forall u :: i < u < |machines| ==> c[u] == cNics[u];
  }

  /**
   * `mount_nics(c_resources)`: every descriptor in turn, until one raises.
   * `cNics[i]` is the `_c_nics` descriptor `i` ends with; `calls` logs every
   * VLAN request made.
   */
  method MountNics(machines: seq<Machine>, cNodes: seq<Option<seq<string>>>, tb: Testbed)
    returns (cNics: seq<Option<seq<NicEntry>>>, calls: seq<VlanCall>, err: Option<G5kError>)
    requires |cNodes| == |machines|
    ensures err.None? ==> MountedUpTo(machines, cNodes, tb, |machines|, cNics, calls)
    ensures err.Some? ==> exists i :: FailedAt(machines, cNodes, tb, i, cNics, calls, err.value)
  {
    cNics := seq(|machines|, _ => None);
    calls := [];
    var i := 0;
    while i < |machines|
      invariant MountedUpTo(machines, cNodes, tb, i, cNics, calls)
    {
      var r := MountPrimary(machines[i], cNodes[i], tb);
      MountStep(machines, cNodes, tb, i, cNics, calls, r);
      cNics := cNics[i := r.nics];
      calls := calls + r.calls;
      if r.err.Some? {
        return cNics, calls, r.err;
      }
      i := i + 1;
    }
    err := None;
  }

  /** The loop body of `mount_nics` for one descriptor, computed as `MountOne` specifies it. */
  method MountPrimary(m: Machine, nodes: Option<seq<string>>, tb: Testbed)
    returns (r: Mounting)
    ensures r == MountOne(m, nodes, tb)
  {
    if m.cluster == "" {
      return Mounting(None, [], Some(KeyError("cluster")));
    }
    var mounted := WithMounted(tb.interfaces(m.cluster), true);
    if mounted == [] {
      return Mounting(None, [], Some(IndexError));
    }
    var found := LookupNetwork(m.primaryNetwork, tb.networks);
    if found.None? {
      return Mounting(None, [], Some(IndexError));
    }
    var roles := RolesAsList(tb.networks[found.value]);
    if roles.None? {
      return Mounting(None, [], Some(AttributeError("extend")));
    }
    var nics, calls, err := MountSecondaryNics(m.cluster, m.secondaryNetworks, nodes, [(mounted[0].name, roles.value)], tb);
    assert nics == [(mounted[0].name, roles.value)] + nics[1..];
    r := Mounting(Some(nics), calls, err);
  }
}
