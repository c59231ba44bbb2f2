/**
 * `_build_reservation_criteria` and the job specifications of
 * `_do_grid_make_reservation` (enoslib/infra/enos_g5k/utils.py): the OAR
 * criteria of a request, gathered per site in a dictionary, and one job
 * specification per site.
 */
module G5kCriteria {
  import opened Common
  import opened G5kTypes

  /** One OAR criterion and the site it is submitted to. */
  datatype Criterion = Criterion(site: string, text: string)

  /**
   * A Python dict from site to criteria, in insertion order: each site once,
   * with its criteria in the order they were added.
   */
  type SiteCriteria = seq<(string, seq<string>)>

  // ---------------------------------------------------------------------------
  // The dictionary.

  function Sites(d: SiteCriteria): (ks: seq<string>)
    ensures |ks| == |d| && forall i :: 0 <= i < |d| ==> ks[i] == d[i].0
  {
    if d == [] then [] else [d[0].0] + Sites(d[1..])
  }

  predicate DistinctSites(d: SiteCriteria) {
    forall i, j :: 0 <= i < j < |d| ==> d[i].0 != d[j].0
  }

  /** `criteria.get(site, [])`. */
  function Lookup(d: SiteCriteria, site: string): seq<string>
  {
    if d == [] then []
    else if d[0].0 == site then d[0].1
    else Lookup(d[1..], site)
  }

  /** A site never added has no criteria. */
  lemma {:induction false} LookupAbsent(d: SiteCriteria, site: string)
    requires site !in Sites(d)
    ensures Lookup(d, site) == []
  {
    if d != [] {
      assert d[0].0 == Sites(d)[0];
      assert forall k :: k in Sites(d[1..]) ==> k in Sites(d) by {
        forall k | k in Sites(d[1..]) ensures k in Sites(d) {
          var j :| 0 <= j < |d[1..]| && Sites(d[1..])[j] == k;
          assert Sites(d)[j + 1] == k;
        }
      }
      LookupAbsent(d[1..], site);
    }
  }

  /** In a dictionary, the criteria of a site are those stored with it. */
  lemma {:induction false} DistinctLookup(d: SiteCriteria, i: nat)
    requires DistinctSites(d) && i < |d|
    ensures Lookup(d, d[i].0) == d[i].1
  {
    if i > 0 {
      assert d[1..][i - 1] == d[i];
      DistinctLookup(d[1..], i - 1);
    }
  }

  /** `criteria.setdefault(site, []).extend(items)`. */
  function SetDefaultExtend(d: SiteCriteria, site: string, items: seq<string>): (r: SiteCriteria)
    requires DistinctSites(d)
    ensures DistinctSites(r)
    ensures Sites(r) == if site in Sites(d) then Sites(d) else Sites(d) + [site]
    ensures Lookup(r, site) == Lookup(d, site) + items
    ensures forall s :: s != site ==> Lookup(r, s) == Lookup(d, s)
  {
    if site in Sites(d) then
      var i :| 0 <= i < |d| && Sites(d)[i] == site;
      ExtendPresent(d, i, items);
      d[i := (site, d[i].1 + items)]
    else
      ExtendAbsent(d, site, items);
      d + [(site, items)]
  }

  lemma ExtendPresent(d: SiteCriteria, i: nat, items: seq<string>)
    requires DistinctSites(d) && i < |d|
    ensures DistinctSites(d[i := (d[i].0, d[i].1 + items)])
    ensures Sites(d[i := (d[i].0, d[i].1 + items)]) == Sites(d)
    ensures Lookup(d[i := (d[i].0, d[i].1 + items)], d[i].0) == Lookup(d, d[i].0) + items
    ensures forall s :: s != d[i].0 ==> Lookup(d[i := (d[i].0, d[i].1 + items)], s) == Lookup(d, s)
  {
    var r := d[i := (d[i].0, d[i].1 + items)];
    DistinctLookup(d, i);
    DistinctLookup(r, i);
    forall s | s != d[i].0 ensures Lookup(r, s) == Lookup(d, s) {
      LookupUpdate(d, i, d[i].1 + items, s);
    }
  }

  lemma ExtendAbsent(d: SiteCriteria, site: string, items: seq<string>)
    requires DistinctSites(d) && site !in Sites(d)
    ensures DistinctSites(d + [(site, items)])
    ensures Sites(d + [(site, items)]) == Sites(d) + [site]
    ensures Lookup(d, site) == [] && Lookup(d + [(site, items)], site) == items
    ensures forall s :: s != site ==> Lookup(d + [(site, items)], s) == Lookup(d, s)
  {
    var r := d + [(site, items)];
    LookupAbsent(d, site);
    forall j | 0 <= j < |d| ensures d[j].0 != site {
      assert Sites(d)[j] == d[j].0;
    }
    DistinctLookup(r, |d|);
    forall s | s != site ensures Lookup(r, s) == Lookup(d, s) {
      LookupAppend(d, (site, items), s);
    }
  }

  lemma {:induction false} LookupUpdate(d: SiteCriteria, i: nat, v: seq<string>, s: string)
    requires i < |d| && s != d[i].0
    ensures Lookup(d[i := (d[i].0, v)], s) == Lookup(d, s)
  {
    if i > 0 {
      assert d[i := (d[i].0, v)][1..] == d[1..][i - 1 := (d[i].0, v)];
      LookupUpdate(d[1..], i - 1, v, s);
    }
  }

  lemma {:induction false} LookupAppend(d: SiteCriteria, e: (string, seq<string>), s: string)
    requires s != e.0
    ensures Lookup(d + [e], s) == Lookup(d, s)
  {
    if d != [] {
      assert (d + [e])[1..] == d[1..] + [e];
      LookupAppend(d[1..], e, s);
    }
  }

  // ---------------------------------------------------------------------------
  // The criteria of a request, in emission order.

  /** The texts of the criteria submitted to `site`, in order. */
  function TextsAt(es: seq<Criterion>, site: string): seq<string>
  {
    if es == [] then []
    else TextsAt(es[..|es| - 1], site) + (if es[|es| - 1].site == site then [es[|es| - 1].text] else [])
  }

  /** The sites of `es`, each once, in order of first appearance. */
  function FirstSites(es: seq<Criterion>): (r: seq<string>)
    ensures forall i, j :: 0 <= i < j < |r| ==> r[i] != r[j]
  {
    if es == [] then []
    else
      var p := FirstSites(es[..|es| - 1]);
      if es[|es| - 1].site in p then p else p + [es[|es| - 1].site]
  }

  /** A site appears among the first sites exactly when some criterion goes to it. */
  lemma {:induction false} FirstSitesMembers(es: seq<Criterion>, s: string)
    ensures s in FirstSites(es) <==> exists e :: e in es && e.site == s
  {
    if es != [] {
      var init := es[..|es| - 1];
      FirstSitesMembers(init, s);
      assert es == init + [es[|es| - 1]];
      if s in FirstSites(init) {
        var e :| e in init && e.site == s;
        assert e in es;
      }
    }
  }

  /** The texts of all the criteria of one site, in order. */
  function Texts(es: seq<Criterion>): (r: seq<string>)
    ensures |r| == |es| && forall i :: 0 <= i < |es| ==> r[i] == es[i].text
  {
    if es == [] then [] else [es[0].text] + Texts(es[1..])
  }

  predicate OneSite(es: seq<Criterion>, site: string) {
    forall i :: 0 <= i < |es| ==> es[i].site == site
  }

  /** Appending criteria of one site extends that site's texts only. */
  lemma {:induction false} TextsAtRun(es: seq<Criterion>, run: seq<Criterion>, site: string, s: string)
    requires OneSite(run, site)
    ensures TextsAt(es + run, s) == TextsAt(es, s) + (if s == site then Texts(run) else [])
    decreases |run|
  {
    if run == [] {
      assert es + run == es;
    } else {
      var init := run[..|run| - 1];
      var last := run[|run| - 1];
      assert (es + run)[..|es + run| - 1] == es + init;
      TextsAtRun(es, init, site, s);
      assert Texts(run) == Texts(init) + [last.text];
    }
  }

  /** Appending criteria of one site adds that site last, unless it was there. */
  lemma {:induction false} FirstSitesRun(es: seq<Criterion>, run: seq<Criterion>, site: string)
    requires run != [] && OneSite(run, site)
    ensures FirstSites(es + run) == if site in FirstSites(es) then FirstSites(es) else FirstSites(es) + [site]
    decreases |run|
  {
    var init := run[..|run| - 1];
    assert (es + run)[..|es + run| - 1] == es + init;
    if init != [] {
      FirstSitesRun(es, init, site);
    } else {
      assert es + init == es;
    }
  }

  /** `server.split(".")[1]`: None where the name has no dot (IndexError). */
  function SiteOfServer(server: string): (r: Option<string>)
    ensures r.None? <==> '.' !in server
    ensures r.Some? ==> '.' !in r.value
  {
    var pieces := Split(server, '.');
    if |pieces| < 2 then None else Some(pieces[1])
  }

  /** `"{network_address='%s'}/nodes=1" % server`. */
  function ServerText(server: string): string {
    "{network_address='" + server + "'}/nodes=1"
  }

  /** `"{cluster='%s'}/nodes=%s" % (cluster, nodes)`. */
  function ClusterText(cluster: string, nodes: nat): string {
    "{cluster='" + cluster + "'}/nodes=" + NatToString(nodes)
  }

  /** The criteria of a servers group, each under the site of its server (site known to exist). */
  function ServerCriteria(servers: seq<string>, site: string): (r: seq<Criterion>)
    ensures |r| == |servers| && OneSite(r, site)
    ensures forall i :: 0 <= i < |servers| ==> r[i].text == ServerText(servers[i])
  {
    if servers == [] then [] else [Criterion(site, ServerText(servers[0]))] + ServerCriteria(servers[1..], site)
  }

  /**
   * The criteria of one machine descriptor. A servers group yields one
   * criterion per server, all under their common site: a server without a
   * dot raises IndexError, two sites ValueError. A cluster group yields one
   * criterion under its cluster's site when `nodes` is not 0; a missing
   * cluster raises KeyError.
   */
  function MachineCriteria(m: Machine, clusterSite: string -> string): (r: Result<seq<Criterion>, G5kError>)
    ensures r.Success? && r.value != [] ==> OneSite(r.value, r.value[0].site)
    ensures r.Success? && m.servers != [] ==> |r.value| == |m.servers|
    ensures r.Success? && m.servers == [] ==> |r.value| == if m.nodes == 0 then 0 else 1
  {
    if m.servers != [] then
      if exists s :: s in m.servers && '.' !in s then Failure(IndexError)
      else
        var s0 := m.servers[0];
        assert s0 in m.servers;
        var site := SiteOfServer(s0).value;
        if exists s :: s in m.servers && SiteOfServer(s) != Some(site) then
          Failure(ValueError("Nodes of different sites detected in a single description"))
        else Success(ServerCriteria(m.servers, site))
    else if m.cluster == "" then Failure(KeyError("cluster"))
    else if m.nodes == 0 then Success([])
    else Success([Criterion(clusterSite(m.cluster), ClusterText(m.cluster, m.nodes))])
  }

  /** A servers group spanning two sites is refused with ValueError. */
  lemma MixedSitesRefused(m: Machine, clusterSite: string -> string, i: nat, j: nat)
    requires i < |m.servers| && j < |m.servers|
    requires forall s :: s in m.servers ==> '.' in s
    requires SiteOfServer(m.servers[i]) != SiteOfServer(m.servers[j])
    ensures MachineCriteria(m, clusterSite).Failure?
    ensures MachineCriteria(m, clusterSite).error.ValueError?
  {
    var site := SiteOfServer(m.servers[0]).value;
    if SiteOfServer(m.servers[i]) == Some(site) {
      assert m.servers[j] in m.servers;
    } else {
      assert m.servers[i] in m.servers;
    }
  }

  /** A servers group on one site yields one criterion per server, in order, under that site. */
  lemma ServersOneSite(m: Machine, clusterSite: string -> string, site: string)
    requires m.servers != []
    requires forall s :: s in m.servers ==> SiteOfServer(s) == Some(site)
    ensures MachineCriteria(m, clusterSite) == Success(ServerCriteria(m.servers, site))
  {
    assert m.servers[0] in m.servers;
  }

  /**
   * A group without servers: a KeyError without a cluster, no criterion for
   * zero nodes, otherwise one criterion under the site of the cluster whose
   * `nodes=` count reads back as `nodes`.
   */
  lemma ClusterCriterion(m: Machine, clusterSite: string -> string)
    requires m.servers == []
    ensures m.cluster == "" ==> MachineCriteria(m, clusterSite) == Failure(KeyError("cluster"))
    ensures m.cluster != "" && m.nodes == 0 ==> MachineCriteria(m, clusterSite) == Success([])
    ensures m.cluster != "" && m.nodes > 0 ==>
      var r := MachineCriteria(m, clusterSite);
      var prefix := "{cluster='" + m.cluster + "'}/nodes=";
      && r.Success? && |r.value| == 1 && r.value[0].site == clusterSite(m.cluster)
      && prefix <= r.value[0].text
      && ParseNat(r.value[0].text[|prefix|..]) == m.nodes
  {
    ParseNatToString(m.nodes);
    var prefix := "{cluster='" + m.cluster + "'}/nodes=";
    assert ClusterText(m.cluster, m.nodes) == prefix + NatToString(m.nodes);
    assert ClusterText(m.cluster, m.nodes)[|prefix|..] == NatToString(m.nodes);
  }

  /** The criteria of the machines, in order, or the first error. */
  function MachinesCriteria(ms: seq<Machine>, clusterSite: string -> string): Result<seq<Criterion>, G5kError>
  {
    if ms == [] then Success([])
    else
      match MachinesCriteria(ms[..|ms| - 1], clusterSite)
      case Failure(e) => Failure(e)
      case Success(es) =>
        match MachineCriteria(ms[|ms| - 1], clusterSite)
        case Failure(e) => Failure(e)
        case Success(more) => Success(es + more)
  }

  /** `"{type='%s'}/vlan=1" % n_type`, under the network's site. */
  function VlanCriterion(n: NetworkDesc): Criterion {
    Criterion(n.site, "{type='" + n.netType + "'}/vlan=1")
  }

  /** `"%s=1" % n_type`, under the network's site. */
  function SubnetCriterion(n: NetworkDesc): Criterion {
    Criterion(n.site, n.netType + "=1")
  }

  /** The network criteria: every kavlan network, then every subnet, each under its site. */
  function VlanCriteria(networks: seq<NetworkDesc>): seq<Criterion>
  {
    if networks == [] then []
    else
      var n := networks[0];
      (if n.netType in KAVLAN_TYPE then [VlanCriterion(n)] else [])
      + VlanCriteria(networks[1..])
  }

  function SubnetCriteria(networks: seq<NetworkDesc>): seq<Criterion>
  {
    if networks == [] then []
    else
      var n := networks[0];
      (if n.netType in SUBNET_TYPES then [SubnetCriterion(n)] else [])
      + SubnetCriteria(networks[1..])
  }

  /** The dictionary built from criteria emitted in the order `es`. */
  ghost predicate Gathers(d: SiteCriteria, es: seq<Criterion>) {
    && DistinctSites(d)
    && Sites(d) == FirstSites(es)
    && forall s :: Lookup(d, s) == TextsAt(es, s)
  }

  /** Adds criteria of one site, as `setdefault(site, []).extend/append` do. */
  lemma GathersRun(d: SiteCriteria, es: seq<Criterion>, run: seq<Criterion>, site: string)
    requires Gathers(d, es) && run != [] && OneSite(run, site)
    ensures Gathers(SetDefaultExtend(d, site, Texts(run)), es + run)
  {
    FirstSitesRun(es, run, site);
    forall s ensures Lookup(SetDefaultExtend(d, site, Texts(run)), s) == TextsAt(es + run, s) {
      TextsAtRun(es, run, site, s);
    }
  }

  /** The machines loop: each descriptor's criteria, extended under their site. */
  method AddMachineCriteria(machines: seq<Machine>, clusterSite: string -> string)
    returns (criteria: SiteCriteria, err: Option<G5kError>)
    ensures err.Some? <==> MachinesCriteria(machines, clusterSite).Failure?
    ensures err.Some? ==> err.value == MachinesCriteria(machines, clusterSite).error
    ensures err.None? ==> Gathers(criteria, MachinesCriteria(machines, clusterSite).value)
  {
    criteria := [];
    ghost var es: seq<Criterion> := [];
    var i := 0;
    while i < |machines|
      invariant 0 <= i <= |machines|
      invariant MachinesCriteria(machines[..i], clusterSite) == Success(es)
      invariant Gathers(criteria, es)
    {
      assert machines[..i + 1][..i] == machines[..i];
      var r := MachineCriteria(machines[i], clusterSite);
      if r.Failure? {
        FailureSticks(machines, i + 1, clusterSite);
        return criteria, Some(r.error);
      }
      var more := r.value;
      if more != [] {
        GathersRun(criteria, es, more, more[0].site);
        criteria := SetDefaultExtend(criteria, more[0].site, Texts(more));
      } else {
        assert es + more == es;
      }
      es := es + more;
      i := i + 1;
    }
    assert machines[..i] == machines;
    err := None;
  }

  /** One step of the kavlan loop: network `j` adds its criterion, if it is a kavlan. */
  lemma VlanStep(d: SiteCriteria, es: seq<Criterion>, networks: seq<NetworkDesc>, j: nat)
    requires j < |networks| && Gathers(d, es + VlanCriteria(networks[..j]))
    ensures networks[j].netType in KAVLAN_TYPE ==>
      Gathers(SetDefaultExtend(d, networks[j].site, [VlanCriterion(networks[j]).text]), es + VlanCriteria(networks[..j + 1]))
    ensures networks[j].netType !in KAVLAN_TYPE ==> Gathers(d, es + VlanCriteria(networks[..j + 1]))
  {
    var n := networks[j];
    var e := es + VlanCriteria(networks[..j]);
    VlanPrefix(networks, j);
    if n.netType in KAVLAN_TYPE {
      GathersRun(d, e, [VlanCriterion(n)], n.site);
      assert es + VlanCriteria(networks[..j + 1]) == e + [VlanCriterion(n)];
    } else {
      assert es + VlanCriteria(networks[..j + 1]) == e;
    }
  }

  /** The kavlan loop: `{type='t'}/vlan=1` appended under each kavlan network's site. */
  method AddVlanCriteria(criteria0: SiteCriteria, ghost es: seq<Criterion>, networks: seq<NetworkDesc>)
    returns (criteria: SiteCriteria)
    requires Gathers(criteria0, es)
    ensures Gathers(criteria, es + VlanCriteria(networks))
  {
    criteria := criteria0;
    var j := 0;
    assert es + VlanCriteria(networks[..0]) == es;
    while j < |networks|
      invariant 0 <= j <= |networks|
      invariant Gathers(criteria, es + VlanCriteria(networks[..j]))
    {
      var n := networks[j];
      VlanStep(criteria, es, networks, j);
      if n.netType in KAVLAN_TYPE {
        criteria := SetDefaultExtend(criteria, n.site, [VlanCriterion(n).text]);
      }
      j := j + 1;
    }
    assert networks[..j] == networks;
  }

  /** One step of the subnet loop: network `j` adds its criterion, if it is a subnet. */
  lemma SubnetStep(d: SiteCriteria, es: seq<Criterion>, networks: seq<NetworkDesc>, j: nat)
    requires j < |networks| && Gathers(d, es + SubnetCriteria(networks[..j]))
    ensures networks[j].netType in SUBNET_TYPES ==>
      Gathers(SetDefaultExtend(d, networks[j].site, [SubnetCriterion(networks[j]).text]), es + SubnetCriteria(networks[..j + 1]))
    ensures networks[j].netType !in SUBNET_TYPES ==> Gathers(d, es + SubnetCriteria(networks[..j + 1]))
  {
    var n := networks[j];
    var e := es + SubnetCriteria(networks[..j]);
    SubnetPrefix(networks, j);
    if n.netType in SUBNET_TYPES {
      GathersRun(d, e, [SubnetCriterion(n)], n.site);
      assert es + SubnetCriteria(networks[..j + 1]) == e + [SubnetCriterion(n)];
    } else {
      assert es + SubnetCriteria(networks[..j + 1]) == e;
    }
  }

  /** The subnet loop: `t=1` appended under each subnet's site. */
  method AddSubnetCriteria(criteria0: SiteCriteria, ghost es: seq<Criterion>, networks: seq<NetworkDesc>)
    returns (criteria: SiteCriteria)
    requires Gathers(criteria0, es)
    ensures Gathers(criteria, es + SubnetCriteria(networks))
  {
    criteria := criteria0;
    var j := 0;
    assert es + SubnetCriteria(networks[..0]) == es;
    while j < |networks|
      invariant 0 <= j <= |networks|
      invariant Gathers(criteria, es + SubnetCriteria(networks[..j]))
    {
      var n := networks[j];
      SubnetStep(criteria, es, networks, j);
      if n.netType in SUBNET_TYPES {
        criteria := SetDefaultExtend(criteria, n.site, [SubnetCriterion(n).text]);
      }
      j := j + 1;
    }
    assert networks[..j] == networks;
  }

  /**
   * `_build_reservation_criteria(machines, networks)`: `clusterSite` stands
   * for `get_cluster_site`. On success `criteria` gathers, per site in order
   * of first use, the machine criteria then the kavlan then the subnet ones.
   */
  method BuildCriteria(machines: seq<Machine>, networks: seq<NetworkDesc>, clusterSite: string -> string)
    returns (criteria: SiteCriteria, err: Option<G5kError>)
    ensures err.Some? <==> MachinesCriteria(machines, clusterSite).Failure?
    ensures err.Some? ==> err.value == MachinesCriteria(machines, clusterSite).error
    ensures err.None? ==>
      Gathers(criteria, MachinesCriteria(machines, clusterSite).value + VlanCriteria(networks) + SubnetCriteria(networks))
  {
    criteria, err := AddMachineCriteria(machines, clusterSite);
    if err.Some? {
      return;
    }
    ghost var es := MachinesCriteria(machines, clusterSite).value;
    criteria := AddVlanCriteria(criteria, es, networks);
    criteria := AddSubnetCriteria(criteria, es + VlanCriteria(networks), networks);
  }

  /** Once a prefix of the machines fails, all of them fail with the same error. */
  lemma {:induction false} FailureSticks(ms: seq<Machine>, n: nat, clusterSite: string -> string)
    requires n <= |ms| && MachinesCriteria(ms[..n], clusterSite).Failure?
    ensures MachinesCriteria(ms, clusterSite) == MachinesCriteria(ms[..n], clusterSite)
    decreases |ms| - n
  {
    if n == |ms| {
      assert ms[..n] == ms;
    } else {
      assert ms[..n + 1][..n] == ms[..n];
      FailureSticks(ms, n + 1, clusterSite);
    }
  }

  lemma VlanPrefix(networks: seq<NetworkDesc>, j: nat)
    requires j < |networks|
    ensures VlanCriteria(networks[..j + 1]) == VlanCriteria(networks[..j])
      + (if networks[j].netType in KAVLAN_TYPE
         then [VlanCriterion(networks[j])] else [])
  {
    VlanConcat(networks[..j], [networks[j]]);
    assert networks[..j + 1] == networks[..j] + [networks[j]];
  }

  lemma {:induction false} VlanConcat(a: seq<NetworkDesc>, b: seq<NetworkDesc>)
    ensures VlanCriteria(a + b) == VlanCriteria(a) + VlanCriteria(b)
  {
    if a != [] {
      assert (a + b)[1..] == a[1..] + b;
      VlanConcat(a[1..], b);
    } else {
      assert a + b == b;
    }
  }

  lemma SubnetPrefix(networks: seq<NetworkDesc>, j: nat)
    requires j < |networks|
    ensures SubnetCriteria(networks[..j + 1]) == SubnetCriteria(networks[..j])
      + (if networks[j].netType in SUBNET_TYPES
         then [SubnetCriterion(networks[j])] else [])
  {
    SubnetConcat(networks[..j], [networks[j]]);
    assert networks[..j + 1] == networks[..j] + [networks[j]];
  }

  lemma {:induction false} SubnetConcat(a: seq<NetworkDesc>, b: seq<NetworkDesc>)
    ensures SubnetCriteria(a + b) == SubnetCriteria(a) + SubnetCriteria(b)
  {
    if a != [] {
      assert (a + b)[1..] == a[1..] + b;
      SubnetConcat(a[1..], b);
    } else {
      assert a + b == b;
    }
  }

  /** In a gathered dictionary no site has an empty list of criteria. */
  lemma GatheredNonEmpty(d: SiteCriteria, es: seq<Criterion>)
    requires Gathers(d, es)
    ensures forall i :: 0 <= i < |d| ==> d[i].1 != []
  {
    forall i | 0 <= i < |d| ensures d[i].1 != [] {
      var site := d[i].0;
      assert Sites(d)[i] == site;
      FirstSitesMembers(es, site);
      var e :| e in es && e.site == site;
      TextsAtMember(es, e);
      DistinctLookup(d, i);
    }
  }

  lemma {:induction false} TextsAtMember(es: seq<Criterion>, e: Criterion)
    requires e in es
    ensures TextsAt(es, e.site) != []
  {
    var init := es[..|es| - 1];
    if es[|es| - 1] != e {
      assert es == init + [es[|es| - 1]];
      assert e in init;
      TextsAtMember(init, e);
    }
  }

  // ---------------------------------------------------------------------------
  // Job specifications (`_do_grid_make_reservation`, before `submit_jobs`).

  /** What every job runs: it only holds the resources. */
  const SLEEP_COMMAND: string := "sleep 31536000"

  const WALLTIME_SEP: string := ",walltime="

  datatype JobSpec = JobSpec(
    name: string,
    types: seq<string>,
    resources: string,
    command: string,
    queue: string,
    reservation: Option<string>)

  /** `"%s,walltime=%s" % ("+".join(criteria), walltime)`. */
  function Resources(criteria: seq<string>, walltime: string): string {
    Join(criteria, '+') + WALLTIME_SEP + walltime
  }

  /** `reservation` is set only when the date is truthy (given and not empty). */
  function ReservationOf(date: Option<string>): (r: Option<string>)
    ensures r.Some? <==> date.Some? && date.value != ""
    ensures r.Some? ==> r == date
  {
    if date.Some? && date.value != "" then date else None
  }

  /**
   * The job specifications, one per site in the dictionary's order: the
   * site's criteria joined with `+`, then the walltime; the same name, type,
   * command and queue for all.
   */
  method MakeJobSpecs(criteria: SiteCriteria, jobName: string, walltime: string,
                      reservationDate: Option<string>, queue: string, jobType: string)
    returns (specs: seq<(string, JobSpec)>)
    ensures |specs| == |criteria|
    ensures forall i :: 0 <= i < |specs| ==>
      specs[i] == (criteria[i].0, JobSpec(jobName, [jobType], Resources(criteria[i].1, walltime),
                                         SLEEP_COMMAND, queue, ReservationOf(reservationDate)))
  {
    specs := [];
    var i := 0;
    while i < |criteria|
      invariant 0 <= i <= |criteria| && |specs| == i
      invariant forall t :: 0 <= t < i ==>
        specs[t] == (criteria[t].0, JobSpec(jobName, [jobType], Resources(criteria[t].1, walltime),
                                           SLEEP_COMMAND, queue, ReservationOf(reservationDate)))
    {
      var site := criteria[i].0;
      var resources := Join(criteria[i].1, '+');
      resources := resources + WALLTIME_SEP + walltime;
      var reservation := None;
      if reservationDate.Some? && reservationDate.value != "" {
        reservation := reservationDate;
      }
      specs := specs + [(site, JobSpec(jobName, [jobType], resources, SLEEP_COMMAND, queue, reservation))];
      i := i + 1;
    }
  }

  /**
   * The criteria of a site can be read back from its job's resources: drop
   * the walltime suffix and split on `+` (no criterion holds a `+`).
   */
  lemma ResourcesRoundTrip(criteria: seq<string>, walltime: string)
    requires criteria != []
    requires forall i :: 0 <= i < |criteria| ==> '+' !in criteria[i]
    ensures |Resources(criteria, walltime)| >= |WALLTIME_SEP + walltime|
    ensures Split(Resources(criteria, walltime)[..|Resources(criteria, walltime)| - |WALLTIME_SEP + walltime|], '+')
         == criteria
  {
    var j := Join(criteria, '+');
    var r := Resources(criteria, walltime);
    assert r == j + (WALLTIME_SEP + walltime);
    assert r[..|r| - |WALLTIME_SEP + walltime|] == j;
    SplitJoin(criteria, '+');
  }
}
