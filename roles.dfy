/**
 * The role helpers of enoslib/utils.py: reading the roles of a machine
 * description, listing every host of a roles dictionary, and keeping only
 * some hosts of it.
 */
module Roles {
  import opened Common

  // ---------------------------------------------------------------------------
  // get_roles_as_list

  /** The `roles` and `role` keys of a description, each absent or present. */
  datatype RoleDesc = RoleDesc(roles: Option<seq<string>>, role: Option<string>)

  /**
   * `get_roles_as_list(desc)`: `roles` when it is non-empty, else `[role]`
   * when `role` is a non-empty string, else the empty list.
   */
  function GetRolesAsList(d: RoleDesc): (r: seq<string>)
    ensures d.roles.Some? && d.roles.value != [] ==> r == d.roles.value
    ensures (d.roles.None? || d.roles.value == []) && d.role.Some? && d.role.value != "" ==> r == [d.role.value]
    ensures (d.roles.None? || d.roles.value == []) && (d.role.None? || d.role.value == "") ==> r == []
    ensures r != [] <==> (d.roles.Some? && d.roles.value != []) || (d.role.Some? && d.role.value != "")
  {
    var roles := d.roles.GetOr([]);
    if roles != [] then roles
    else if d.role.GetOr("") != "" then [d.role.value]
    else roles
  }

  // ---------------------------------------------------------------------------
  // Roles dictionaries

  /** A host, known here by its alias; `rest` stands for its other attributes. */
  datatype Host = Host(alias: string, rest: string)

  /** A roles dictionary: its items in insertion order. */
  type RoleMap = seq<(string, seq<Host>)>

  /** A dictionary has each key once. */
  predicate DistinctKeys(d: RoleMap)
  {
    forall i, j :: 0 <= i < j < |d| ==> d[i].0 != d[j].0
  }

  /** The keys of a dictionary. */
  function Keys(d: RoleMap): set<string>
  {
    set i | 0 <= i < |d| :: d[i].0
  }

  // ---------------------------------------------------------------------------
  // gen_rsc

  /** `gen_rsc(roles)`: every host of every role, role by role. */
  function GenRsc(roles: RoleMap): seq<Host>
  {
    if roles == [] then [] else roles[0].1 + GenRsc(roles[1..])
  }

  /** The hosts of two dictionaries' items are those of the first, then those of the second. */
  lemma {:induction false} GenRscConcat(a: RoleMap, b: RoleMap)
    ensures GenRsc(a + b) == GenRsc(a) + GenRsc(b)
  {
    if a == [] {
      assert a + b == b;
    } else {
      assert (a + b)[1..] == a[1..] + b;
      GenRscConcat(a[1..], b);
    }
  }

  /** Each host is yielded as often as it occurs, summed over the roles: duplicates included. */
  lemma {:induction false} GenRscCount(roles: RoleMap, h: Host)
    ensures multiset(GenRsc(roles))[h] == CountIn(roles, h)
  {
    if roles != [] {
      GenRscCount(roles[1..], h);
    }
  }

  /** How often `h` occurs in the roles' lists, summed. */
  function CountIn(roles: RoleMap, h: Host): nat
  {
    if roles == [] then 0 else multiset(roles[0].1)[h] + CountIn(roles[1..], h)
  }

  /** A host is yielded exactly when some role lists it. */
  lemma {:induction false} GenRscMember(roles: RoleMap, h: Host)
    ensures h in GenRsc(roles) <==> exists i :: 0 <= i < |roles| && h in roles[i].1
  {
    if roles != [] {
      GenRscMember(roles[1..], h);
      if h in GenRsc(roles[1..]) {
        var i :| 0 <= i < |roles[1..]| && h in roles[1..][i].1;
        assert h in roles[i + 1].1;
      }
      if exists i :: 0 <= i < |roles| && h in roles[i].1 {
        var i :| 0 <= i < |roles| && h in roles[i].1;
        if i > 0 {
          assert h in roles[1..][i - 1].1;
        }
      }
    }
  }

  // ---------------------------------------------------------------------------
  // remove_hosts

  /** The hosts whose alias is kept, in their order. */
  function Filter(hosts: seq<Host>, keep: seq<string>): seq<Host>
  {
    if hosts == [] then []
    else Filter(hosts[..|hosts| - 1], keep) + (if hosts[|hosts| - 1].alias in keep then [hosts[|hosts| - 1]] else [])
  }

  /** Filtering keeps order: the filter of two lists is the filter of the first, then of the second. */
  lemma {:induction false} FilterConcat(a: seq<Host>, b: seq<Host>, keep: seq<string>)
    ensures Filter(a + b, keep) == Filter(a, keep) + Filter(b, keep)
    decreases |b|
  {
    if b == [] {
      assert a + b == a;
    } else {
      var n := |b| - 1;
      assert (a + b)[..|a + b| - 1] == a + b[..n];
      FilterConcat(a, b[..n], keep);
    }
  }

  /** A host survives the filter exactly when it was there and its alias is kept. */
  lemma {:induction false} FilterMember(hosts: seq<Host>, keep: seq<string>, h: Host)
    ensures h in Filter(hosts, keep) <==> h in hosts && h.alias in keep
  {
    if hosts != [] {
      var n := |hosts| - 1;
      FilterMember(hosts[..n], keep, h);
      assert hosts == hosts[..n] + [hosts[n]];
    }
  }

  /** The roles that keep a host, each with its kept hosts, in the dictionary's order. */
  function Kept(roles: RoleMap, keep: seq<string>): RoleMap
  {
    if roles == [] then []
    else
      var (role, hosts) := roles[|roles| - 1];
      Kept(roles[..|roles| - 1], keep) + (if Filter(hosts, keep) == [] then [] else [(role, Filter(hosts, keep))])
  }

  /**
   * A role is in the result exactly when one of its hosts is kept, and then
   * with the order-preserving filter of its hosts.
   */
  lemma {:induction false} KeptMember(roles: RoleMap, keep: seq<string>, role: string, hosts: seq<Host>)
    ensures (role, hosts) in Kept(roles, keep) <==>
      exists i :: 0 <= i < |roles| && KeptAs(roles[i], keep, role, hosts)
  {
    if roles != [] {
      var n := |roles| - 1;
      var init := roles[..n];
      KeptMember(init, keep, role, hosts);
      if exists i :: 0 <= i < |roles| && KeptAs(roles[i], keep, role, hosts) {
        var i :| 0 <= i < |roles| && KeptAs(roles[i], keep, role, hosts);
        if i < n {
          assert KeptAs(init[i], keep, role, hosts);
        }
      }
      if (role, hosts) in Kept(init, keep) {
        var i :| 0 <= i < n && KeptAs(init[i], keep, role, hosts);
        assert KeptAs(roles[i], keep, role, hosts);
      }
    }
  }

  /** The item `item` keeps a host, and leaves `role` with `hosts`. */
  predicate KeptAs(item: (string, seq<Host>), keep: seq<string>, role: string, hosts: seq<Host>)
  {
    item.0 == role && hosts == Filter(item.1, keep) && hosts != []
  }

  /** The result's keys are among the dictionary's. */
  lemma {:induction false} KeptKeys(roles: RoleMap, keep: seq<string>)
    ensures Keys(Kept(roles, keep)) <= Keys(roles)
  {
    if roles != [] {
      var n := |roles| - 1;
      KeptKeys(roles[..n], keep);
      var init := roles[..n];
      forall k | k in Keys(Kept(roles, keep)) ensures k in Keys(roles) {
        var i :| 0 <= i < |Kept(roles, keep)| && Kept(roles, keep)[i].0 == k;
        if i < |Kept(init, keep)| {
          assert Kept(init, keep)[i].0 == k;
          assert k in Keys(Kept(init, keep));
          var j :| 0 <= j < n && init[j].0 == k;
          assert roles[j].0 == k;
        } else {
          assert roles[n].0 == k;
        }
      }
    }
  }

  /** Every host left has its alias in `hosts_to_keep`. */
  lemma KeptOnlyKept(roles: RoleMap, keep: seq<string>, i: nat, h: Host)
    requires i < |Kept(roles, keep)| && h in Kept(roles, keep)[i].1
    ensures h.alias in keep
  {
    var (role, hosts) := Kept(roles, keep)[i];
    assert (role, hosts) in Kept(roles, keep);
    KeptMember(roles, keep, role, hosts);
    var j :| 0 <= j < |roles| && KeptAs(roles[j], keep, role, hosts);
    FilterMember(roles[j].1, keep, h);
  }

  /** The index of `key` in a dictionary, if it is there. */
  function FindKey(d: RoleMap, key: string): (r: Option<nat>)
    ensures r.Some? ==> r.value < |d| && d[r.value].0 == key
    ensures r.None? <==> key !in Keys(d)
  {
    if d == [] then None
    else if d[|d| - 1].0 == key then Some(|d| - 1)
    else
      var r := FindKey(d[..|d| - 1], key);
      assert Keys(d) == Keys(d[..|d| - 1]) + {d[|d| - 1].0};
      r
  }

  /** `d[key].append(h)` on a `defaultdict(list)`: a missing key starts as an empty list at the end. */
  function DictAppend(d: RoleMap, key: string, h: Host): RoleMap
  {
    match FindKey(d, key)
    case None => d + [(key, [h])]
    case Some(k) => d[k := (key, d[k].1 + [h])]
  }

  /** `remove_hosts(roles, hosts_to_keep)`: the loops appending each kept host under its role. */
  method RemoveHosts(roles: RoleMap, keep: seq<string>) returns (updated: RoleMap)
    requires DistinctKeys(roles)
    ensures updated == Kept(roles, keep)
  {
    updated := [];
    for i := 0 to |roles|
      invariant updated == Kept(roles[..i], keep)
    {
      var (role, hosts) := roles[i];
      assert roles[..i + 1][..i] == roles[..i];
      assert role !in Keys(updated) by {
        KeptKeys(roles[..i], keep);
      }
      var before := updated;
      for j := 0 to |hosts|
        invariant updated == before + (if Filter(hosts[..j], keep) == [] then [] else [(role, Filter(hosts[..j], keep))])
      {
        assert hosts[..j + 1] == hosts[..j] + [hosts[j]];
        assert Filter(hosts[..j + 1], keep) == Filter(hosts[..j], keep) + (if hosts[j].alias in keep then [hosts[j]] else []) by {
          assert hosts[..j + 1][..j] == hosts[..j];
        }
        if hosts[j].alias in keep {
          AppendKept(before, updated, role, hosts[..j], hosts[j], keep);
          updated := DictAppend(updated, role, hosts[j]);
          assert updated == before + [(role, Filter(hosts[..j + 1], keep))];
        } else {
          assert Filter(hosts[..j + 1], keep) == Filter(hosts[..j], keep);
        }
      }
      assert hosts[..|hosts|] == hosts;
    }
    assert roles[..|roles|] == roles;
  }

  /** One step of the inner loop: the role's entry is the last one, or it is created at the end. */
  lemma AppendKept(before: RoleMap, updated: RoleMap, role: string, done: seq<Host>, h: Host, keep: seq<string>)
    requires role !in Keys(before) && h.alias in keep
    requires updated == before + (if Filter(done, keep) == [] then [] else [(role, Filter(done, keep))])
    ensures DictAppend(updated, role, h) == before + [(role, Filter(done + [h], keep))]
  {
    assert (done + [h])[..|done|] == done;
    assert Filter(done + [h], keep) == Filter(done, keep) + [h];
    if Filter(done, keep) != [] {
      assert FindKey(updated, role) == Some(|before|);
      assert DictAppend(updated, role, h) == before + [(role, Filter(done, keep) + [h])];
    } else {
      assert FindKey(updated, role).None?;
    }
  }
}
