# enoslib resource concretization and network emulation, modelled in Dafny

This project models four pieces of enoslib, a library that reserves
machines and networks on testbeds such as Grid'5000 and then configures
them.

- **Pool index** (`enoslib/infra/utils.py`, module `Pools`).
  - `mk_pools` sorts interchangeable resources stably by a key and groups them into buckets.
  - `pick_things` withdraws at most `n` of them from the front of one bucket.
  - The pools are a class holding a map from key to sequence, and `Pick` is a method that changes it.
- **Grid'5000 concretization** (`enoslib/infra/enos_g5k/utils.py`, modules `G5kTypes`, `G5kNodes`, `G5kNetworks`, `G5kCriteria`, `G5kNics`).
  - The machine and network descriptors of a request are bound to the concrete nodes and networks the testbed handed out.
  - `concretize_nodes` works in three passes: explicit servers, cluster minimums, then a best-effort fill.
  - `concretize_networks` does the same for networks.
  - The OAR criteria of the reservation are gathered per site, with one job specification per site.
  - Each machine's network interfaces are mounted: the primary one, then one spare interface per secondary network that is not `prod`.
- **Network emulation constraints** (`enoslib/service/netem/__init__.py`, module `Netem`).
  - Group patterns such as `grp[1-3]` are expanded.
  - Constraint descriptions are multiplied out over their source and destination groups.
  - Default pair constraints and user constraints with symmetric copies are generated.
  - The user constraints are merged into the defaults, in place, on an array.
- **Role helpers** (`enoslib/utils.py`, module `Roles`): `get_roles_as_list`, `gen_rsc` and `remove_hosts`.

`Common` holds the shared vocabulary: `Option`, `Result`, flattening, decimal digits, `str`/`int` on naturals, and `"+".join` with its inverse split.

Python dictionaries whose order matters are sequences of key/value pairs, in insertion order. These are the criteria per site, the roles dictionaries, and the constraint descriptions' order.

A descriptor's `_c_nodes`, `_c_network` and `_c_nics` entries are returned as a sequence parallel to the descriptors. `None` stands for an entry never set. A pass that raises halfway returns the entries set so far together with the error.

Testbed lookups are parameters of the model:
- `get_cluster_site` is a function `clusterSite`;
- `get_cluster_interfaces` is the list `interfaces(cluster)` filtered on `mounted`;
- each `set_nodes_vlan` request is appended to a call log.

## Behaviour of the code worth knowing

Some descriptions of this system say otherwise on the points below. The model follows the code.

- A missing explicit server fails through `list.remove`. It raises `ValueError`, not `NotEnoughNodesError`.
- A servers group that spans two sites raises a plain `ValueError`.
- The `sorted(servers, ...)` in the criteria builder discards its result, so it changes nothing.
- A `slash_16` request succeeds with between 1 and 63 `slash_22` blocks when fewer than 64 are left.
- A `prod` secondary network records no `_c_nics` entry and uses no interface.
- A descriptor with `min` above `nodes` asks the fill pass for a negative count `nodes - len(_c_nodes)`, and `pool[:nb]` then hands out all but the last `-nb` nodes of its cluster's pool. With `min` 3, `nodes` 1 and 7 nodes left in the pool, the descriptor ends with 8 nodes.
- After the minimum pass, the fill pass serves cluster descriptors in declaration order, not by `min`. With a cluster of 6 nodes, a first descriptor (`nodes` 5, `min` 1) and a second (`nodes` 3, `min` 3), the first ends with 3 nodes and the second with 3.
- The Grid'5000 provider's `get_roles_as_list` differs from the one in `enoslib/utils.py`:
  - it puts `role` first, then `roles`;
  - an empty `role` string is falsy, so the string is kept and `.extend` on it raises `AttributeError`.

## Model

| member | source | states |
|---|---|---|
| Pools.IndexPartition | enoslib/infra/utils.py:11-17 | Every input item lies in the bucket of its key, as many times as it occurs in the input. Every item of a bucket has that bucket's key, and no bucket is empty. |
| Pools.BucketKeyed | enoslib/infra/utils.py:14-16 | A bucket holds only input items of its key. |
| Pools.BucketCount | enoslib/infra/utils.py:14-16 | An item of key `k` occurs in bucket `k` exactly as often as in the input. |
| Pools.BucketSizesSum | enoslib/infra/utils.py:11-17 | Over any listing of the keys, each key once, the bucket sizes sum to the input length. |
| Pools.SortByKeyStable | enoslib/infra/utils.py:14 | The stable sort keeps the relative order of the items of each key. |
| Pools.SortByKeySorted | enoslib/infra/utils.py:14 | After the sort, no item's key is below the key of an item before it. |
| Pools.SortKeepsIndex | enoslib/infra/utils.py:14-16 | Sorting by the grouping key does not change the buckets built. |
| Pools.PoolsInKeyOrder | enoslib/infra/utils.py:14-16 | The buckets read in ascending key order, one after the other, give the input stably sorted by key. |
| Pools.Pools.constructor | enoslib/infra/utils.py:11-17 | The groupby loop over the sorted input, extending `setdefault(key, [])`, builds exactly one bucket per key holding that key's items in input order. |
| Pools.Take | enoslib/infra/utils.py:20-27 | An absent key gives `[]` and changes nothing. Otherwise the picked items followed by what is left make the old bucket. For `n >= 0` it picks `min(n, len)` items; a negative `n` follows Python's slice. Every other bucket is unchanged. |
| Pools.Pools.Pick | enoslib/infra/utils.py:20-27 | `pick_things` returns, and leaves in the pools, exactly what `Take` says. |
| Pools.TakeShrinks | enoslib/infra/utils.py:25-26 | A pick never adds to any bucket. |
| Pools.TakeShortEmpties | enoslib/infra/utils.py:25-26 | Asking for `n >= 0` and receiving fewer leaves the bucket empty. |
| Pools.TakeAccounted | enoslib/infra/utils.py:20-27 | A pick moves items of the picked key from the pools to the caller. Items handed out plus items still pooled stay equal to what was given. |
| Pools.PoolIsRemainder | enoslib/infra/utils.py:11-27 | While that ledger holds, the bucket of a key is exactly the given items of that key not handed out. |
| G5kTypes.ClusterOf | enoslib/infra/enos_g5k/utils.py:145 | `n.split("-")[0]`: the longest prefix without `-`, ending at the first `-` or at the end of the name. |
| G5kTypes.LookupNetwork | enoslib/infra/enos_g5k/utils.py:123-126 | The index of the first descriptor with that id. None exactly when no descriptor has it, which is the source's IndexError. |
| G5kTypes.IsProd | enoslib/infra/enos_g5k/utils.py:47-49 | None exactly when the lookup fails. True only for a descriptor with that id and type `prod`. |
| G5kTypes.RolesAsList | enoslib/infra/enos_g5k/utils.py:87-92 | `[role] + roles` when `role` is set, `roles` when it is absent, and an AttributeError (None) when `role` is the empty string. |
| G5kNodes.RemoveServers | enoslib/infra/enos_g5k/utils.py:137-138 | The servers removed and what is left together make the candidates. It stops at the first server missing from what is left. |
| G5kNodes.ClaimServers | enoslib/infra/enos_g5k/utils.py:134-140 | The servers pass succeeds exactly when all servers, with repeats, are among the given nodes. On success each servers descriptor holds its servers, and what is left plus what is handed out is the input. Nothing handed out is outside the input. |
| G5kNodes.ClaimFails | enoslib/infra/enos_g5k/utils.py:137-138 | A server missing from the remaining candidates means the servers are not all among the given nodes. |
| G5kNodes.ClusterPools | enoslib/infra/enos_g5k/utils.py:144-145 | The pools are the remaining nodes, sorted by name, grouped by cluster. Each remaining node is either handed out or pooled under its own cluster. |
| G5kNodes.ByMinimum | enoslib/infra/enos_g5k/utils.py:146-149 | The cluster descriptors in `min` order hold the same descriptors as declaration order. They are ascending in `min`, and descriptors of equal `min` keep declaration order, as Python's stable `sorted` does. |
| G5kNodes.SortTies | enoslib/infra/enos_g5k/utils.py:149 | Sorting increasing indexes by any key keeps the indexes of equal key in increasing order: the sort is stable. |
| G5kNodes.ReserveOne | enoslib/infra/enos_g5k/utils.py:151-156 | One descriptor picks `min` nodes of its cluster, and the pools lose exactly that pick. If the pick is short, fewer than `min` given nodes of its cluster were unassigned, and the pass stops there with the cluster's pool empty. Otherwise the entry holds the pick and the bookkeeping of handed-out nodes is kept. |
| G5kNodes.ReserveMinimums | enoslib/infra/enos_g5k/utils.py:150-156 | The entries, the pools and the failure are those of `MinPass`: one `pick_things` per descriptor in `min` order, stopping at the first short pick. On success every cluster descriptor holds exactly `min` nodes of its own cluster. On failure the descriptor left short has `min > 0`, fewer than `min` given nodes of its cluster were still unassigned, and its cluster's pool is now empty. The descriptors before it in `min` order hold their `min`; it and those after it are unset. Nothing is handed out twice. |
| G5kNodes.FillOne | enoslib/infra/enos_g5k/utils.py:160-165 | One descriptor picks `nodes - len(_c_nodes)` from its cluster's pool. The pools lose exactly that pick, and the pick is appended to its entry. The bookkeeping of handed-out nodes is kept. |
| G5kNodes.FillUp | enoslib/infra/enos_g5k/utils.py:160-165 | The entries and pools are those of `FillPass`: one top-up pick per descriptor in declaration order. Every cluster descriptor ends with at least `min` nodes, all of its cluster, and with at most `nodes` when `min <= nodes`. It falls short only when its cluster's pool is empty. |
| G5kNodes.FilledServed | enoslib/infra/enos_g5k/utils.py:158-165 | Once every cluster descriptor is filled, each is served, and one left short has every node of its cluster handed out. |
| G5kNodes.ConcretizeClusters | enoslib/infra/enos_g5k/utils.py:142-166 | The cluster passes end in one of two ways. Either NotEnoughNodes names the first cluster descriptor, in stable `min` order, whose `min` could not be met: it has `min > 0`, fewer than `min` given nodes of its cluster are unassigned, those before it hold their `min`, and it and those after it are unset. Or every cluster descriptor is served, with shortfalls only where every node of that cluster is already handed out. |
| G5kNodes.ConcretizeNodes | enoslib/infra/enos_g5k/utils.py:129-166 | No node is handed out twice, and each one handed out was given. A ValueError comes exactly when the explicit servers are not among the given nodes. Otherwise the only error is NotEnoughNodes, naming the first cluster descriptor in stable `min` order whose `min` could not be met: fewer than `min` given nodes of its cluster are unassigned. On success servers descriptors hold their servers and cluster descriptors are served; a descriptor short of `nodes` has every node of its cluster handed out. |
| G5kNetworks.FetchKey | enoslib/infra/enos_g5k/utils.py:183-186 | The bucket drawn from is on the request's site, and is `slash_22` exactly for a `slash_16` request. |
| G5kNetworks.FetchCount | enoslib/infra/enos_g5k/utils.py:183-186 | A request asks for 64 networks when it is a `slash_16`, and for 1 otherwise. |
| G5kNetworks.NetworkPools | enoslib/infra/enos_g5k/utils.py:175-176 | The concrete networks sorted by (site, nature, network), then pooled by (site, nature); each is accounted for. |
| G5kNetworks.TakeKeepsResolved | enoslib/infra/enos_g5k/utils.py:177-189 | Later picks do not undo a request already bound: an emptied bucket stays empty. |
| G5kNetworks.ResolveOne | enoslib/infra/enos_g5k/utils.py:178-189 | One request either raises MissingNetwork with its pool empty and the pools unchanged, or is bound to exactly what `pick_things` takes from its pool, and the pools lose exactly that. |
| G5kNetworks.ConcretizeNetworks | enoslib/infra/enos_g5k/utils.py:169-191 | No concrete network is bound twice, and each bound one was handed out. On success each request gets between 1 and its count of networks, all of its bucket, and fewer than asked only once that bucket is used up. On failure some request found its bucket missing or empty with every network of it bound earlier. |
| G5kCriteria.SetDefaultExtend | enoslib/infra/enos_g5k/utils.py:223 | `setdefault(site, []).extend(items)` appends the items to that site only, adds the site last when new, and keeps sites distinct. |
| G5kCriteria.LookupAbsent | enoslib/infra/enos_g5k/utils.py:223 | A site never added has no criteria. |
| G5kCriteria.DistinctLookup | enoslib/infra/enos_g5k/utils.py:223 | With distinct sites, a site's criteria are the ones stored with it. |
| G5kCriteria.FirstSites | enoslib/infra/enos_g5k/utils.py:198-251 | The sites in order of first use have no repeats. |
| G5kCriteria.FirstSitesMembers | enoslib/infra/enos_g5k/utils.py:198-251 | A site is listed exactly when some criterion goes to it. |
| G5kCriteria.SiteOfServer | enoslib/infra/enos_g5k/utils.py:195-196 | `server.split(".")[1]` fails (IndexError) exactly when the name has no dot. The site it gives has no dot. |
| G5kCriteria.MachineCriteria | enoslib/infra/enos_g5k/utils.py:211-234 | A servers group yields one criterion per server, all on one site. A cluster group yields one criterion, or none when `nodes` is 0. |
| G5kCriteria.MixedSitesRefused | enoslib/infra/enos_g5k/utils.py:214-218 | Servers on two different sites give ValueError. |
| G5kCriteria.ServersOneSite | enoslib/infra/enos_g5k/utils.py:219-223 | Servers on one site yield `{network_address='s'}/nodes=1` for each server, in listed order, under that site. |
| G5kCriteria.ClusterCriterion | enoslib/infra/enos_g5k/utils.py:226-233 | A group without servers: KeyError without a cluster, no criterion for 0 nodes, otherwise one criterion under the cluster's site whose `nodes=` count reads back as `nodes`. |
| G5kCriteria.AddMachineCriteria | enoslib/infra/enos_g5k/utils.py:203-234 | The machines loop fails exactly when some descriptor's criteria fail, with the first error. Otherwise it gathers every machine criterion per site in emission order. |
| G5kCriteria.AddVlanCriteria | enoslib/infra/enos_g5k/utils.py:237-242 | Each kavlan network appends `{type='t'}/vlan=1` under its site, after what was there. |
| G5kCriteria.AddSubnetCriteria | enoslib/infra/enos_g5k/utils.py:244-249 | Each subnet network appends `t=1` under its site, after what was there. |
| G5kCriteria.BuildCriteria | enoslib/infra/enos_g5k/utils.py:194-251 | Fails exactly as the machine criteria do. Otherwise, per site in order of first use, it gives the machine criteria, then the kavlan ones, then the subnet ones. |
| G5kCriteria.FailureSticks | enoslib/infra/enos_g5k/utils.py:203-234 | Once a descriptor raises, the whole pass raises that error. |
| G5kCriteria.GatheredNonEmpty | enoslib/infra/enos_g5k/utils.py:198-251 | No site in the gathered dictionary has an empty list of criteria. |
| G5kCriteria.ReservationOf | enoslib/infra/enos_g5k/utils.py:268-269 | `reservation` is set exactly when a non-empty date is given, and then to that date. |
| G5kCriteria.MakeJobSpecs | enoslib/infra/enos_g5k/utils.py:257-270 | One job specification per site, in dictionary order. Each has the job name, `[job_type]`, the site's criteria joined with `+` followed by `,walltime=w`, the sleep command, the queue and the reservation. |
| G5kCriteria.ResourcesRoundTrip | enoslib/infra/enos_g5k/utils.py:259-260 | Dropping the walltime suffix from `resources` and splitting on `+` gives back the site's criteria. |
| G5kNics.WithMounted | enoslib/infra/enos_g5k/utils.py:78-79 | An interface is kept exactly when it is in the cluster's list with the wanted `mounted` flag. |
| G5kNics.WithMountedConcat | enoslib/infra/enos_g5k/utils.py:78-79 | The filter keeps the list's order: filtering a concatenation concatenates the filtered parts. |
| G5kNics.NonProd | enoslib/infra/enos_g5k/utils.py:101-105 | The secondary networks that use an interface are exactly those whose type is not `prod`. |
| G5kNics.WiredPointwise | enoslib/infra/enos_g5k/utils.py:101-120 | The `t`-th non-`prod` secondary network goes through spare interface `t`. Its entry is (interface name, network roles), and its request puts the nodes in the network's first VLAN on that device. |
| G5kNics.WireFromShape | enoslib/infra/enos_g5k/utils.py:99-120 | A secondary pass without error uses one spare interface per non-`prod` network, in order. |
| G5kNics.ProdSkipped | enoslib/infra/enos_g5k/utils.py:103-105 | A `prod` secondary network uses no interface and adds neither an entry nor a request. |
| G5kNics.WireAll | enoslib/infra/enos_g5k/utils.py:99-120 | The loop with its `idx` counter computes the wiring of the secondary networks. |
| G5kNics.MountSecondaryNics | enoslib/infra/enos_g5k/utils.py:95-120 | `_c_nics` keeps its previous entries and is extended by the wiring of the secondary networks, with that wiring's requests and error. |
| G5kNics.MountOneShape | enoslib/infra/enos_g5k/utils.py:77-83 | A descriptor mounted without error has `_c_nics` starting with its first mounted interface and the roles of its primary network, followed by one spare interface per non-`prod` secondary network. |
| G5kNics.MountPrimary | enoslib/infra/enos_g5k/utils.py:77-83 | The loop body of `mount_nics` for one descriptor computes what `MountOne` specifies. |
| G5kNics.MountStep | enoslib/infra/enos_g5k/utils.py:77-83 | Each descriptor either extends the mounted prefix or is the one that raised. |
| G5kNics.MountNics | enoslib/infra/enos_g5k/utils.py:74-84 | Either every descriptor is mounted, with every VLAN request logged in order, or one descriptor raised after all earlier ones were mounted. |
| Netem.FindBracketSpec | enoslib/service/netem/__init__.py:41-42 | The match takes the largest name length that can be followed by `[digits-digits]`; no larger one can be. |
| Netem.ExpandPattern | enoslib/service/netem/__init__.py:41-47 | `name[a-b]` followed by text without `[` expands to the numbered names from `int(a)` to `int(b)`. Leading zeros vanish and the trailing text is ignored. |
| Netem.ExpandNumbered | enoslib/service/netem/__init__.py:44-47 | `name[s-e]` gives `e-s+1` names when `s <= e` and none otherwise. The `i`-th is `name + str(s+i)`. |
| Netem.ExpandPlain | enoslib/service/netem/__init__.py:48-49 | A group without `[` is not a pattern and expands to itself. |
| Netem.ProductLength | enoslib/service/netem/__init__.py:57-65 | Expanding gives one copy per (source, destination) pair. |
| Netem.ProductElem | enoslib/service/netem/__init__.py:60-65 | Sources are outermost. The `j`-th copy after the copies of the earlier sources goes from the `i`-th source to the `j`-th destination and keeps every other field. |
| Netem.ProductMember | enoslib/service/netem/__init__.py:60-65 | A description is among the copies exactly when its source and destination are expansions and its other fields are the original's. |
| Netem.CopyPerPair | enoslib/service/netem/__init__.py:59-65 | The nested loops build the product in order. |
| Netem.ExpandDescription | enoslib/service/netem/__init__.py:52-67 | `_expand_description` returns the expansion of the description. |
| Netem.SelfConstrainedGroups | enoslib/service/netem/__init__.py:70-78 | Some expanded user constraint goes from `g` to `g` exactly when some user constraint's source and destination both expand to `g`. There is none without a `constraints` key. |
| Netem.SrcEqualsDst | enoslib/service/netem/__init__.py:70-78 | The search with its early return is true exactly when some expanded user constraint goes from `g` to itself. |
| Netem.GroupsMember | enoslib/service/netem/__init__.py:94-98 | A group is in the list exactly when it is an expansion of one of `groups`, or of the role names when `groups` is absent. |
| Netem.DefaultRowMember | enoslib/service/netem/__init__.py:100-115 | One source's row holds exactly its pairs that pass the filter, with the default fields. |
| Netem.DefaultPairsMember | enoslib/service/netem/__init__.py:100-115 | The default pairs are exactly the filtered ordered pairs over the sources and groups. |
| Netem.DefaultMember | enoslib/service/netem/__init__.py:88-115 | A default constraint is exactly an ordered pair of groups, neither in `except`, not a group with itself unless a user constraint goes from it to itself. Its delay and rate are the defaults (None when absent) and its loss defaults to 0. |
| Netem.WithSymmetricConcat | enoslib/service/netem/__init__.py:127-133 | Symmetric copies are added description by description. |
| Netem.WithSymmetricSplit | enoslib/service/netem/__init__.py:127-133 | Every expanded description is kept in order, and a symmetric one is immediately followed by its swapped copy. |
| Netem.WithSymmetricMember | enoslib/service/netem/__init__.py:127-133 | Membership: an entry is a description or, for a symmetric one, its swapped copy. |
| Netem.ActualMember | enoslib/service/netem/__init__.py:118-134 | The actual constraints are the expanded user descriptions plus the swapped copies of the symmetric ones, and nothing else. There are none without a `constraints` key. |
| Netem.AppendCopies | enoslib/service/netem/__init__.py:127-133 | The inner loop appends each description, then its swapped copy when `symetric` is truthy. |
| Netem.GenerateActual | enoslib/service/netem/__init__.py:118-134 | The loops compute the actual constraints. |
| Netem.FirstSame | enoslib/service/netem/__init__.py:143-148 | The search finds an entry with the same source and destination at or after the start. |
| Netem.FirstSameSpec | enoslib/service/netem/__init__.py:143-148 | The search skips exactly the entries that do not match, and None means none matches. |
| Netem.MergeKeepsPairs | enoslib/service/netem/__init__.py:137-148 | Merging keeps the length and every entry's source and destination. |
| Netem.MergeOneFirst | enoslib/service/netem/__init__.py:143-147 | An entry that is the first of its pair is updated by an override exactly when they match. |
| Netem.MergeOneLater | enoslib/service/netem/__init__.py:143-147 | An entry whose pair occurs earlier is left alone by an override. |
| Netem.MergeUnmatched | enoslib/service/netem/__init__.py:141-148 | An entry no override matches is unchanged. An unmatched override is dropped, not appended. |
| Netem.MergeDuplicateUntouched | enoslib/service/netem/__init__.py:141-148 | A later duplicate of a pair never receives overrides. |
| Netem.MergeStillFirst | enoslib/service/netem/__init__.py:141-148 | Merging does not make an earlier entry take a first entry's pair. |
| Netem.MergeLastWins | enoslib/service/netem/__init__.py:141-148 | For the first entry of a pair, the last matching override that sets a field gives that field's value. |
| Netem.MergeKeepsUnset | enoslib/service/netem/__init__.py:141-148 | A field no matching override sets keeps its presence and its value. |
| Netem.MergeOverride | enoslib/service/netem/__init__.py:142-148 | The `while` loop with its `break` applies one override to the array in place. |
| Netem.MergeConstraints | enoslib/service/netem/__init__.py:137-148 | The array ends as the overrides applied in order to its old contents. |
| Netem.BuildGrpConstraints | enoslib/service/netem/__init__.py:151-162 | The defaults alone without a `constraints` key, else the defaults merged with the actual constraints. Either way it has the defaults' length and pairs, in their order. |
| Roles.GetRolesAsList | enoslib/utils.py:10-22 | Non-empty `roles` are returned as they are. Otherwise a non-empty `role` gives `[role]`, and otherwise the result is empty. It is non-empty exactly when one of the two is. |
| Roles.GenRscConcat | enoslib/utils.py:25-28 | Hosts are yielded role by role, in dictionary order. |
| Roles.GenRscCount | enoslib/utils.py:25-28 | Each host is yielded as often as the roles list it, duplicates included. |
| Roles.GenRscMember | enoslib/utils.py:25-28 | A host is yielded exactly when some role lists it. |
| Roles.FilterConcat | enoslib/utils.py:44-46 | Filtering by alias keeps the order of the hosts. |
| Roles.FilterMember | enoslib/utils.py:44-46 | A host survives exactly when it was there and its alias is kept. |
| Roles.KeptMember | enoslib/utils.py:41-47 | A role appears exactly when one of its hosts is kept, and then with the order-preserving filter of its hosts. |
| Roles.KeptKeys | enoslib/utils.py:41-47 | The result's roles are among the input's. |
| Roles.KeptOnlyKept | enoslib/utils.py:41-47 | Every host in the result has its alias in `hosts_to_keep`. |
| Roles.FindKey | enoslib/utils.py:46 | The `defaultdict` lookup finds the key's index, and finds none exactly when the key is absent. |
| Roles.RemoveHosts | enoslib/utils.py:41-47 | The loops appending kept hosts into a `defaultdict(list)` compute, role by role, the order-preserving filter of each role that keeps a host. |

## Left out

- The job lifecycle (`grid_get_or_create_job`, `grid_reload_from_ids`, `submit_jobs`, job synchronisation) is left out: it is calls to the testbed's REST API. The job specifications are modelled up to the point they are submitted.
- `dhcp_interfaces` and `grant_root_access` are left out: they run remote shell commands.
- The bodies of `get_cluster_site`, `get_cluster_interfaces` and `set_nodes_vlan` are not part of this model. They are parameters, or a log of requests.
- The Netem service itself (`_build_ip_constraints`, the deploy, validate and destroy methods, schema validation) is left out. It depends on host objects, Ansible and jsonschema.
- `offset_from_format` and `_date2h` are left out: they depend on `strptime`/`strftime` and the local time zone.
- `_check_tmpdir` (filesystem), `get_address` and `_hostslike_to_roles` are left out: they depend on host and role classes that are not part of this model.
- Logging is left out.
- Netem.ExpandGroups: `\d` is modelled as the ASCII digits. Python's `re` also accepts other Unicode decimal digits.
- G5kTypes.Machine: an absent `cluster` is the empty string, so a present empty `cluster` cannot be represented and is treated as absent. Where the source reads `desc["cluster"]` (enoslib/infra/enos_g5k/utils.py:78, :96 and :228) the model raises KeyError, while the source would look up the site or interfaces of cluster `""`. `role` is an `Option`: absent is `None`, distinct from a present `""`. An absent `servers`, `secondary_networks` or `except` is the empty list.
- G5kTypes: the values of `PROD`, `SLASH_16`, `SLASH_22`, `KAVLAN_TYPE` and `SUBNET_TYPES` are assumed. The source imports them from the provider's constants module, which is not part of this model.
- Roles.Host: a host is reduced to its alias and one field standing for its other attributes.
- Roles.RemoveHosts: the input is required to have distinct keys, as every Python dictionary does.
- Netem.Desc: `src` and `dst` are kept apart from the other fields. `Same` and `Update` act on them as the source's `src`/`dst` keys; values are null, booleans, integers and strings.
- Deep copies, aliasing between descriptor dictionaries and in-place mutation of the descriptors are not modelled. Results are returned as sequences parallel to the descriptors, so the model does not capture another reference to a descriptor seeing the change.
