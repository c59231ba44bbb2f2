/**
 * Descriptors of a Grid'5000 resources request (enoslib/infra/enos_g5k/utils.py):
 * machine and network descriptors, the concrete networks handed out by the
 * testbed, the errors the concretizers raise, and the lookups they share.
 */
module G5kTypes {
  import opened Common

  // Network types of the provider's constants module (values assumed: that module is not part of this model).
  const PROD: string := "prod"
  const SLASH_16: string := "slash_16"
  const SLASH_22: string := "slash_22"
  const KAVLAN_TYPE: seq<string> := ["kavlan", "kavlan-local", "kavlan-global"]
  const SUBNET_TYPES: seq<string> := [SLASH_22, SLASH_16]

  /**
   * A machine descriptor: either explicit `servers`, or a `cluster` with a
   * number of `nodes` and an optional `min`. An absent `cluster` is "" (so
   * a present empty `cluster` reads as absent) and absent `servers` are [].
   */
  datatype Machine = Machine(
    roles: seq<string>,
    cluster: string,
    nodes: nat,
    min: Option<nat>,
    servers: seq<string>,
    primaryNetwork: string,
    secondaryNetworks: seq<string>)

  /** A network descriptor; `role`/`roles` name the roles bound to it. */
  datatype NetworkDesc = NetworkDesc(
    id: string,
    netType: string,
    site: string,
    roles: seq<string>,
    role: Option<string>)

  /** A concrete network handed out by the testbed (a VLAN or a subnet block). */
  datatype ConcreteNetwork = ConcreteNetwork(
    site: string,
    nature: string,
    network: string,
    vlanId: Option<nat>)

  /** What the concretizers raise. */
  datatype G5kError =
    | NotEnoughNodes(machine: Machine)
    | MissingNetwork(site: string, netType: string)
    | ValueError(message: string)
    | IndexError
    | KeyError(key: string)
    | AttributeError(name: string)

  /** The cluster of a node: its host name up to the first `-` (`n.split("-")[0]`). */
  function ClusterOf(host: string): (c: string)
    ensures '-' !in c
    ensures |c| <= |host| && c == host[..|c|]
    ensures c == host || host[|c|] == '-'
  {
    if '-' in host then host[..FirstIndex(host, '-')] else host
  }

  /** `lookup_networks`: the first descriptor with this id, None where the source indexes an empty list. */
  function LookupNetwork(id: string, networks: seq<NetworkDesc>): (r: Option<nat>)
    ensures r.Some? ==> r.value < |networks| && networks[r.value].id == id
    ensures r.Some? ==> forall j :: 0 <= j < r.value ==> networks[j].id != id
    ensures r.None? <==> forall j :: 0 <= j < |networks| ==> networks[j].id != id
  {
    if networks == [] then None
    else if networks[0].id == id then Some(0)
    else
      match LookupNetwork(id, networks[1..])
      case None => None
      case Some(j) => Some(j + 1)
  }

  /** `is_prod`: whether the network of this id has type `prod`; None when the lookup fails. */
  function IsProd(id: string, networks: seq<NetworkDesc>): (r: Option<bool>)
    ensures r.None? <==> forall j :: 0 <= j < |networks| ==> networks[j].id != id
    ensures r == Some(true) ==> exists j :: 0 <= j < |networks| && networks[j].id == id && networks[j].netType == PROD
  {
    match LookupNetwork(id, networks)
    case None => None
    case Some(j) => Some(networks[j].netType == PROD)
  }

  /**
   * The provider's own `get_roles_as_list`: `[role]` first when `role` is
   * set, then `roles`. An empty `role` string is falsy, so the source keeps
   * the string itself and then calls `.extend` on it: AttributeError (None here).
   */
  function RolesAsList(net: NetworkDesc): (r: Option<seq<string>>)
    ensures r.None? <==> net.role == Some("")
    ensures r.Some? ==> |r.value| >= |net.roles| && r.value[|r.value| - |net.roles|..] == net.roles
    ensures r.Some? && net.role.Some? ==> |r.value| == |net.roles| + 1 && r.value[0] == net.role.value
    ensures r.Some? && net.role.None? ==> r.value == net.roles
  {
    match net.role
    case None => Some(net.roles)
    case Some(role) => if role == "" then None else Some([role] + net.roles)
  }
}
