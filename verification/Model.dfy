/** The configuration objects: one datatype per kind, a tree of named lists,
    and the lookups by name. */
module Model {
  import opened Prelude
  import opened Ipv4

  type Name = string

  const ANY: Name := "any"

  datatype Meta = Meta(name: Name, uuid: string, comment: string, color: Name,
                       category: string, labels: map<string, string>)

  datatype Object<+S> = Object(meta: Meta, spec: S)

  // ---- addresses --------------------------------------------------------------

  /** What the schema says of the texts that objects keep as they are written. */
  type Text6 = x: string | ':' in x && '-' !in x && '/' !in x witness "::"

  type Hardware = x: string | ':' in x && '-' !in x && '/' !in x witness "02:00:00:00:00:01"

  type Host = x: string | IsHost(x) witness "a.example"

  predicate IsHost(x: string) {
    '.' in x && ':' !in x && '/' !in x && !('0' <= x[|x| - 1] <= '9')
  }

  const PROTOCOLS := ["tcp", "udp", "sctp", "icmp", "icmpv6", "ip"]

  type Protocol = x: string | x in PROTOCOLS witness "tcp"

  /** An IPv6 address keeps its text besides its value, because one value has
      several spellings. */
  datatype Ip = V4(n: U32) | V6(num: nat, text: Text6)

  /** The order of addresses: the family decides first. */
  predicate Less(a: Ip, b: Ip) {
    match (a, b)
    case (V4(m), V4(n)) => m < n
    case (V4(_), V6(_, _)) => true
    case (V6(_, _), V4(_)) => false
    case (V6(m, _), V6(n, _)) => m < n
  }

  /** Exactly one of the forms an Address can take. */
  datatype AddressForm =
    | Subnet(prefix: Prefix)
    | Subnet6(num: nat, text: Text6, bits: nat)
    | Range(start: Ip, end: Ip)
    | Fqdn(host: Host)
    | Mac(hardware: Hardware)

  datatype AddressSpec = AddressSpec(iface: Name, form: AddressForm)

  datatype GroupSpec = GroupSpec(members: seq<Name>)

  // ---- services ---------------------------------------------------------------

  datatype PortRange = PortRange(lo: U32, hi: U32)

  datatype ProtocolEntry = ProtocolEntry(protocol: Protocol, port: Option<PortRange>, sourcePort: Option<PortRange>,
                                         icmpType: Option<nat>, icmpCode: Option<nat>, number: Option<nat>)

  datatype ServiceSpec = ServiceSpec(protocols: seq<ProtocolEntry>)

  // ---- network ----------------------------------------------------------------

  datatype Mode4 = Static | Dhcp | NoAddress

  datatype IPv4Config = IPv4Config(mode: Mode4, addresses: seq<Prefix>, gateway: Option<Ip>)

  datatype InterfaceSpec = InterfaceSpec(physical: bool, device: string, parent: Name, vlanId: nat,
                                         enabled: Option<bool>, mtu: nat, role: string, allowAccess: seq<string>,
                                         ipv4: Option<IPv4Config>, ipv6: Option<string>)

  datatype IntraZone = Unset | Allow | Deny

  datatype ZoneSpec = ZoneSpec(interfaces: seq<Name>, intraZoneTraffic: IntraZone)

  datatype StaticRouteSpec = StaticRouteSpec(destination: Prefix, gateway: Ip, iface: Name,
                                             distance: nat, priority: nat)

  datatype DhcpServerSpec = DhcpServerSpec(iface: Name, enabled: bool, rangeStart: U32, rangeEnd: U32,
                                           gateway: Option<U32>, other: string)

  // ---- RuleSets ---------------------------------------------------------------

  datatype Action = Accept | Drop

  datatype NatKind = Snat | Dnat

  datatype Nat = Nat(kind: NatKind, translateIpTo: Name, translateServiceTo: Name)

  datatype Rule = Rule(name: Name, uuid: string, comment: string, enabled: Option<bool>,
                       source: seq<Name>, destination: seq<Name>, service: seq<Name>,
                       action: Action, log: string, translate: Option<Nat>, schedule: string)

  datatype RuleSetSpec = RuleSetSpec(from: Name, to: Name, rules: seq<Rule>)

  // ---- the tree ---------------------------------------------------------------

  datatype SystemSpec = SystemSpec(httpsPort: nat, trustedHosts: Option<seq<Name>>,
                                   dns: Option<(string, seq<Name>)>, ntp: Option<(bool, string, seq<Name>)>,
                                   session: string, logging: string, feeds: seq<(string, bool)>, feedsOn: bool,
                                   other: string)

  datatype Tree = Tree(
    system: seq<Object<SystemSpec>>, colors: seq<Object<string>>,
    interfaces: seq<Object<InterfaceSpec>>, zones: seq<Object<ZoneSpec>>,
    routes: seq<Object<StaticRouteSpec>>, dhcp: seq<Object<DhcpServerSpec>>,
    addresses: seq<Object<AddressSpec>>, addressGroups: seq<Object<GroupSpec>>,
    services: seq<Object<ServiceSpec>>, serviceGroups: seq<Object<GroupSpec>>,
    ruleSets: seq<Object<RuleSetSpec>>, users: seq<Object<string>>)

  predicate IsEnabled(enabled: Option<bool>) { enabled.None? || enabled.value }

  predicate IsAny(refs: seq<Name>) { refs == [ANY] }

  predicate IsDnat(r: Rule) { r.translate.Some? && r.translate.value.kind == Dnat }

  function StaticAddresses(s: InterfaceSpec): seq<Prefix> {
    if s.ipv4.None? || s.ipv4.value.mode != Static then [] else s.ipv4.value.addresses
  }

  const DEFAULT_DISTANCE := 10
  const DEFAULT_PRIORITY := 1

  /** Distance and priority of a route, zero standing for the default. */
  function Preference(r: StaticRouteSpec): (p: (nat, nat))
    ensures 1 <= p.0 && 1 <= p.1
  {
    (if r.distance == 0 then DEFAULT_DISTANCE else r.distance,
     if r.priority == 0 then DEFAULT_PRIORITY else r.priority)
  }

  // ---- lookups ----------------------------------------------------------------

  function Names<S>(l: seq<Object<S>>): (r: seq<Name>)
    ensures |r| == |l| && forall i :: 0 <= i < |l| ==> r[i] == l[i].meta.name
  {
    if l == [] then [] else [l[0].meta.name] + Names(l[1..])
  }

  /** The first object of a list with a name. */
  function Find<S>(l: seq<Object<S>>, name: Name): Option<S> {
    if l == [] then None
    else if l[0].meta.name == name then Some(l[0].spec)
    else Find(l[1..], name)
  }

  /** All first objects by name. */
  function Index<S>(l: seq<Object<S>>): (r: map<Name, S>)
    ensures forall n :: Find(l, n) == if n in r then Some(r[n]) else None
  {
    if l == [] then map[] else Index(l[1..])[l[0].meta.name := l[0].spec]
  }

  /** No two objects of a list share a name and differ. */
  ghost predicate Consistent<S>(l: seq<Object<S>>) {
    forall o, p :: o in l && p in l && o.meta.name == p.meta.name ==> o == p
  }

  lemma {:induction false} FindSound<S>(l: seq<Object<S>>, n: Name)
    ensures Find(l, n).Some? ==> exists o :: o in l && o.meta.name == n && o.spec == Find(l, n).value
    ensures Find(l, n).None? ==> forall o :: o in l ==> o.meta.name != n
  {
    if l != [] && l[0].meta.name != n {
      FindSound(l[1..], n);
      assert forall o :: o in l <==> o == l[0] || o in l[1..];
    } else if l != [] {
      assert l[0] in l;
    }
  }

  /** A lookup does not depend on the order of the list. */
  lemma FindPermuted<S>(a: seq<Object<S>>, b: seq<Object<S>>, n: Name)
    requires Consistent(a) && Permuted(a, b)
    ensures Find(a, n) == Find(b, n)
  {
    PermutedMembers(a, b);
    FindSound(a, n);
    FindSound(b, n);
  }

  lemma IndexPermuted<S>(a: seq<Object<S>>, b: seq<Object<S>>)
    requires Consistent(a) && Permuted(a, b)
    ensures Index(a) == Index(b)
  {
    forall n ensures n in Index(a) <==> n in Index(b)
      ensures n in Index(a) ==> Index(a)[n] == Index(b)[n]
    {
      FindPermuted(a, b, n);
    }
  }

  /** Side expands one side of a RuleSet: a Zone to its members, an Interface
      to itself. */
  function Side(t: Tree, ref: Name): seq<Name> {
    match Find(t.zones, ref)
    case Some(z) => z.interfaces
    case None => if Find(t.interfaces, ref).Some? then [ref] else []
  }

  /** The first Zone that lists an Interface, or the empty name. */
  function ZoneOf(zones: seq<Object<ZoneSpec>>, iface: Name): Name {
    if zones == [] then ""
    else if iface in zones[0].spec.interfaces then zones[0].meta.name
    else ZoneOf(zones[1..], iface)
  }

  lemma {:induction false} ZoneOfSound(zones: seq<Object<ZoneSpec>>, iface: Name)
    ensures (exists z :: z in zones && iface in z.spec.interfaces) ==>
      exists z :: z in zones && iface in z.spec.interfaces && z.meta.name == ZoneOf(zones, iface)
    ensures !(exists z :: z in zones && iface in z.spec.interfaces) ==> ZoneOf(zones, iface) == ""
  {
    if zones != [] {
      if iface in zones[0].spec.interfaces {
        assert zones[0] in zones;
      } else {
        ZoneOfSound(zones[1..], iface);
        assert forall z :: z in zones <==> z == zones[0] || z in zones[1..];
      }
    }
  }
}
