/** The rules of the validator in terms of the configuration alone. */
module Lawful {
  import opened Prelude
  import opened Ipv4
  import opened Model
  import opened Facts
  import opened Counting

  // ---- names ----------------------------------------------------------------------------------

  ghost predicate NamesApart<S>(l: seq<Object<S>>) {
    forall i, j :: 0 <= i < j < |l| ==> l[i].meta.name != l[j].meta.name
  }

  ghost predicate ListsApart<A, B>(a: seq<Object<A>>, b: seq<Object<B>>) {
    forall o, p :: o in a && p in b ==> o.meta.name != p.meta.name
  }

  /** DM-01. Interfaces share their names with Zones, Addresses and Services
      with their groups. */
  ghost predicate LawfulNames(t: Tree) {
    && NamesApart(t.system) && NamesApart(t.colors) && NamesApart(t.users)
    && NamesApart(t.interfaces) && NamesApart(t.zones) && ListsApart(t.interfaces, t.zones)
    && NamesApart(t.routes) && NamesApart(t.dhcp) && NamesApart(t.ruleSets)
    && NamesApart(t.addresses) && NamesApart(t.addressGroups) && ListsApart(t.addresses, t.addressGroups)
    && NamesApart(t.services) && NamesApart(t.serviceGroups) && ListsApart(t.services, t.serviceGroups)
  }

  // ---- Interfaces and Zones -------------------------------------------------------------------

  ghost predicate AddressAt(l: seq<Object<InterfaceSpec>>, i: int, k: int, p: Prefix) {
    0 <= i < |l| && HasAddress(l[i], k, p)
  }

  ghost predicate BlocksMeet(p: Prefix, q: Prefix) { exists x: U32 :: InBlock(p, x) && InBlock(q, x) }

  /** DM-04. */
  ghost predicate LawfulSubnets(l: seq<Object<InterfaceSpec>>) {
    forall i, k, p, j, m, q :: AddressAt(l, i, k, p) && AddressAt(l, j, m, q) && (i, k) != (j, m) ==> !BlocksMeet(p, q)
  }

  predicate Multiple(n: nat, size: nat, x: nat) { x == n * size }

  /** The first address of its block. */
  ghost predicate StartsBlock(p: Prefix) {
    var size := Pow2(32 - p.bits);
    exists n: nat :: Multiple(n, size, p.addr)
  }

  /** R-020.4. */
  ghost predicate LawfulHosts(l: seq<Object<InterfaceSpec>>) {
    forall i, k, p :: AddressAt(l, i, k, p) ==> !StartsBlock(p) || p.bits >= 31
  }

  ghost predicate ListedAt(t: Tree, z: int, k: int, n: Name) {
    0 <= z < |t.zones| && 0 <= k < |t.zones[z].spec.interfaces| && t.zones[z].spec.interfaces[k] == n
  }

  /** DM-37. */
  ghost predicate LawfulZones(t: Tree) {
    && (forall z, k, n :: ListedAt(t, z, k, n) ==> Named(t.interfaces, n))
    && (forall z, k, y, m, n :: ListedAt(t, z, k, n) && ListedAt(t, y, m, n) ==> (z, k) == (y, m))
  }

  // ---- Addresses, Services and groups ---------------------------------------------------------

  /** DM-14. */
  predicate LawfulForm(form: AddressForm) {
    form.Range? ==>
      match (form.start, form.end)
      case (V4(a), V4(b)) => a <= b
      case (V6(a, _), V6(b, _)) => a <= b
      case _ => false
  }

  /** DM-17. */
  predicate LawfulRange(r: Option<PortRange>) { r.Some? ==> 1 <= r.value.lo <= r.value.hi <= 65535 }

  ghost predicate LawfulPorts(t: Tree) {
    forall o, e :: o in t.services && e in o.spec.protocols ==> LawfulRange(e.port) && LawfulRange(e.sourcePort)
  }

  /** No group contains itself, at any depth. */
  ghost predicate LawfulGroups(groups: seq<Object<GroupSpec>>) {
    forall p :: |p| >= 2 && Membership(groups, p) ==> p[0] != p[|p| - 1]
  }

  ghost predicate LawfulObjects(t: Tree) {
    && LawfulNames(t) && LawfulSubnets(t.interfaces) && LawfulHosts(t.interfaces) && LawfulZones(t)
    && (forall o :: o in t.addresses ==> LawfulForm(o.spec.form)) && LawfulPorts(t)
    && LawfulGroups(t.addressGroups) && LawfulGroups(t.serviceGroups)
  }

  // ---- RuleSets -------------------------------------------------------------------------------

  ghost predicate InNetwork(t: Tree, n: Name) { Named(t.interfaces, n) || Named(t.zones, n) }

  /** An Interface that belongs to a Zone. */
  ghost predicate IsMember(t: Tree, n: Name) { Named(t.interfaces, n) && exists z :: ZoneHas(t, z, n) }

  ghost predicate SameZone(t: Tree, a: Name, b: Name) { exists z :: ZoneHas(t, z, a) && ZoneHas(t, z, b) }

  /** DM-38: members of Zones are sides only against each other. */
  ghost predicate LawfulSide(t: Tree, s: RuleSetSpec) {
    || (!IsMember(t, s.from) && !IsMember(t, s.to))
    || (IsMember(t, s.from) && IsMember(t, s.to) && SameZone(t, s.from, s.to))
  }

  /** DM-02, DM-06, DM-07 and DM-38, and DM-01 for rules. */
  ghost predicate LawfulRuleSets(t: Tree) {
    && (forall rs :: rs in t.ruleSets ==> InNetwork(t, rs.spec.from) && InNetwork(t, rs.spec.to) &&
                                          rs.spec.from != rs.spec.to && LawfulSide(t, rs.spec))
    && (forall i, j :: 0 <= i < j < |t.ruleSets| ==>
          t.ruleSets[i].spec.from != t.ruleSets[j].spec.from || t.ruleSets[i].spec.to != t.ruleSets[j].spec.to)
    && (forall rs, j, k :: rs in t.ruleSets && 0 <= j < k < |rs.spec.rules| ==>
          rs.spec.rules[j].name != rs.spec.rules[k].name)
  }

  // ---- translations ---------------------------------------------------------------------------

  /** An enabled rule that translates the destination to a target. */
  predicate HasTarget(x: Rule) { x.enabled != Some(false) && TranslatesDst(x) && x.translate.value.translateIpTo != "" }

  ghost predicate RuleAt(rs: RuleSet, m: int, x: Rule) {
    0 <= m < |rs.spec.rules| && rs.spec.rules[m] == x && HasTarget(x)
  }

  ghost predicate TargetAt(l: seq<RuleSet>, i: int, m: int, x: Rule) { 0 <= i < |l| && RuleAt(l[i], m, x) }

  ghost predicate SharesAddress(t: Tree, x: Rule, y: Rule) {
    exists a: U32 :: RefsHold(t, x.destination, a) && RefsHold(t, y.destination, a)
  }

  ghost predicate Serves(t: Tree, x: Rule, q: string, p: U32) { p <= 65535 && RefsServe(t, x.service, q, p) }

  ghost predicate ServesNothing(t: Tree, x: Rule) { forall q: string, p: U32 :: !Serves(t, x, q, p) }

  /** A service that is "any" is taken to meet even one that has no port. */
  ghost predicate SharesService(t: Tree, x: Rule, y: Rule) {
    || (exists q: string, p: U32 :: Serves(t, x, q, p) && Serves(t, y, q, p))
    || (x.service == ["any"] && ServesNothing(t, y)) || (y.service == ["any"] && ServesNothing(t, x))
  }

  ghost predicate SharesSide(t: Tree, a: Name, b: Name) { exists n :: OnSide(t, a, n) && OnSide(t, b, n) }

  /** Two translations of one flow are possible. */
  ghost predicate Collide(t: Tree, rs: RuleSet, x: Rule, rs': RuleSet, y: Rule) {
    SharesSide(t, rs.spec.from, rs'.spec.from) && SharesAddress(t, x, y) && SharesService(t, x, y)
  }

  /** DM-41. */
  ghost predicate LawfulTranslations(t: Tree, l: seq<RuleSet>) {
    forall i, m, x, j, n, y :: TargetAt(l, i, m, x) && TargetAt(l, j, n, y) && (i, m) != (j, n) ==>
      !Collide(t, l[i], x, l[j], y)
  }

  // ---- shadowed translations ------------------------------------------------------------------

  /** All addresses of a list are in another. Only "any" takes in "any". */
  ghost predicate TakesInAddresses(t: Tree, a: seq<Name>, b: seq<Name>) {
    (b == ["any"] ==> a == ["any"]) && forall x: U32 :: RefsHold(t, b, x) ==> RefsHold(t, a, x)
  }

  ghost predicate TakesInServices(t: Tree, a: Rule, b: Rule) {
    (b.service == ["any"] ==> a.service == ["any"]) && forall q: string, p: U32 :: Serves(t, b, q, p) ==> Serves(t, a, q, p)
  }

  ghost predicate TakesIn(t: Tree, a: Rule, b: Rule) {
    TakesInAddresses(t, a.source, b.source) && TakesInAddresses(t, a.destination, b.destination) && TakesInServices(t, a, b)
  }

  /** One enabled rule before it takes all its flows. */
  ghost predicate HasShadow(t: Tree, rules: seq<Rule>, i: nat)
    requires i < |rules|
  {
    exists j :: 0 <= j < i && rules[j].enabled != Some(false) && TakesIn(t, rules[j], rules[i])
  }

  // ---- the limit ------------------------------------------------------------------------------

  ghost function Held(t: Tree, refs: seq<Name>): set<int> { set a | 0 <= a < TWO_32 && RefsHold(t, refs, a) }

  /** The addresses a rule translates, one standing for "any" and for none. */
  ghost function AddressSpotsOf(t: Tree, x: Rule): set<int> {
    if x.destination == ["any"] || Held(t, x.destination) == {} then {0} else Held(t, x.destination)
  }

  ghost function PortsServed(t: Tree, x: Rule, q: string): set<(string, int)> {
    set p | 0 <= p <= 65535 && Serves(t, x, q, p) :: (q, p)
  }

  /** The ports it translates. */
  ghost function PortSpotsOf(t: Tree, x: Rule): set<(string, int)> {
    var all := PortsServed(t, x, "tcp") + PortsServed(t, x, "udp") + PortsServed(t, x, "sctp");
    if x.service == ["any"] then set p: int | 1 <= p <= 65535 :: ("any", p) else if all == {} then {("", 0)} else all
  }

  ghost function Weight(t: Tree, x: Rule): nat { |Pairs(AddressSpotsOf(t, x), PortSpotsOf(t, x))| }

  ghost function RulesWeight(t: Tree, l: seq<Rule>): nat {
    if l == [] then 0 else (if HasTarget(l[0]) then Weight(t, l[0]) else 0) + RulesWeight(t, l[1..])
  }

  ghost function TotalWeight(t: Tree, l: seq<RuleSet>): nat {
    if l == [] then 0 else RulesWeight(t, l[0].spec.rules) + TotalWeight(t, l[1..])
  }

  // ---- routes and servers ---------------------------------------------------------------------

  /** The same network at the same distance and priority. */
  ghost predicate Tied(a: StaticRouteSpec, b: StaticRouteSpec) {
    && a.destination.bits == b.destination.bits && InBlock(a.destination, b.destination.addr)
    && (if a.distance == 0 then 10 else a.distance) == (if b.distance == 0 then 10 else b.distance)
    && (if a.priority == 0 then 1 else a.priority) == (if b.priority == 0 then 1 else b.priority)
  }

  /** DM-23. */
  ghost predicate LawfulRoutes(l: seq<Object<StaticRouteSpec>>) {
    forall i, j :: 0 <= i < j < |l| ==> !Tied(l[i].spec, l[j].spec)
  }

  ghost predicate Owns(t: Tree, n: Name, p: Prefix) {
    exists o, k :: o in t.interfaces && o.meta.name == n && HasAddress(o, k, p)
  }

  predicate Within(s: DhcpServerSpec, x: U32) { s.rangeStart <= x <= s.rangeEnd }

  /** DM-25 to DM-27: the range lies in one subnet of the Interface, without the
      address of the Interface and without the gateway, which is in the subnet. */
  ghost predicate LawfulServer(t: Tree, s: DhcpServerSpec) {
    && s.rangeStart <= s.rangeEnd
    && exists p :: Owns(t, s.iface, p) && InBlock(p, s.rangeStart) && InBlock(p, s.rangeEnd) && !Within(s, p.addr) &&
         (s.gateway.Some? ==> InBlock(p, s.gateway.value) && !Within(s, s.gateway.value))
  }

  /** R-017.3 too: an Interface is served once. */
  ghost predicate LawfulServers(t: Tree) {
    && (forall d :: d in t.dhcp ==> Named(t.interfaces, d.spec.iface) && LawfulServer(t, d.spec))
    && (forall i, j :: 0 <= i < j < |t.dhcp| ==> t.dhcp[i].spec.iface != t.dhcp[j].spec.iface)
  }

  // ---- all ------------------------------------------------------------------------------------

  ghost predicate Lawful(t: Tree) {
    && LawfulObjects(t) && LawfulRuleSets(t) && LawfulTranslations(t, t.ruleSets) && TotalWeight(t, t.ruleSets) <= 16384
    && LawfulRoutes(t.routes) && LawfulServers(t)
  }
}
