/** What a configuration says, read off the fields of its objects. These
    notions are independent of the program: they search no list in order,
    compute no sets and share nothing with it but the objects. */
module Facts {
  import opened Prelude
  import opened Ipv4
  import opened Model

  type RuleSet = Object<RuleSetSpec>

  // ---- addresses ------------------------------------------------------------------------------

  /** The block of a number among blocks of one size. */
  predicate InNth(k: nat, size: nat, x: nat) { k * size <= x < (k + 1) * size }

  /** An address lies in the block of a prefix. */
  ghost predicate InBlock(p: Prefix, x: U32) {
    var size := Pow2(32 - p.bits);
    exists k: nat :: InNth(k, size, p.addr) && InNth(k, size, x)
  }

  /** The IPv4 addresses of a form. A range is cut off at neither end that is an
      IPv6 address. */
  ghost predicate FormHolds(form: AddressForm, x: U32) {
    match form
    case Subnet(p) => InBlock(p, x)
    case Range(s, e) => s.V4? && s.n <= x && (e.V4? ==> x <= e.n)
    case _ => false
  }

  /** The address that a form stands for where one is needed. */
  ghost predicate FormStarts(form: AddressForm, ip: Ip) {
    match form
    case Subnet(p) => ip == V4(p.addr)
    case Subnet6(n, x, _) => ip == V6(n, x)
    case Range(s, _) => ip == s
    case _ => false
  }

  // ---- references -----------------------------------------------------------------------------

  /** A group of the name has the member. */
  ghost predicate HasMember(groups: seq<Object<GroupSpec>>, group: Name, member: Name) {
    exists g :: g in groups && g.meta.name == group && member in g.spec.members
  }

  ghost predicate Membership(groups: seq<Object<GroupSpec>>, p: seq<Name>) {
    p != [] && forall i :: 0 <= i < |p| - 1 ==> HasMember(groups, p[i], p[i + 1])
  }

  ghost predicate LeadsTo(groups: seq<Object<GroupSpec>>, p: seq<Name>, from: Name, to: Name) {
    Membership(groups, p) && p[0] == from && p[|p| - 1] == to
  }

  /** A reference means an object: it names it, or a group that has it at some
      depth. */
  ghost predicate Means<S>(l: seq<Object<S>>, groups: seq<Object<GroupSpec>>, ref: Name, o: Object<S>) {
    o in l && exists p :: LeadsTo(groups, p, ref, o.meta.name)
  }

  ghost predicate HoldsUnder(t: Tree, ref: Name, x: U32) {
    exists o :: Means(t.addresses, t.addressGroups, ref, o) && FormHolds(o.spec.form, x)
  }

  ghost predicate RefsHold(t: Tree, refs: seq<Name>, x: U32) {
    refs == ["any"] || exists ref :: ref in refs && HoldsUnder(t, ref, x)
  }

  ghost predicate EntryServes(e: ProtocolEntry, proto: string, port: U32) {
    e.protocol == proto && (e.port.Some? ==> e.port.value.lo <= port && port <= e.port.value.hi)
  }

  ghost predicate ServesUnder(t: Tree, ref: Name, proto: string, port: U32) {
    exists o, e :: Means(t.services, t.serviceGroups, ref, o) && e in o.spec.protocols && EntryServes(e, proto, port)
  }

  ghost predicate RefsServe(t: Tree, refs: seq<Name>, proto: string, port: U32) {
    refs == ["any"] || exists ref :: ref in refs && ServesUnder(t, ref, proto, port)
  }

  ghost predicate StartsUnder(t: Tree, ref: Name, ip: Ip) {
    exists o :: Means(t.addresses, t.addressGroups, ref, o) && FormStarts(o.spec.form, ip)
  }

  // ---- Interfaces, Zones and sides ------------------------------------------------------------

  ghost predicate Named<S>(l: seq<Object<S>>, n: Name) { exists o :: o in l && o.meta.name == n }

  ghost predicate ZoneHas(t: Tree, z: Object<ZoneSpec>, n: Name) { z in t.zones && n in z.spec.interfaces }

  /** A side of a RuleSet is an Interface, or the members of a Zone. */
  ghost predicate OnSide(t: Tree, side: Name, n: Name) {
    (n == side && Named(t.interfaces, n)) || exists z :: ZoneHas(t, z, n) && z.meta.name == side
  }

  ghost predicate IsGovernor(t: Tree, rs: RuleSet, inIf: Name, outIf: Name) {
    rs in t.ruleSets && OnSide(t, rs.spec.from, inIf) && OnSide(t, rs.spec.to, outIf)
  }

  /** Traffic inside one Zone is allowed where the Zone says so. */
  ghost predicate ZoneAllows(t: Tree, a: Name, b: Name) {
    exists z :: ZoneHas(t, z, a) && ZoneHas(t, z, b) && z.spec.intraZoneTraffic == Allow
  }

  /** The address p of an Interface that is configured by hand. */
  ghost predicate HasAddress(o: Object<InterfaceSpec>, k: int, p: Prefix) {
    && o.spec.ipv4.Some? && o.spec.ipv4.value.mode == Mode4.Static
    && 0 <= k < |o.spec.ipv4.value.addresses| && o.spec.ipv4.value.addresses[k] == p
  }

  // ---- routes ---------------------------------------------------------------------------------

  /** A way to a destination: on a subnet of an Interface, or by a route. */
  datatype Way = OnLink(iface: Name, bits: Bits) | ByRoute(iface: Name, bits: Bits, distance: nat, priority: nat)

  ghost predicate IsWay(t: Tree, dst: U32, w: Way) {
    match w
    case OnLink(n, bits) =>
      exists o, k, p :: o in t.interfaces && o.spec.enabled != Some(false) && HasAddress(o, k, p) && InBlock(p, dst) &&
        o.meta.name == n && p.bits == bits
    case ByRoute(n, bits, d, p) =>
      exists o :: o in t.routes && InBlock(o.spec.destination, dst) && o.spec.iface == n &&
        o.spec.destination.bits == bits &&
        d == Distance(o) && p == Priority(o)
  }

  /** The longest prefix first; an Interface before a route; then the least
      distance, then the least priority. */
  predicate Beats(v: Way, w: Way) {
    || v.bits > w.bits
    || (v.bits == w.bits && v.OnLink? && w.ByRoute?)
    || (v.bits == w.bits && v.ByRoute? && w.ByRoute? &&
        (v.distance < w.distance || (v.distance == w.distance && v.priority < w.priority)))
  }

  ghost predicate Unbeaten(t: Tree, dst: U32, w: Way) { IsWay(t, dst, w) && forall v :: IsWay(t, dst, v) ==> !Beats(v, w) }

  /** Where a destination is sent, the empty name meaning nowhere. */
  ghost predicate LeavesBy(t: Tree, dst: Ip, n: Name) {
    if dst.V4? && exists w :: IsWay(t, dst.n, w) then exists w :: Unbeaten(t, dst.n, w) && w.iface == n
    else n == ""
  }

  function Distance(o: Object<StaticRouteSpec>): nat { if o.spec.distance == 0 then 10 else o.spec.distance }

  function Priority(o: Object<StaticRouteSpec>): nat { if o.spec.priority == 0 then 1 else o.spec.priority }

  /** Of the routes to one destination the one of the least distance is active,
      then of the least priority, then the first. */
  ghost predicate Active(l: seq<Object<StaticRouteSpec>>, i: nat)
    requires i < |l|
  {
    forall j :: 0 <= j < |l| && l[j].spec.destination == l[i].spec.destination ==> Leads(l, i, j)
  }

  ghost predicate Leads(l: seq<Object<StaticRouteSpec>>, i: nat, j: nat)
    requires i < |l| && j < |l|
  {
    || Distance(l[i]) < Distance(l[j])
    || (Distance(l[i]) == Distance(l[j]) && Priority(l[i]) < Priority(l[j]))
    || (Distance(l[i]) == Distance(l[j]) && Priority(l[i]) == Priority(l[j]) && i <= j)
  }

  // ---- rules ----------------------------------------------------------------------------------

  ghost predicate Takes(t: Tree, x: Rule, src: U32, dst: U32, proto: string, port: U32) {
    && x.enabled != Some(false)
    && RefsHold(t, x.source, src) && RefsHold(t, x.destination, dst) && RefsServe(t, x.service, proto, port)
  }

  predicate TranslatesDst(x: Rule) { x.translate.Some? && x.translate.value.kind == Dnat }

  predicate TranslatesSrc(x: Rule) { x.translate.Some? && x.translate.value.kind == Snat }
}
