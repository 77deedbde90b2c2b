/** What the validator requires of a configuration, one predicate for each rule
    it reports on. */
module Clean {
  import opened Prelude
  import opened Ipv4
  import opened Intervals
  import opened Model
  import opened Expand
  import opened Matching
  import opened Routing

  // ---- names ----------------------------------------------------------------------

  datatype Kind = SystemKind | ColorKind | InterfaceKind | ZoneKind | RouteKind | DhcpKind | AddressKind
                | AddressGroupKind | ServiceKind | ServiceGroupKind | RuleSetKind | UserKind

  datatype Namespace = SystemNS | ColorNS | NetworkNS | RouteNS | DhcpNS | AddressNS | ServiceNS | RuleSetNS | UserNS

  function NamespaceOf(k: Kind): Namespace {
    match k
    case SystemKind => SystemNS
    case ColorKind => ColorNS
    case InterfaceKind | ZoneKind => NetworkNS
    case RouteKind => RouteNS
    case DhcpKind => DhcpNS
    case AddressKind | AddressGroupKind => AddressNS
    case ServiceKind | ServiceGroupKind => ServiceNS
    case RuleSetKind => RuleSetNS
    case UserKind => UserNS
  }

  datatype Doc = Doc(kind: Kind, name: Name)

  function DocsOf<S>(k: Kind, l: seq<Object<S>>): (r: seq<Doc>)
    ensures |r| == |l| && forall i :: 0 <= i < |l| ==> r[i] == Doc(k, l[i].meta.name)
  {
    if l == [] then [] else [Doc(k, l[0].meta.name)] + DocsOf(k, l[1..])
  }

  /** Every object, in the order of the kinds. */
  function Docs(t: Tree): seq<Doc> {
    DocsOf(SystemKind, t.system) + (DocsOf(ColorKind, t.colors) + NetworkDocs(t))
  }

  function NetworkDocs(t: Tree): seq<Doc> { DocsOf(InterfaceKind, t.interfaces) + ZoneDocs(t) }

  function ZoneDocs(t: Tree): seq<Doc> {
    DocsOf(ZoneKind, t.zones) + (DocsOf(RouteKind, t.routes) + ObjectDocs(t))
  }

  function ObjectDocs(t: Tree): seq<Doc> {
    DocsOf(DhcpKind, t.dhcp) +
    (DocsOf(AddressKind, t.addresses) + (DocsOf(AddressGroupKind, t.addressGroups) +
    (DocsOf(ServiceKind, t.services) + (DocsOf(ServiceGroupKind, t.serviceGroups) +
    (DocsOf(RuleSetKind, t.ruleSets) + DocsOf(UserKind, t.users))))))
  }

  /** Two objects share a namespace and a name. */
  predicate SameKey(a: Doc, b: Doc) { NamespaceOf(a.kind) == NamespaceOf(b.kind) && a.name == b.name }

  ghost predicate KeysDistinct(l: seq<Doc>) {
    forall i, j :: 0 <= i < j < |l| ==> !SameKey(l[i], l[j])
  }

  /** DM-01: names are unique inside each shared namespace. */
  ghost predicate UniqueNames(t: Tree) { KeysDistinct(Docs(t)) }

  lemma KeysDistinctParts(a: seq<Doc>, b: seq<Doc>)
    requires KeysDistinct(a + b)
    ensures KeysDistinct(a) && KeysDistinct(b)
    ensures forall x, y :: x in a && y in b ==> !SameKey(x, y)
  {
    var c := a + b;
    assert forall i :: 0 <= i < |a| ==> c[i] == a[i];
    assert forall i :: 0 <= i < |b| ==> c[|a| + i] == b[i];
    forall i, j | 0 <= i < |a| && 0 <= j < |b| ensures !SameKey(a[i], b[j]) {
      assert !SameKey(c[i], c[|a| + j]);
    }
    forall i, j | 0 <= i < j < |b| ensures !SameKey(b[i], b[j]) {
      assert !SameKey(c[|a| + i], c[|a| + j]);
    }
  }

  lemma JoinDistinct(a: seq<Doc>, b: seq<Doc>)
    requires KeysDistinct(a) && KeysDistinct(b) && forall x, y :: x in a && y in b ==> !SameKey(x, y)
    ensures KeysDistinct(a + b)
  {
    var m := a + b;
    forall i, j | 0 <= i < j < |m| ensures !SameKey(m[i], m[j]) {
      assert j >= |a| ==> m[j] == b[j - |a|] && m[j] in b;
      assert i < |a| ==> m[i] == a[i] && m[i] in a;
      assert i >= |a| ==> m[i] == b[i - |a|];
    }
  }

  lemma DistinctIsConsistent<S>(k: Kind, l: seq<Object<S>>)
    requires KeysDistinct(DocsOf(k, l))
    ensures Consistent(l)
  {
  }

  lemma UniqueNetwork(t: Tree)
    requires UniqueNames(t)
    ensures Consistent(t.interfaces) && Consistent(t.zones)
    ensures forall o, z :: o in t.interfaces && z in t.zones ==> o.meta.name != z.meta.name
  {
    KeysDistinctParts(DocsOf(SystemKind, t.system), DocsOf(ColorKind, t.colors) + NetworkDocs(t));
    KeysDistinctParts(DocsOf(ColorKind, t.colors), NetworkDocs(t));
    KeysDistinctParts(DocsOf(InterfaceKind, t.interfaces), ZoneDocs(t));
    KeysDistinctParts(DocsOf(ZoneKind, t.zones), DocsOf(RouteKind, t.routes) + ObjectDocs(t));
    DistinctIsConsistent(InterfaceKind, t.interfaces);
    DistinctIsConsistent(ZoneKind, t.zones);
    NetworkApart(t);
  }

  lemma NetworkApart(t: Tree)
    requires KeysDistinct(NetworkDocs(t))
    ensures forall o, z :: o in t.interfaces && z in t.zones ==> o.meta.name != z.meta.name
  {
    KeysDistinctParts(DocsOf(InterfaceKind, t.interfaces), ZoneDocs(t));
    forall i, j | 0 <= i < |t.interfaces| && 0 <= j < |t.zones|
      ensures t.interfaces[i].meta.name != t.zones[j].meta.name
    {
      DocIn(InterfaceKind, t.interfaces, i);
      ZoneDocIn(t, j);
      assert !SameKey(Doc(InterfaceKind, t.interfaces[i].meta.name), Doc(ZoneKind, t.zones[j].meta.name));
    }
  }

  lemma ZoneDocIn(t: Tree, j: nat)
    requires j < |t.zones|
    ensures Doc(ZoneKind, t.zones[j].meta.name) in ZoneDocs(t)
  {
    DocIn(ZoneKind, t.zones, j);
  }

  lemma UniqueObjects(t: Tree)
    requires UniqueNames(t)
    ensures Consistent(t.dhcp) && Consistent(t.addresses) && Consistent(t.addressGroups)
    ensures Consistent(t.services) && Consistent(t.serviceGroups) && Consistent(t.ruleSets)
  {
    var d12 := DocsOf(RuleSetKind, t.ruleSets) + DocsOf(UserKind, t.users);
    var d10 := DocsOf(ServiceGroupKind, t.serviceGroups) + d12;
    var d9 := DocsOf(ServiceKind, t.services) + d10;
    var d8 := DocsOf(AddressGroupKind, t.addressGroups) + d9;
    KeysDistinctParts(DocsOf(SystemKind, t.system), DocsOf(ColorKind, t.colors) + NetworkDocs(t));
    KeysDistinctParts(DocsOf(ColorKind, t.colors), NetworkDocs(t));
    KeysDistinctParts(DocsOf(InterfaceKind, t.interfaces), ZoneDocs(t));
    KeysDistinctParts(DocsOf(ZoneKind, t.zones), DocsOf(RouteKind, t.routes) + ObjectDocs(t));
    KeysDistinctParts(DocsOf(RouteKind, t.routes), ObjectDocs(t));
    KeysDistinctParts(DocsOf(DhcpKind, t.dhcp), DocsOf(AddressKind, t.addresses) + d8);
    KeysDistinctParts(DocsOf(AddressKind, t.addresses), d8);
    KeysDistinctParts(DocsOf(AddressGroupKind, t.addressGroups), d9);
    KeysDistinctParts(DocsOf(ServiceKind, t.services), d10);
    KeysDistinctParts(DocsOf(ServiceGroupKind, t.serviceGroups), d12);
    KeysDistinctParts(DocsOf(RuleSetKind, t.ruleSets), DocsOf(UserKind, t.users));
    DistinctIsConsistent(DhcpKind, t.dhcp);
    DistinctIsConsistent(AddressKind, t.addresses);
    DistinctIsConsistent(AddressGroupKind, t.addressGroups);
    DistinctIsConsistent(ServiceKind, t.services);
    DistinctIsConsistent(ServiceGroupKind, t.serviceGroups);
    DistinctIsConsistent(RuleSetKind, t.ruleSets);
  }

  lemma ObjectDocsDistinct(t: Tree)
    requires UniqueNames(t)
    ensures KeysDistinct(ObjectDocs(t))
  {
    KeysDistinctParts(DocsOf(SystemKind, t.system), DocsOf(ColorKind, t.colors) + NetworkDocs(t));
    KeysDistinctParts(DocsOf(ColorKind, t.colors), NetworkDocs(t));
    KeysDistinctParts(DocsOf(InterfaceKind, t.interfaces), ZoneDocs(t));
    KeysDistinctParts(DocsOf(ZoneKind, t.zones), DocsOf(RouteKind, t.routes) + ObjectDocs(t));
    KeysDistinctParts(DocsOf(RouteKind, t.routes), ObjectDocs(t));
  }

  /** Groups share no name with the objects they group. */
  lemma ObjectsApart(t: Tree)
    requires UniqueNames(t)
    ensures forall o, g :: o in t.addresses && g in t.addressGroups ==> o.meta.name != g.meta.name
    ensures forall o, g :: o in t.services && g in t.serviceGroups ==> o.meta.name != g.meta.name
  {
    var d12 := DocsOf(RuleSetKind, t.ruleSets) + DocsOf(UserKind, t.users);
    var d10 := DocsOf(ServiceGroupKind, t.serviceGroups) + d12;
    var d9 := DocsOf(ServiceKind, t.services) + d10;
    var d8 := DocsOf(AddressGroupKind, t.addressGroups) + d9;
    ObjectDocsDistinct(t);
    KeysDistinctParts(DocsOf(DhcpKind, t.dhcp), DocsOf(AddressKind, t.addresses) + d8);
    NeighboursApart(AddressKind, t.addresses, AddressGroupKind, t.addressGroups, d9);
    KeysDistinctParts(DocsOf(AddressKind, t.addresses), d8);
    KeysDistinctParts(DocsOf(AddressGroupKind, t.addressGroups), d9);
    NeighboursApart(ServiceKind, t.services, ServiceGroupKind, t.serviceGroups, d12);
  }

  /** Two neighbouring lists of one namespace. */
  lemma NeighboursApart<A, B>(k: Kind, a: seq<Object<A>>, j: Kind, b: seq<Object<B>>, rest: seq<Doc>)
    requires KeysDistinct(DocsOf(k, a) + (DocsOf(j, b) + rest)) && NamespaceOf(k) == NamespaceOf(j)
    ensures forall o, g :: o in a && g in b ==> o.meta.name != g.meta.name
  {
    KeysDistinctParts(DocsOf(k, a), DocsOf(j, b) + rest);
    forall m, n | 0 <= m < |a| && 0 <= n < |b| ensures a[m].meta.name != b[n].meta.name {
      DocIn(k, a, m);
      DocIn(j, b, n);
      assert Doc(j, b[n].meta.name) in DocsOf(j, b) + rest;
      assert !SameKey(Doc(k, a[m].meta.name), Doc(j, b[n].meta.name));
    }
  }

  lemma DocIn<S>(k: Kind, l: seq<Object<S>>, i: nat)
    requires i < |l|
    ensures Doc(k, l[i].meta.name) in DocsOf(k, l)
  {
  }

  /** Every name is non-empty, as the schema demands. */
  ghost predicate NamesNotEmpty(t: Tree) {
    && "" !in Names(t.interfaces) + Names(t.zones)
    && "" !in Names(t.addresses) + Names(t.addressGroups)
  }

  predicate IsInterface(t: Tree, n: Name) { Find(t.interfaces, n).Some? }

  predicate InNetwork(t: Tree, n: Name) { IsInterface(t, n) || Find(t.zones, n).Some? }

  /** R-020.4: the address of a network is none of an Interface, unless the
      network is too small to tell. */
  predicate SuitsInterface(p: Prefix) { Masked(p) != p || p.bits >= 31 }

  ghost predicate HostsOnly(l: seq<(Name, Prefix)>) { forall i :: 0 <= i < |l| ==> SuitsInterface(l[i].1) }

  ghost predicate HostAddresses(l: seq<Object<InterfaceSpec>>) { HostsOnly(Owned(l)) }

  // ---- zones ----------------------------------------------------------------------

  predicate MemberAt(t: Tree, z: int, k: int) {
    0 <= z < |t.zones| && 0 <= k < |t.zones[z].spec.interfaces|
  }

  /** Zones list Interfaces only. */
  ghost predicate ZonesListInterfaces(t: Tree) {
    forall z, k :: MemberAt(t, z, k) ==> IsInterface(t, t.zones[z].spec.interfaces[k])
  }

  /** DM-37: no Interface is listed twice among all Zones. */
  ghost predicate ZonesDisjoint(t: Tree) {
    forall z, k, z', k' :: MemberAt(t, z, k) && MemberAt(t, z', k') && (z, k) != (z', k') ==>
      t.zones[z].spec.interfaces[k] != t.zones[z'].spec.interfaces[k']
  }

  // ---- RuleSets ---------------------------------------------------------------------

  /** The Zone of a side that is given as an Interface, else the empty name. */
  function ZoneOfSide(t: Tree, side: Name): Name {
    if IsInterface(t, side) then ZoneOf(t.zones, side) else ""
  }

  /** DM-38: a member of a Zone is named directly only against another member
      of the same Zone. */
  predicate SidesRespectZones(t: Tree, s: RuleSetSpec) {
    var (zf, zt) := (ZoneOfSide(t, s.from), ZoneOfSide(t, s.to));
    (zf != "" && zf == zt) || (zf == "" && zt == "")
  }

  /** DM-06. */
  ghost predicate SidesDiffer(t: Tree) {
    forall i :: 0 <= i < |t.ruleSets| ==> t.ruleSets[i].spec.from != t.ruleSets[i].spec.to
  }

  /** DM-07. */
  ghost predicate PairsDistinct(t: Tree) {
    forall i, j :: 0 <= i < j < |t.ruleSets| ==>
      (t.ruleSets[i].spec.from, t.ruleSets[i].spec.to) != (t.ruleSets[j].spec.from, t.ruleSets[j].spec.to)
  }

  /** DM-02 for the sides. */
  ghost predicate SidesExist(t: Tree) {
    forall i :: 0 <= i < |t.ruleSets| ==>
      InNetwork(t, t.ruleSets[i].spec.from) && InNetwork(t, t.ruleSets[i].spec.to)
  }

  ghost predicate ZonesRespected(t: Tree) {
    forall i :: 0 <= i < |t.ruleSets| ==> SidesRespectZones(t, t.ruleSets[i].spec)
  }

  /** DM-01 inside a RuleSet. */
  ghost predicate RuleNamesUnique(t: Tree) {
    forall i, j, k :: 0 <= i < |t.ruleSets| && 0 <= j < k < |t.ruleSets[i].spec.rules| ==>
      t.ruleSets[i].spec.rules[j].name != t.ruleSets[i].spec.rules[k].name
  }

  // ---- translation rules ----------------------------------------------------------------

  /** What the validator keeps of a translation rule. */
  datatype DnatRule = DnatRule(rs: Object<RuleSetSpec>, index: nat, incoming: seq<Name>, dst: AddrSet, svc: SvcSet)

  predicate TakesPart(r: Rule) {
    IsDnat(r) && IsEnabled(r.enabled) && r.translate.value.translateIpTo != ""
  }

  function DnatOf(t: Tree, rs: Object<RuleSetSpec>, k: nat): DnatRule
    requires k < |rs.spec.rules|
  {
    var r := rs.spec.rules[k];
    DnatRule(rs, k, Side(t, rs.spec.from), AddrSetOf(AddressGraph(t), r.destination), SvcSetOf(ServiceGraph(t), r.service))
  }

  function DnatsOfRules(t: Tree, rs: Object<RuleSetSpec>, k: nat): seq<DnatRule>
    requires k <= |rs.spec.rules|
    decreases |rs.spec.rules| - k
  {
    if k == |rs.spec.rules| then []
    else (if TakesPart(rs.spec.rules[k]) then [DnatOf(t, rs, k)] else []) + DnatsOfRules(t, rs, k + 1)
  }

  /** The enabled translation rules of all RuleSets. */
  function DnatsOf(t: Tree, l: seq<Object<RuleSetSpec>>): seq<DnatRule> {
    if l == [] then [] else DnatsOfRules(t, l[0], 0) + DnatsOf(t, l[1..])
  }

  /** The first Interface of a list that another list shares, or the empty name. */
  function SharedName(a: seq<Name>, b: seq<Name>): Name {
    if a == [] then "" else if a[0] in b then a[0] else SharedName(a[1..], b)
  }

  predicate Clash(a: DnatRule, b: DnatRule) {
    SharedName(a.incoming, b.incoming) != "" && AddrOverlaps(a.dst, b.dst) && SvcOverlaps(a.svc, b.svc)
  }

  /** DM-41: no two translation rules overlap on a shared incoming Interface. */
  ghost predicate DnatsDisjoint(t: Tree) {
    var ds := DnatsOf(t, t.ruleSets);
    forall i, j :: 0 <= i < j < |ds| ==> !Clash(ds[i], ds[j])
  }

  // ---- objects ----------------------------------------------------------------------

  /** DM-14: a range has ends of one family, in order. */
  predicate RangeOk(form: AddressForm) {
    form.Range? ==> (form.start.V4? <==> form.end.V4?) && !Less(form.end, form.start)
  }

  ghost predicate RangesOk(t: Tree) {
    forall i :: 0 <= i < |t.addresses| ==> RangeOk(t.addresses[i].spec.form)
  }

  /** DM-17. */
  predicate PortOk(r: Option<PortRange>) {
    r.Some? ==> 1 <= r.value.lo && r.value.hi <= MAX_PORT && r.value.lo <= r.value.hi
  }

  predicate PortsOk(s: ServiceSpec) {
    forall k :: 0 <= k < |s.protocols| ==> PortOk(s.protocols[k].port) && PortOk(s.protocols[k].sourcePort)
  }

  ghost predicate AllPortsOk(t: Tree) {
    forall i :: 0 <= i < |t.services| ==> PortsOk(t.services[i].spec)
  }

  /** The part of the rules that decides what the classifier does. */
  ghost predicate CleanTree(t: Tree) {
    && UniqueNames(t) && NamesNotEmpty(t)
    && ZonesListInterfaces(t) && ZonesDisjoint(t)
    && SidesDiffer(t) && PairsDistinct(t) && SidesExist(t) && ZonesRespected(t) && RuleNamesUnique(t)
    && DnatsDisjoint(t)
    && RangesOk(t) && AllPortsOk(t)
    && SubnetsDisjoint(t.interfaces) && NoTies(t.routes)
  }
}
