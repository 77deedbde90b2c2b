/** The validator does not look at identifiers: configurations that differ only
    in the metadata of their objects, names apart, and in the identifiers,
    comments and schedules of rules are accepted together. */
module Identifiers {
  import opened Prelude
  import opened Ipv4
  import opened Model
  import opened Expand
  import opened Cycles
  import opened Matching
  import opened Routing
  import opened Clean
  import opened Limits
  import opened DhcpRules
  import opened Validator

  type RuleSet = Object<RuleSetSpec>

  /** The same names and contents, in the same order. */
  ghost predicate Alike<S>(a: seq<Object<S>>, b: seq<Object<S>>) {
    |a| == |b| && forall i :: 0 <= i < |a| ==> a[i].meta.name == b[i].meta.name && a[i].spec == b[i].spec
  }

  predicate SameRule(x: Rule, y: Rule) { x.(uuid := y.uuid, comment := y.comment, schedule := y.schedule) == y }

  ghost predicate SameRules(a: seq<Rule>, b: seq<Rule>) {
    |a| == |b| && forall i :: 0 <= i < |a| ==> SameRule(a[i], b[i])
  }

  ghost predicate SameRuleSet(a: RuleSet, b: RuleSet) {
    a.meta.name == b.meta.name && a.spec.from == b.spec.from && a.spec.to == b.spec.to &&
    SameRules(a.spec.rules, b.spec.rules)
  }

  ghost predicate SameRuleSets(a: seq<RuleSet>, b: seq<RuleSet>) {
    |a| == |b| && forall i :: 0 <= i < |a| ==> SameRuleSet(a[i], b[i])
  }

  /** Configurations that differ in metadata and identifiers only. */
  ghost predicate SameContent(t: Tree, u: Tree) {
    && Alike(t.system, u.system) && Alike(t.colors, u.colors) && Alike(t.users, u.users)
    && Alike(t.interfaces, u.interfaces) && Alike(t.zones, u.zones)
    && Alike(t.routes, u.routes) && Alike(t.dhcp, u.dhcp)
    && Alike(t.addresses, u.addresses) && Alike(t.addressGroups, u.addressGroups)
    && Alike(t.services, u.services) && Alike(t.serviceGroups, u.serviceGroups)
    && SameRuleSets(t.ruleSets, u.ruleSets)
  }

  // ---- lookups --------------------------------------------------------------------------------

  lemma AlikeTail<S>(a: seq<Object<S>>, b: seq<Object<S>>)
    requires Alike(a, b) && a != []
    ensures Alike(a[1..], b[1..]) && Alike(a[..|a| - 1], b[..|b| - 1])
    ensures a[0].meta.name == b[0].meta.name && a[0].spec == b[0].spec
  {
  }

  lemma {:induction false} AlikeIndex<S>(a: seq<Object<S>>, b: seq<Object<S>>)
    requires Alike(a, b)
    ensures Index(a) == Index(b) && forall n :: Find(a, n) == Find(b, n)
  {
    if a != [] {
      AlikeTail(a, b);
      AlikeIndex(a[1..], b[1..]);
    }
  }

  lemma {:induction false} AlikeZoneOf(a: seq<Object<ZoneSpec>>, b: seq<Object<ZoneSpec>>, n: Name)
    requires Alike(a, b)
    ensures ZoneOf(a, n) == ZoneOf(b, n)
  {
    if a != [] {
      AlikeTail(a, b);
      AlikeZoneOf(a[1..], b[1..], n);
    }
  }

  lemma {:induction false} AlikeOwned(a: seq<Object<InterfaceSpec>>, b: seq<Object<InterfaceSpec>>)
    requires Alike(a, b)
    ensures Owned(a) == Owned(b)
  {
    if a != [] {
      AlikeTail(a, b);
      AlikeOwned(a[1..], b[1..]);
    }
  }

  lemma {:induction false} AlikeLinks(a: seq<Object<GroupSpec>>, b: seq<Object<GroupSpec>>)
    requires Alike(a, b)
    ensures GroupLinks(a) == GroupLinks(b)
  {
    if a != [] {
      AlikeTail(a, b);
      AlikeLinks(a[..|a| - 1], b[..|b| - 1]);
      assert a[|a| - 1].meta.name == b[|b| - 1].meta.name && a[|a| - 1].spec == b[|b| - 1].spec;
    }
  }

  lemma {:induction false} AlikeDocs<S>(k: Kind, a: seq<Object<S>>, b: seq<Object<S>>)
    requires |a| == |b| && forall i :: 0 <= i < |a| ==> a[i].meta.name == b[i].meta.name
    ensures DocsOf(k, a) == DocsOf(k, b)
  {
  }

  lemma SameDocs(t: Tree, u: Tree)
    requires SameContent(t, u)
    ensures Docs(t) == Docs(u)
  {
    AlikeDocs(SystemKind, t.system, u.system);
    AlikeDocs(ColorKind, t.colors, u.colors);
    AlikeDocs(InterfaceKind, t.interfaces, u.interfaces);
    AlikeDocs(ZoneKind, t.zones, u.zones);
    AlikeDocs(RouteKind, t.routes, u.routes);
    AlikeDocs(DhcpKind, t.dhcp, u.dhcp);
    AlikeDocs(AddressKind, t.addresses, u.addresses);
    AlikeDocs(AddressGroupKind, t.addressGroups, u.addressGroups);
    AlikeDocs(ServiceKind, t.services, u.services);
    AlikeDocs(ServiceGroupKind, t.serviceGroups, u.serviceGroups);
    AlikeDocs(RuleSetKind, t.ruleSets, u.ruleSets);
    AlikeDocs(UserKind, t.users, u.users);
  }

  /** What the checks look up. */
  ghost predicate SameLookups(t: Tree, u: Tree) {
    && (forall n :: Find(t.interfaces, n) == Find(u.interfaces, n) && Find(t.zones, n) == Find(u.zones, n))
    && (forall n :: ZoneOf(t.zones, n) == ZoneOf(u.zones, n))
    && AddressGraph(t) == AddressGraph(u) && ServiceGraph(t) == ServiceGraph(u)
  }

  lemma ContentLookups(t: Tree, u: Tree)
    requires SameContent(t, u)
    ensures SameLookups(t, u)
  {
    AlikeIndex(t.interfaces, u.interfaces);
    AlikeIndex(t.zones, u.zones);
    AlikeIndex(t.addresses, u.addresses);
    AlikeIndex(t.addressGroups, u.addressGroups);
    AlikeIndex(t.services, u.services);
    AlikeIndex(t.serviceGroups, u.serviceGroups);
    forall n ensures ZoneOf(t.zones, n) == ZoneOf(u.zones, n) {
      AlikeZoneOf(t.zones, u.zones, n);
    }
  }

  // ---- translation rules ------------------------------------------------------------------------

  /** Kept translation rules that only differ in the RuleSet they remember. */
  ghost predicate SameKept(a: seq<DnatRule>, b: seq<DnatRule>) {
    |a| == |b| && forall i :: 0 <= i < |a| ==> (a[i].incoming, a[i].dst, a[i].svc) == (b[i].incoming, b[i].dst, b[i].svc)
  }

  lemma {:induction false} SameKeptOf(t: Tree, u: Tree, a: RuleSet, b: RuleSet, k: nat)
    requires SameLookups(t, u) && SameRuleSet(a, b) && k <= |a.spec.rules|
    ensures SameKept(DnatsOfRules(t, a, k), DnatsOfRules(u, b, k))
    decreases |a.spec.rules| - k
  {
    if k < |a.spec.rules| {
      SameKeptOf(t, u, a, b, k + 1);
      assert SameRule(a.spec.rules[k], b.spec.rules[k]);
    }
  }

  lemma {:induction false} SameKeptOfAll(t: Tree, u: Tree, a: seq<RuleSet>, b: seq<RuleSet>)
    requires SameLookups(t, u) && SameRuleSets(a, b)
    ensures SameKept(DnatsOf(t, a), DnatsOf(u, b))
  {
    if a != [] {
      SameKeptOf(t, u, a[0], b[0], 0);
      SameKeptOfAll(t, u, a[1..], b[1..]);
    }
  }

  lemma {:induction false} SameLimit(sum: nat, a: seq<DnatRule>, b: seq<DnatRule>)
    requires SameKept(a, b)
    ensures LimitHit(sum, a) == LimitHit(sum, b)
    decreases |a|
  {
    if a != [] {
      assert Sum64(sum, a[0]) == Sum64(sum, b[0]);
      SameLimit(Sum64(sum, a[0]), a[1..], b[1..]);
    }
  }

  lemma SameClashes(a: seq<DnatRule>, b: seq<DnatRule>)
    requires SameKept(a, b) && forall i, j :: 0 <= i < j < |a| ==> !Clash(a[i], a[j])
    ensures forall i, j :: 0 <= i < j < |b| ==> !Clash(b[i], b[j])
  {
    forall i, j | 0 <= i < j < |b| ensures !Clash(b[i], b[j]) {
      assert !Clash(a[i], a[j]);
    }
  }

  // ---- acceptance ---------------------------------------------------------------------------------

  lemma SameObjects(t: Tree, u: Tree)
    requires SameContent(t, u) && ObjectsHold(t)
    ensures ObjectsHold(u)
  {
    SameDocs(t, u);
    AlikeOwned(t.interfaces, u.interfaces);
    AlikeLinks(t.addressGroups, u.addressGroups);
    AlikeLinks(t.serviceGroups, u.serviceGroups);
    SameZones(t, u);
    SameForms(t, u);
    assert UniqueNames(u) && InterfacesHold(u);
  }

  lemma SameForms(t: Tree, u: Tree)
    requires Alike(t.addresses, u.addresses) && Alike(t.services, u.services) && RangesOk(t) && AllPortsOk(t)
    ensures RangesOk(u) && AllPortsOk(u)
  {
    forall i | 0 <= i < |u.addresses| ensures RangeOk(u.addresses[i].spec.form) {
      assert RangeOk(t.addresses[i].spec.form);
    }
    forall i | 0 <= i < |u.services| ensures PortsOk(u.services[i].spec) {
      assert PortsOk(t.services[i].spec);
    }
  }

  lemma SameZones(t: Tree, u: Tree)
    requires SameContent(t, u) && ZonesListInterfaces(t) && ZonesDisjoint(t)
    ensures ZonesListInterfaces(u) && ZonesDisjoint(u)
  {
    AlikeIndex(t.interfaces, u.interfaces);
    forall z, k | MemberAt(u, z, k) ensures MemberAt(t, z, k) && t.zones[z].spec == u.zones[z].spec {
    }
  }

  lemma SameSides(t: Tree, u: Tree)
    requires SameContent(t, u) && SameLookups(t, u) && SidesHold(t) && RuleNamesUnique(t)
    ensures SidesHold(u) && RuleNamesUnique(u)
  {
    forall i | 0 <= i < |u.ruleSets| ensures SameRuleSet(t.ruleSets[i], u.ruleSets[i]) {
    }
    forall i | 0 <= i < |u.ruleSets|
      ensures InNetwork(u, u.ruleSets[i].spec.from) && InNetwork(u, u.ruleSets[i].spec.to)
      ensures SidesRespectZones(u, u.ruleSets[i].spec)
    {
      assert SidesRespectZones(t, t.ruleSets[i].spec);
      assert InNetwork(t, t.ruleSets[i].spec.from) && InNetwork(t, t.ruleSets[i].spec.to);
    }
    forall i, j, k | 0 <= i < |u.ruleSets| && 0 <= j < k < |u.ruleSets[i].spec.rules|
      ensures u.ruleSets[i].spec.rules[j].name != u.ruleSets[i].spec.rules[k].name
    {
      assert SameRule(t.ruleSets[i].spec.rules[j], u.ruleSets[i].spec.rules[j]);
      assert SameRule(t.ruleSets[i].spec.rules[k], u.ruleSets[i].spec.rules[k]);
    }
  }

  lemma SameServers(t: Tree, u: Tree)
    requires SameContent(t, u) && SameLookups(t, u)
    requires ServersResolve(t) && ServedOnce(t) && RangesFit(t) && GatewaysFit(t)
    ensures ServersResolve(u) && ServedOnce(u) && RangesFit(u) && GatewaysFit(u)
  {
    forall s ensures RangeSubnet(t, s) == RangeSubnet(u, s) {
      assert PrefixesOf(t, s.iface) == PrefixesOf(u, s.iface);
    }
    forall i | 0 <= i < |u.dhcp|
      ensures t.dhcp[i].spec == u.dhcp[i].spec && IsInterface(u, u.dhcp[i].spec.iface)
      ensures RangeFits(u, u.dhcp[i].spec) && GatewayFits(u, u.dhcp[i].spec)
    {
      assert IsInterface(t, t.dhcp[i].spec.iface) && RangeFits(t, t.dhcp[i].spec) && GatewayFits(t, t.dhcp[i].spec);
    }
  }

  lemma SameTraffic(t: Tree, u: Tree)
    requires SameContent(t, u) && TrafficHolds(t)
    ensures TrafficHolds(u)
  {
    ContentLookups(t, u);
    SameSides(t, u);
    SameServers(t, u);
    SameKeptOfAll(t, u, t.ruleSets, u.ruleSets);
    SameLimit(0, DnatsOf(t, t.ruleSets), DnatsOf(u, u.ruleSets));
    SameClashes(DnatsOf(t, t.ruleSets), DnatsOf(u, u.ruleSets));
    SameTies(t.routes, u.routes);
  }

  lemma SameTies(a: seq<Object<StaticRouteSpec>>, b: seq<Object<StaticRouteSpec>>)
    requires Alike(a, b) && NoTies(a)
    ensures NoTies(b)
  {
  }

  /** Acceptance depends on content only. */
  lemma AcceptedByContent(t: Tree, u: Tree)
    requires SameContent(t, u)
    ensures Accepted(t) <==> Accepted(u)
  {
    ContentSymmetric(t, u);
    if Accepted(t) {
      SameObjects(t, u);
      SameTraffic(t, u);
    }
    if Accepted(u) {
      SameObjects(u, t);
      SameTraffic(u, t);
    }
  }

  lemma ContentSymmetric(t: Tree, u: Tree)
    requires SameContent(t, u)
    ensures SameContent(u, t)
  {
    forall i | 0 <= i < |t.ruleSets| ensures SameRuleSet(u.ruleSets[i], t.ruleSets[i]) {
      assert SameRuleSet(t.ruleSets[i], u.ruleSets[i]);
      forall k | 0 <= k < |t.ruleSets[i].spec.rules|
        ensures SameRule(u.ruleSets[i].spec.rules[k], t.ruleSets[i].spec.rules[k])
      {
        assert SameRule(t.ruleSets[i].spec.rules[k], u.ruleSets[i].spec.rules[k]);
      }
    }
  }
}
