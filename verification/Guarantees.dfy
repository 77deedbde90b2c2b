/** What a clean configuration guarantees about the classifier. */
module Guarantees {
  import opened Prelude
  import opened Ipv4
  import opened Intervals
  import opened Model
  import opened Expand
  import opened Matching
  import opened Routing
  import opened Classify
  import opened Clean

  // ---- names and zones --------------------------------------------------------------

  lemma CleanNames(t: Tree)
    requires UniqueNames(t)
    ensures Consistent(t.interfaces) && Consistent(t.zones) && Consistent(t.addresses) && Consistent(t.addressGroups)
    ensures Consistent(t.services) && Consistent(t.serviceGroups) && Consistent(t.ruleSets)
    ensures forall n :: !(Find(t.interfaces, n).Some? && Find(t.zones, n).Some?)
  {
    UniqueNetwork(t);
    UniqueObjects(t);
    forall n | Find(t.interfaces, n).Some? ensures Find(t.zones, n).None? {
      FindSound(t.interfaces, n);
      FindSound(t.zones, n);
    }
  }

  lemma FoundInNames<S>(l: seq<Object<S>>, n: Name)
    ensures Find(l, n).Some? ==> n in Names(l)
  {
  }

  /** A Zone and an Interface it lists. */
  ghost predicate Lists(t: Tree, z: Object<ZoneSpec>, n: Name) { z in t.zones && n in z.spec.interfaces }

  lemma OneZone(t: Tree, z: Object<ZoneSpec>, z': Object<ZoneSpec>, n: Name)
    requires ZonesDisjoint(t) && Lists(t, z, n) && Lists(t, z', n)
    ensures z == z'
  {
  }

  lemma ZoneOfListed(t: Tree, z: Object<ZoneSpec>, n: Name)
    requires ZonesDisjoint(t) && Lists(t, z, n)
    ensures ZoneOf(t.zones, n) == z.meta.name
  {
    ZoneOfSound(t.zones, n);
    var z' :| z' in t.zones && n in z'.spec.interfaces && z'.meta.name == ZoneOf(t.zones, n);
    OneZone(t, z, z', n);
  }

  /** How an Interface comes to be on a side: through its Zone, or itself. */
  lemma SideCases(t: Tree, side: Name, n: Name)
    requires UniqueNames(t) && n in Side(t, side)
    ensures (exists z :: Lists(t, z, n) && z.meta.name == side && !IsInterface(t, side))
      || (n == side && IsInterface(t, side))
  {
    CleanNames(t);
    FindSound(t.zones, side);
  }

  // ---- who governs a pair -------------------------------------------------------------

  /** The checks that make the governing RuleSet unique. */
  ghost predicate PairRules(t: Tree) {
    && UniqueNames(t) && NamesNotEmpty(t) && ZonesDisjoint(t)
    && SidesDiffer(t) && PairsDistinct(t) && ZonesRespected(t)
  }

  lemma ZoneNameNotEmpty(t: Tree, z: Object<ZoneSpec>)
    requires NamesNotEmpty(t) && z in t.zones
    ensures z.meta.name != ""
  {
  }

  /** How a side names an Interface, given the Zone of the Interface. */
  lemma SideNames(t: Tree, side: Name, n: Name)
    requires UniqueNames(t) && NamesNotEmpty(t) && ZonesDisjoint(t) && n in Side(t, side)
    ensures (side == n && IsInterface(t, n) && ZoneOfSide(t, side) == ZoneOf(t.zones, n))
      || (side == ZoneOf(t.zones, n) != "" && !IsInterface(t, side) && ZoneOfSide(t, side) == "")
  {
    SideCases(t, side, n);
    if z :| Lists(t, z, n) && z.meta.name == side && !IsInterface(t, side) {
      ZoneOfListed(t, z, n);
      ZoneNameNotEmpty(t, z);
    }
  }

  lemma RuleSetSides(t: Tree, rs: RuleSet)
    requires SidesDiffer(t) && ZonesRespected(t) && rs in t.ruleSets
    ensures rs.spec.from != rs.spec.to && SidesRespectZones(t, rs.spec)
  {
  }

  /** No RuleSet governs an Interface to itself. */
  lemma NoSelfGoverning(t: Tree, rs: RuleSet, n: Name)
    requires PairRules(t) && rs in t.ruleSets
    ensures !Governs(t, rs, n, n)
  {
    RuleSetSides(t, rs);
    if Governs(t, rs, n, n) {
      SideNames(t, rs.spec.from, n);
      SideNames(t, rs.spec.to, n);
      assert false;
    }
  }

  /** An ordered pair of Interfaces is governed by at most one RuleSet. */
  lemma GoverningUnique(t: Tree, inIf: Name, outIf: Name, rs: RuleSet, rs': RuleSet)
    requires PairRules(t) && rs in t.ruleSets && rs' in t.ruleSets
    requires Governs(t, rs, inIf, outIf) && Governs(t, rs', inIf, outIf)
    ensures rs == rs'
  {
    SideNames(t, rs.spec.from, inIf);
    SideNames(t, rs'.spec.from, inIf);
    SideNames(t, rs.spec.to, outIf);
    SideNames(t, rs'.spec.to, outIf);
    RuleSetSides(t, rs);
    RuleSetSides(t, rs');
    assert rs.spec.from == rs'.spec.from && rs.spec.to == rs'.spec.to;
    var i, j :| 0 <= i < |t.ruleSets| && 0 <= j < |t.ruleSets| && t.ruleSets[i] == rs && t.ruleSets[j] == rs';
    assert i == j;
  }

  // ---- at most one translation ----------------------------------------------------------

  lemma {:induction false} SharedNameFound(a: seq<Name>, b: seq<Name>, n: Name)
    requires n in a && n in b && "" !in a
    ensures SharedName(a, b) != ""
  {
    if a[0] !in b {
      SharedNameFound(a[1..], b, n);
    }
  }

  lemma {:induction false} DnatsOfRulesHas(t: Tree, rs: RuleSet, from: nat, k: nat)
    requires from <= k < |rs.spec.rules| && TakesPart(rs.spec.rules[k])
    ensures DnatOf(t, rs, k) in DnatsOfRules(t, rs, from)
    decreases k - from
  {
    if from < k { DnatsOfRulesHas(t, rs, from + 1, k); }
  }

  lemma {:induction false} DnatsOfHas(t: Tree, l: seq<RuleSet>, rs: RuleSet, k: nat)
    requires rs in l && k < |rs.spec.rules| && TakesPart(rs.spec.rules[k])
    ensures DnatOf(t, rs, k) in DnatsOf(t, l)
  {
    DnatsOfRulesHas(t, rs, 0, k);
    if rs != l[0] { DnatsOfHas(t, l[1..], rs, k); }
  }

  lemma RangesGiveGraph(t: Tree)
    requires RangesOk(t)
    ensures NoMixedRange(AddressGraph(t))
  {
    forall n | n in Index(t.addresses) ensures !MixedRange(Index(t.addresses)[n].form) {
      FindSound(t.addresses, n);
      var o :| o in t.addresses && o.meta.name == n && o.spec == Index(t.addresses)[n];
      var i :| 0 <= i < |t.addresses| && t.addresses[i] == o;
      assert RangeOk(t.addresses[i].spec.form);
    }
  }

  /** The sets kept for two rules that both match a flow have the flow's
      destination and service in common. */
  lemma MatchingSetsOverlap(t: Tree, r: Rule, r': Rule, f: Flow)
    requires NoMixedRange(AddressGraph(t)) && Matches(t, r, f) && Matches(t, r', f)
    ensures AddrOverlaps(AddrSetOf(AddressGraph(t), r.destination), AddrSetOf(AddressGraph(t), r'.destination))
    ensures SvcOverlaps(SvcSetOf(ServiceGraph(t), r.service), SvcSetOf(ServiceGraph(t), r'.service))
  {
    var (g, h) := (AddressGraph(t), ServiceGraph(t));
    AddrSetAgrees(g, r.destination, f.dst);
    AddrSetAgrees(g, r'.destination, f.dst);
    AddrSetOrdered(g, r.destination);
    AddrSetOrdered(g, r'.destination);
    AddrOverlapsIff(AddrSetOf(g, r.destination), AddrSetOf(g, r'.destination));
    SvcSetAgrees(h, r.service, f.proto, f.dport);
    SvcSetAgrees(h, r'.service, f.proto, f.dport);
    CommonPortOverlaps(SvcSetOf(h, r.service), SvcSetOf(h, r'.service), f.proto, f.dport);
  }

  /** A common port is found even between unordered port ranges. */
  lemma CommonPortOverlaps(a: SvcSet, b: SvcSet, proto: string, port: U32)
    requires InSvc(a, proto, port) && InSvc(b, proto, port)
    ensures SvcOverlaps(a, b)
  {
  }

  /** The checks that make the translation unique. */
  ghost predicate DnatRules(t: Tree) {
    UniqueNames(t) && NamesNotEmpty(t) && ZonesListInterfaces(t) && RangesOk(t) && DnatsDisjoint(t)
  }

  lemma SideNamesNotEmpty(t: Tree, side: Name)
    requires UniqueNames(t) && NamesNotEmpty(t) && ZonesListInterfaces(t)
    ensures "" !in Side(t, side)
  {
    EmptyIsNoInterface(t);
    forall n | n in Side(t, side) ensures IsInterface(t, n) {
      SideCases(t, side, n);
      if z :| Lists(t, z, n) && z.meta.name == side {
        ListedIsInterface(t, z, n);
      }
    }
  }

  lemma ListedIsInterface(t: Tree, z: Object<ZoneSpec>, n: Name)
    requires ZonesListInterfaces(t) && Lists(t, z, n)
    ensures IsInterface(t, n)
  {
  }

  lemma EmptyIsNoInterface(t: Tree)
    requires NamesNotEmpty(t)
    ensures !IsInterface(t, "")
  {
    FoundInNames(t.interfaces, "");
  }

  /** A translation rule needs a target to take a flow, and the empty name
      resolves to no address. */
  lemma TranslatesTakesPart(t: Tree, r: Rule, f: Flow)
    requires Translates(t, r, f) && "" !in Names(t.addresses) + Names(t.addressGroups)
    ensures TakesPart(r)
  {
    EmptyResolvesToNothing(t);
  }

  lemma EmptyResolvesToNothing(t: Tree)
    requires "" !in Names(t.addresses) + Names(t.addressGroups)
    ensures FirstIp(t, "").None?
  {
    FoundInNames(t.addresses, "");
    FoundInNames(t.addressGroups, "");
    WalkOne(AddressGraph(t), "", {});
    assert Leaves(AddressGraph(t), "") == [];
  }

  /** For every flow at most one rule, over all RuleSets whose incoming side
      has the flow's Interface, can translate it. */
  lemma DnatUnique(t: Tree, f: Flow, rs: RuleSet, r: Rule, rs': RuleSet, r': Rule)
    requires DnatRules(t) && rs in t.ruleSets && rs' in t.ruleSets
    requires f.inIf in Side(t, rs.spec.from) && f.inIf in Side(t, rs'.spec.from)
    requires r in rs.spec.rules && r' in rs'.spec.rules && TakesPart(r) && TakesPart(r')
    requires Matches(t, r, f) && Matches(t, r', f)
    ensures rs == rs' && r == r'
  {
    var k :| 0 <= k < |rs.spec.rules| && rs.spec.rules[k] == r;
    var k' :| 0 <= k' < |rs'.spec.rules| && rs'.spec.rules[k'] == r';
    DnatsOfHas(t, t.ruleSets, rs, k);
    DnatsOfHas(t, t.ruleSets, rs', k');
    RangesGiveGraph(t);
    MatchingSetsOverlap(t, r, r', f);
    MatchingSetsOverlap(t, r', r, f);
    SideNamesNotEmpty(t, rs.spec.from);
    SideNamesNotEmpty(t, rs'.spec.from);
    SharedNameFound(Side(t, rs.spec.from), Side(t, rs'.spec.from), f.inIf);
    SharedNameFound(Side(t, rs'.spec.from), Side(t, rs.spec.from), f.inIf);
    assert Clash(DnatOf(t, rs, k), DnatOf(t, rs', k')) && Clash(DnatOf(t, rs', k'), DnatOf(t, rs, k));
    NoClashSame(DnatsOf(t, t.ruleSets), DnatOf(t, rs, k), DnatOf(t, rs', k'));
  }

  lemma NoClashSame(ds: seq<DnatRule>, a: DnatRule, b: DnatRule)
    requires a in ds && b in ds && Clash(a, b) && Clash(b, a)
    requires forall i, j :: 0 <= i < j < |ds| ==> !Clash(ds[i], ds[j])
    ensures a == b
  {
  }

  // ---- independence of list order ---------------------------------------------------------

  /** The same objects, each list in any order. The order of rules inside a
      RuleSet is part of the RuleSet and stays. */
  ghost predicate Reordered(t: Tree, u: Tree) {
    && Permuted(t.interfaces, u.interfaces) && Permuted(t.zones, u.zones)
    && Permuted(t.routes, u.routes) && Permuted(t.ruleSets, u.ruleSets)
    && Permuted(t.addresses, u.addresses) && Permuted(t.addressGroups, u.addressGroups)
    && Permuted(t.services, u.services) && Permuted(t.serviceGroups, u.serviceGroups)
  }

  /** Lookups, resolutions and Zones are the same in both trees. */
  lemma SameLookups(t: Tree, u: Tree)
    requires UniqueNames(t) && ZonesDisjoint(t) && Reordered(t, u)
    ensures AddressGraph(t) == AddressGraph(u) && ServiceGraph(t) == ServiceGraph(u)
    ensures forall n :: Find(t.interfaces, n) == Find(u.interfaces, n) && Find(t.zones, n) == Find(u.zones, n)
    ensures forall n :: Find(t.services, n) == Find(u.services, n)
    ensures forall n :: Side(t, n) == Side(u, n)
    ensures forall n :: ZoneOf(t.zones, n) == ZoneOf(u.zones, n)
  {
    CleanNames(t);
    IndexPermuted(t.addresses, u.addresses);
    IndexPermuted(t.addressGroups, u.addressGroups);
    IndexPermuted(t.services, u.services);
    IndexPermuted(t.serviceGroups, u.serviceGroups);
    forall n
      ensures Find(t.interfaces, n) == Find(u.interfaces, n) && Find(t.zones, n) == Find(u.zones, n)
      ensures Find(t.services, n) == Find(u.services, n)
    {
      FindPermuted(t.interfaces, u.interfaces, n);
      FindPermuted(t.zones, u.zones, n);
      FindPermuted(t.services, u.services, n);
    }
    forall n ensures ZoneOf(t.zones, n) == ZoneOf(u.zones, n) {
      SameZone(t, u.zones, n);
    }
  }

  lemma SameZone(t: Tree, zones: seq<Object<ZoneSpec>>, n: Name)
    requires ZonesDisjoint(t) && Permuted(t.zones, zones)
    ensures ZoneOf(t.zones, n) == ZoneOf(zones, n)
  {
    PermutedMembers(t.zones, zones);
    ZoneOfSound(t.zones, n);
    ZoneOfSound(zones, n);
    if z :| z in t.zones && n in z.spec.interfaces {
      var a :| a in t.zones && n in a.spec.interfaces && a.meta.name == ZoneOf(t.zones, n);
      var b :| b in zones && n in b.spec.interfaces && b.meta.name == ZoneOf(zones, n);
      OneZone(t, a, b, n);
    }
  }

  lemma SameMatches(t: Tree, u: Tree, f: Flow)
    requires UniqueNames(t) && ZonesDisjoint(t) && Reordered(t, u)
    ensures forall r :: Matches(t, r, f) == Matches(u, r, f)
    ensures forall ref :: FirstIp(t, ref) == FirstIp(u, ref)
  {
    SameLookups(t, u);
  }

  lemma SameGoverning(t: Tree, u: Tree, inIf: Name, outIf: Name)
    requires PairRules(t) && Reordered(t, u)
    ensures Governing(t, t.ruleSets, inIf, outIf) == Governing(u, u.ruleSets, inIf, outIf)
  {
    SameLookups(t, u);
    PermutedMembers(t.ruleSets, u.ruleSets);
    GoverningSound(t, t.ruleSets, inIf, outIf);
    GoverningSound(u, u.ruleSets, inIf, outIf);
    var a, b := Governing(t, t.ruleSets, inIf, outIf), Governing(u, u.ruleSets, inIf, outIf);
    if a.Some? && b.Some? {
      GoverningUnique(t, inIf, outIf, a.value, b.value);
    }
  }

  lemma SameFirstDnat(t: Tree, u: Tree, f: Flow)
    requires CleanTree(t) && Reordered(t, u)
    ensures FirstDnat(t, t.ruleSets, f) == FirstDnat(u, u.ruleSets, f)
  {
    SameLookups(t, u);
    SameMatches(t, u, f);
    PermutedMembers(t.ruleSets, u.ruleSets);
    FirstDnatTranslates(t, t.ruleSets, f);
    FirstDnatTranslates(u, u.ruleSets, f);
    var a, b := FirstDnat(t, t.ruleSets, f), FirstDnat(u, u.ruleSets, f);
    assert forall rs, r :: DnatHit(t, rs, r, f) <==> DnatHit(u, rs, r, f);
    if a.Some? && b.Some? {
      var (rs, r) := a.value;
      var (rs', r') := b.value;
      assert DnatHit(t, rs, r, f) && DnatHit(u, rs', r', f);
      TranslatesTakesPart(t, r, f);
      TranslatesTakesPart(t, r', f);
      DnatUnique(t, f, rs, r, rs', r');
    }
  }

  lemma {:induction false} SameFirstMatches(t: Tree, u: Tree, rules: seq<Rule>, f: Flow)
    requires forall r :: Matches(t, r, f) == Matches(u, r, f)
    ensures FirstMatch(t, rules, f) == FirstMatch(u, rules, f)
    ensures FirstPolicy(t, rules, f) == FirstPolicy(u, rules, f)
  {
    if rules != [] { SameFirstMatches(t, u, rules[1..], f); }
  }

  lemma SameDnatVerdict(t: Tree, u: Tree, f: Flow, rs: RuleSet, r: Rule)
    requires CleanTree(t) && Reordered(t, u) && Translates(t, r, f)
    ensures Translates(u, r, f) && DnatVerdict(t, rs, r, f) == DnatVerdict(u, rs, r, f)
  {
    SameLookups(t, u);
    SameMatches(t, u, f);
    SameFirsts(t, u, rs.spec.rules, f);
    var to := FirstIp(t, r.translate.value.translateIpTo).value;
    RouteOrderIndependent(t, u, to);
    SameGoverning(t, u, f.inIf, RouteOf(t, to));
  }

  lemma SameSource(t: Tree, u: Tree, r: Rule, outIf: Name)
    requires UniqueNames(t) && ZonesDisjoint(t) && Reordered(t, u)
    ensures SourceAfter(t, r, outIf) == SourceAfter(u, r, outIf)
  {
    SameLookups(t, u);
  }

  lemma SameIntraZone(t: Tree, u: Tree, inIf: Name, outIf: Name)
    requires UniqueNames(t) && ZonesDisjoint(t) && Reordered(t, u)
    ensures IntraZoneAllowed(t, inIf, outIf) == IntraZoneAllowed(u, inIf, outIf)
  {
    SameLookups(t, u);
  }

  lemma SameFirsts(t: Tree, u: Tree, rules: seq<Rule>, f: Flow)
    requires UniqueNames(t) && ZonesDisjoint(t) && Reordered(t, u)
    ensures FirstMatch(t, rules, f) == FirstMatch(u, rules, f)
    ensures FirstPolicy(t, rules, f) == FirstPolicy(u, rules, f)
  {
    SameMatches(t, u, f);
    SameFirstMatches(t, u, rules, f);
  }

  lemma SameRoutedVerdict(t: Tree, u: Tree, f: Flow)
    requires CleanTree(t) && Reordered(t, u)
    ensures RoutedVerdict(t, f) == RoutedVerdict(u, f)
  {
    var outIf := RouteOf(t, V4(f.dst));
    RouteOrderIndependent(t, u, V4(f.dst));
    SameGoverning(t, u, f.inIf, outIf);
    SameIntraZone(t, u, f.inIf, outIf);
    var gov := Governing(t, t.ruleSets, f.inIf, outIf);
    if gov.Some? {
      SameFirsts(t, u, gov.value.spec.rules, f);
      var first := FirstPolicy(t, gov.value.spec.rules, f);
      if first.Some? { SameSource(t, u, first.value, outIf); }
    }
  }

  /** On a clean configuration the whole verdict of every flow is independent
      of the order of every list; only the order of rules inside a RuleSet
      counts. */
  lemma OrderIndependent(t: Tree, u: Tree, f: Flow)
    requires CleanTree(t) && Reordered(t, u)
    ensures Decide(t, f) == Decide(u, f)
  {
    SameFirstDnat(t, u, f);
    FirstDnatTranslates(t, t.ruleSets, f);
    match FirstDnat(t, t.ruleSets, f)
    case Some(p) => SameDnatVerdict(t, u, f, p.0, p.1);
    case None => SameRoutedVerdict(t, u, f);
  }

  // ---- shadowed translation rules ---------------------------------------------------------

  /** One rule covers another: source, destination and service. */
  predicate CoversRule(t: Tree, e: Rule, r: Rule) {
    var (g, h) := (AddressGraph(t), ServiceGraph(t));
    && AddrCovers(AddrSetOf(g, e.source), AddrSetOf(g, r.source))
    && AddrCovers(AddrSetOf(g, e.destination), AddrSetOf(g, r.destination))
    && SvcCovers(SvcSetOf(h, e.service), SvcSetOf(h, r.service))
  }

  /** The warning about a translation rule: one earlier enabled rule of the
      RuleSet covers it. */
  predicate ShadowedBy(t: Tree, rules: seq<Rule>, i: nat, j: nat)
    requires i < |rules| && j < |rules|
  {
    j < i && IsEnabled(rules[j].enabled) && CoversRule(t, rules[j], rules[i])
  }

  ghost predicate Shadowed(t: Tree, rules: seq<Rule>, i: nat)
    requires i < |rules|
  {
    exists j :: 0 <= j < |rules| && ShadowedBy(t, rules, i, j)
  }

  lemma PortsGiveGraph(t: Tree)
    requires AllPortsOk(t)
    ensures PortsOrdered(ServiceGraph(t))
  {
    forall n, p | n in Index(t.services) && p in Index(t.services)[n].protocols && p.port.Some?
      ensures p.port.value.lo <= p.port.value.hi <= MAX_PORT
    {
      FindSound(t.services, n);
      var o :| o in t.services && o.meta.name == n && o.spec == Index(t.services)[n];
      var i :| 0 <= i < |t.services| && t.services[i] == o;
      var k :| 0 <= k < |o.spec.protocols| && o.spec.protocols[k] == p;
      assert PortsOk(t.services[i].spec);
      assert PortOk(o.spec.protocols[k].port);
    }
  }

  lemma CoveredAddresses(t: Tree, a: seq<Name>, b: seq<Name>, x: U32)
    requires NoMixedRange(AddressGraph(t))
    requires AddrCovers(AddrSetOf(AddressGraph(t), a), AddrSetOf(AddressGraph(t), b))
    requires InAddresses(AddressGraph(t), b, x)
    ensures InAddresses(AddressGraph(t), a, x)
  {
    var g := AddressGraph(t);
    AddrSetOrdered(g, a);
    AddrSetOrdered(g, b);
    AddrCoversIff(AddrSetOf(g, a), AddrSetOf(g, b));
    AddrSetAgrees(g, a, x);
    AddrSetAgrees(g, b, x);
  }

  lemma CoveredServices(t: Tree, a: seq<Name>, b: seq<Name>, proto: string, port: Port)
    requires PortsOrdered(ServiceGraph(t))
    requires SvcCovers(SvcSetOf(ServiceGraph(t), a), SvcSetOf(ServiceGraph(t), b))
    requires InServices(ServiceGraph(t), b, proto, port)
    ensures InServices(ServiceGraph(t), a, proto, port)
  {
    var g := ServiceGraph(t);
    SvcSetOrdered(g, a);
    SvcSetOrdered(g, b);
    SvcCoversIff(SvcSetOf(g, a), SvcSetOf(g, b));
    SvcSetAgrees(g, a, proto, port);
    SvcSetAgrees(g, b, proto, port);
  }

  /** Every flow that matches a shadowed rule matches the earlier rule too. */
  lemma ShadowMatches(t: Tree, rules: seq<Rule>, i: nat, j: nat, f: Flow)
    requires RangesOk(t) && AllPortsOk(t) && i < |rules| && j < |rules|
    requires ShadowedBy(t, rules, i, j) && Matches(t, rules[i], f)
    ensures Matches(t, rules[j], f)
  {
    RangesGiveGraph(t);
    PortsGiveGraph(t);
    CoveredAddresses(t, rules[j].source, rules[i].source, f.src);
    CoveredAddresses(t, rules[j].destination, rules[i].destination, f.dst);
    CoveredServices(t, rules[j].service, rules[i].service, f.proto, f.dport);
  }

  /** A shadowed rule is never the first match. */
  lemma ShadowedNotFirst(t: Tree, rules: seq<Rule>, i: nat, f: Flow)
    requires RangesOk(t) && AllPortsOk(t) && i < |rules| && Shadowed(t, rules, i)
    requires forall j, k :: 0 <= j < k < |rules| ==> rules[j].name != rules[k].name
    ensures FirstMatch(t, rules, f).Some? ==> FirstMatch(t, rules, f).value.name != rules[i].name
  {
    var j :| 0 <= j < |rules| && ShadowedBy(t, rules, i, j);
    FirstMatchAt(t, rules, f);
    if k :| 0 <= k < |rules| && IsFirstMatch(t, rules, f, k) {
      if k == i { ShadowMatches(t, rules, i, j, f); }
    }
  }

  ghost predicate IsFirstMatch(t: Tree, rules: seq<Rule>, f: Flow, k: nat)
    requires k < |rules|
  {
    FirstMatch(t, rules, f) == Some(rules[k]) && Matches(t, rules[k], f) &&
    forall j :: 0 <= j < k ==> !Matches(t, rules[j], f)
  }

  lemma {:induction false} FirstMatchAt(t: Tree, rules: seq<Rule>, f: Flow)
    ensures FirstMatch(t, rules, f).Some? ==> exists k :: 0 <= k < |rules| && IsFirstMatch(t, rules, f, k)
  {
    if rules != [] {
      if Matches(t, rules[0], f) {
        assert IsFirstMatch(t, rules, f, 0);
      } else {
        FirstMatchAt(t, rules[1..], f);
        if k :| 0 <= k < |rules[1..]| && IsFirstMatch(t, rules[1..], f, k) {
          assert IsFirstMatch(t, rules, f, k + 1);
        }
      }
    }
  }

  lemma RuleSetsByName(t: Tree, rs: RuleSet, rs': RuleSet)
    requires UniqueNames(t) && rs in t.ruleSets && rs' in t.ruleSets && rs.meta.name == rs'.meta.name
    ensures rs == rs'
  {
    CleanNames(t);
  }

  lemma RulesByName(t: Tree, rs: RuleSet)
    requires RuleNamesUnique(t) && rs in t.ruleSets
    ensures forall j, k :: 0 <= j < k < |rs.spec.rules| ==> rs.spec.rules[j].name != rs.spec.rules[k].name
  {
  }

  lemma DnatVerdictNames(t: Tree, rs: RuleSet, r: Rule, f: Flow)
    requires Translates(t, r, f)
    ensures var v := DnatVerdict(t, rs, r, f);
      v.ruleSet == rs.meta.name &&
      (v.policy == "" || (FirstMatch(t, rs.spec.rules, f).Some? && v.policy == FirstMatch(t, rs.spec.rules, f).value.name))
  {
  }

  /** The second phase names only rules that do not translate the destination. */
  lemma RoutedVerdictNames(t: Tree, f: Flow)
    ensures var v := RoutedVerdict(t, f);
      v.policy == "" ||
      exists rs, r :: rs in t.ruleSets && v.ruleSet == rs.meta.name && IsPolicyOf(rs, r) && v.policy == r.name
  {
    var outIf := RouteOf(t, V4(f.dst));
    GoverningSound(t, t.ruleSets, f.inIf, outIf);
    var gov := Governing(t, t.ruleSets, f.inIf, outIf);
    if gov.Some? {
      FirstPolicySound(t, gov.value.spec.rules, f);
      var r := FirstPolicy(t, gov.value.spec.rules, f);
      assert r.Some? ==> IsPolicyOf(gov.value, r.value);
    }
  }

  ghost predicate IsPolicyOf(rs: RuleSet, r: Rule) { r in rs.spec.rules && !IsDnat(r) }

  /** No flow ever gets a verdict that names a shadowed translation rule, in
      either phase. */
  lemma ShadowedNeverNamed(t: Tree, rs: RuleSet, i: nat, f: Flow)
    requires CleanTree(t) && rs in t.ruleSets && i < |rs.spec.rules|
    requires IsDnat(rs.spec.rules[i]) && Shadowed(t, rs.spec.rules, i)
    requires rs.spec.rules[i].name != ""
    ensures var v := Decide(t, f); !(v.ruleSet == rs.meta.name && v.policy == rs.spec.rules[i].name)
  {
    RulesByName(t, rs);
    FirstDnatTranslates(t, t.ruleSets, f);
    match FirstDnat(t, t.ruleSets, f)
    case Some(p) => ShadowedNotTranslating(t, rs, i, f, p.0, p.1);
    case None => DnatNotRouted(t, rs, i, f);
  }

  lemma ShadowedNotTranslating(t: Tree, rs: RuleSet, i: nat, f: Flow, rs': RuleSet, r: Rule)
    requires UniqueNames(t) && RuleNamesUnique(t) && RangesOk(t) && AllPortsOk(t)
    requires rs in t.ruleSets && rs' in t.ruleSets && i < |rs.spec.rules| && Shadowed(t, rs.spec.rules, i)
    requires rs.spec.rules[i].name != "" && Translates(t, r, f)
    ensures var v := DnatVerdict(t, rs', r, f); !(v.ruleSet == rs.meta.name && v.policy == rs.spec.rules[i].name)
  {
    RulesByName(t, rs);
    ShadowedNotFirst(t, rs.spec.rules, i, f);
    DnatVerdictNames(t, rs', r, f);
    if rs'.meta.name == rs.meta.name { RuleSetsByName(t, rs, rs'); }
  }

  lemma DnatNotRouted(t: Tree, rs: RuleSet, i: nat, f: Flow)
    requires UniqueNames(t) && RuleNamesUnique(t) && rs in t.ruleSets && i < |rs.spec.rules|
    requires IsDnat(rs.spec.rules[i]) && rs.spec.rules[i].name != ""
    ensures var v := RoutedVerdict(t, f); !(v.ruleSet == rs.meta.name && v.policy == rs.spec.rules[i].name)
  {
    RulesByName(t, rs);
    RoutedVerdictNames(t, f);
    var v := RoutedVerdict(t, f);
    if v.policy != "" && v.ruleSet == rs.meta.name {
      var rs', r :| rs' in t.ruleSets && v.ruleSet == rs'.meta.name && IsPolicyOf(rs', r) && v.policy == r.name;
      RuleSetsByName(t, rs, rs');
    }
  }

  lemma DnatVerdictDrops(t: Tree, rs: RuleSet, r: Rule, f: Flow)
    requires Translates(t, r, f)
    requires FirstMatch(t, rs.spec.rules, f).Some? ==> FirstMatch(t, rs.spec.rules, f).value.name != r.name
    ensures DnatVerdict(t, rs, r, f).action == Drop && DnatVerdict(t, rs, r, f).ruleSet == rs.meta.name
  {
  }

  /** A flow that a shadowed translation rule would take is always dropped. */
  lemma ShadowedIsDropped(t: Tree, rs: RuleSet, i: nat, f: Flow)
    requires CleanTree(t) && rs in t.ruleSets && i < |rs.spec.rules| && Shadowed(t, rs.spec.rules, i)
    requires f.inIf in Side(t, rs.spec.from) && Translates(t, rs.spec.rules[i], f)
    ensures Decide(t, f).action == Drop && Decide(t, f).ruleSet == rs.meta.name
  {
    RulesByName(t, rs);
    ShadowedNotFirst(t, rs.spec.rules, i, f);
    OnlyTranslation(t, rs, rs.spec.rules[i], f);
    DnatVerdictDrops(t, rs, rs.spec.rules[i], f);
  }

  /** On a clean configuration a rule that can translate a flow is the one
      that does. */
  lemma OnlyTranslation(t: Tree, rs: RuleSet, r: Rule, f: Flow)
    requires CleanTree(t) && rs in t.ruleSets && DnatHit(t, rs, r, f)
    ensures Decide(t, f) == DnatVerdict(t, rs, r, f)
  {
    FirstDnatTranslates(t, t.ruleSets, f);
    var p := FirstDnat(t, t.ruleSets, f);
    TranslatesTakesPart(t, r, f);
    TranslatesTakesPart(t, p.value.1, f);
    DnatUnique(t, f, rs, r, p.value.0, p.value.1);
  }
}
