/** The checks of RuleSets, routes and DHCP servers agree with what is lawful. */
module TrafficRules {
  import opened Prelude
  import opened Ipv4
  import opened Intervals
  import opened Model
  import opened Expand
  import opened Matching
  import opened Routing
  import opened Classify
  import opened Clean
  import opened Guarantees
  import opened Limits
  import opened Counting
  import opened Readings
  import opened ObjectRules
  import D = DhcpRules
  import F = Facts
  import L = Lawful
  import V = Validator

  // ---- sides ----------------------------------------------------------------------------------

  lemma {:induction false} MemberSide(t: Tree, n: Name)
    requires UniqueNames(t) && NamesNotEmpty(t) && ZonesDisjoint(t)
    ensures ZoneOfSide(t, n) != "" <==> L.IsMember(t, n)
  {
    InterfaceRead(t, n);
    if z :| F.ZoneHas(t, z, n) {
      ZoneOfListed(t, z, n);
      ZoneNameNotEmpty(t, z);
    }
    if ZoneOf(t.zones, n) != "" {
      var z := ListingZone(t, n);
    }
  }

  lemma {:induction false} SameZoneRead(t: Tree, a: Name, b: Name)
    requires UniqueNames(t) && NamesNotEmpty(t) && ZonesDisjoint(t) && L.IsMember(t, a) && L.IsMember(t, b)
    ensures ZoneOfSide(t, a) == ZoneOfSide(t, b) <==> L.SameZone(t, a, b)
  {
    InterfaceRead(t, a);
    InterfaceRead(t, b);
    var x :| F.ZoneHas(t, x, a);
    var y :| F.ZoneHas(t, y, b);
    ZoneOfListed(t, x, a);
    ZoneOfListed(t, y, b);
    CleanNames(t);
    if z :| F.ZoneHas(t, z, a) && F.ZoneHas(t, z, b) {
      ZoneOfListed(t, z, a);
      ZoneOfListed(t, z, b);
    }
  }

  lemma {:induction false} SideLawful(t: Tree, s: RuleSetSpec)
    requires UniqueNames(t) && NamesNotEmpty(t) && ZonesDisjoint(t)
    ensures SidesRespectZones(t, s) <==> L.LawfulSide(t, s)
  {
    MemberSide(t, s.from);
    MemberSide(t, s.to);
    if L.IsMember(t, s.from) && L.IsMember(t, s.to) { SameZoneRead(t, s.from, s.to); }
  }

  ghost predicate SideFits(t: Tree, s: RuleSetSpec) {
    InNetwork(t, s.from) && InNetwork(t, s.to) && s.from != s.to && SidesRespectZones(t, s)
  }

  lemma {:induction false} SidesByMember(t: Tree)
    ensures SidesExist(t) && SidesDiffer(t) && ZonesRespected(t) <==>
      forall rs :: rs in t.ruleSets ==> SideFits(t, rs.spec)
  {
    if SidesExist(t) && SidesDiffer(t) && ZonesRespected(t) {
      forall rs | rs in t.ruleSets ensures SideFits(t, rs.spec) {
        var i :| 0 <= i < |t.ruleSets| && t.ruleSets[i] == rs;
      }
    }
    if forall rs :: rs in t.ruleSets ==> SideFits(t, rs.spec) {
      forall i | 0 <= i < |t.ruleSets| ensures SideFits(t, t.ruleSets[i].spec) {
        assert t.ruleSets[i] in t.ruleSets;
      }
    }
  }

  lemma {:induction false} RuleNamesLawful(t: Tree)
    ensures RuleNamesUnique(t) <==>
      forall rs, j, k :: rs in t.ruleSets && 0 <= j < k < |rs.spec.rules| ==> rs.spec.rules[j].name != rs.spec.rules[k].name
  {
    if RuleNamesUnique(t) {
      forall rs, j, k | rs in t.ruleSets && 0 <= j < k < |rs.spec.rules|
        ensures rs.spec.rules[j].name != rs.spec.rules[k].name
      {
        var i :| 0 <= i < |t.ruleSets| && t.ruleSets[i] == rs;
      }
    }
    if forall rs, j, k :: rs in t.ruleSets && 0 <= j < k < |rs.spec.rules| ==> rs.spec.rules[j].name != rs.spec.rules[k].name {
      forall i, j, k | 0 <= i < |t.ruleSets| && 0 <= j < k < |t.ruleSets[i].spec.rules|
        ensures t.ruleSets[i].spec.rules[j].name != t.ruleSets[i].spec.rules[k].name
      {
        assert t.ruleSets[i] in t.ruleSets;
      }
    }
  }

  /** DM-02, DM-06, DM-07, DM-38, and DM-01 for rules. */
  lemma {:induction false} RuleSetsLawful(t: Tree)
    requires UniqueNames(t) && NamesNotEmpty(t) && ZonesDisjoint(t)
    ensures V.SidesHold(t) && RuleNamesUnique(t) <==> L.LawfulRuleSets(t)
  {
    SidesByMember(t);
    RuleNamesLawful(t);
    forall rs: RuleSet ensures SideFits(t, rs.spec) <==>
      L.InNetwork(t, rs.spec.from) && L.InNetwork(t, rs.spec.to) && rs.spec.from != rs.spec.to && L.LawfulSide(t, rs.spec)
    {
      InterfaceRead(t, rs.spec.from);
      InterfaceRead(t, rs.spec.to);
      SideLawful(t, rs.spec);
    }
  }

  // ---- routes ---------------------------------------------------------------------------------

  lemma {:induction false} NetworkRead(p: Prefix, q: Prefix)
    requires p.bits == q.bits
    ensures Masked(p) == Masked(q) <==> F.InBlock(p, q.addr)
  {
    BlockRead(p, q.addr);
    MaskedContains(p, q.addr);
    MaskedContains(q, q.addr);
    if Contains(p, q.addr) { SameLengthMeet(p, q, q.addr); }
  }

  lemma {:induction false} TieRead(a: StaticRouteSpec, b: StaticRouteSpec)
    ensures RouteKey(a) == RouteKey(b) <==> L.Tied(a, b)
  {
    if a.destination.bits == b.destination.bits { NetworkRead(a.destination, b.destination); }
  }

  /** DM-23. */
  lemma {:induction false} RoutesLawful(l: seq<Object<StaticRouteSpec>>)
    ensures NoTies(l) <==> L.LawfulRoutes(l)
  {
    forall i, j | 0 <= i < j < |l| ensures RouteKey(l[i].spec) == RouteKey(l[j].spec) <==> L.Tied(l[i].spec, l[j].spec) {
      TieRead(l[i].spec, l[j].spec);
    }
  }

  // ---- servers --------------------------------------------------------------------------------

  lemma {:induction false} OwnsRead(t: Tree, n: Name, p: Prefix)
    requires UniqueNames(t)
    ensures p in D.PrefixesOf(t, n) <==> L.Owns(t, n, p)
  {
    CleanNames(t);
    FindSound(t.interfaces, n);
    forall o: Object<InterfaceSpec> ensures p in StaticAddresses(o.spec) <==> exists k :: F.HasAddress(o, k, p) {
      AddressRead(o, p);
    }
  }

  lemma {:induction false} FitRead(t: Tree, s: DhcpServerSpec)
    requires UniqueNames(t) && SubnetsDisjoint(t.interfaces) && IsInterface(t, s.iface)
    ensures D.RangeFits(t, s) && D.GatewayFits(t, s) <==> L.LawfulServer(t, s)
  {
    var l := D.PrefixesOf(t, s.iface);
    D.InAnySound(s.rangeStart, l);
    forall p, x: U32 ensures Contains(p, x) <==> F.InBlock(p, x) {
      BlockRead(p, x);
    }
    if D.RangeFits(t, s) && D.GatewayFits(t, s) {
      var p := D.RangeSubnet(t, s).value;
      OwnsRead(t, s.iface, p);
    }
    if L.LawfulServer(t, s) {
      var p :| L.Owns(t, s.iface, p) && F.InBlock(p, s.rangeStart) && F.InBlock(p, s.rangeEnd) && !L.Within(s, p.addr) &&
        (s.gateway.Some? ==> F.InBlock(p, s.gateway.value) && !L.Within(s, s.gateway.value));
      OwnsRead(t, s.iface, p);
      FirstIsOnly(t, s.iface, s.rangeStart, p);
    }
  }

  lemma {:induction false} FirstIsOnly(t: Tree, n: Name, x: U32, p: Prefix)
    requires UniqueNames(t) && SubnetsDisjoint(t.interfaces) && p in D.PrefixesOf(t, n) && Contains(p, x)
    ensures D.InAny(x, D.PrefixesOf(t, n)) == Some(p)
  {
    D.InAnySound(x, D.PrefixesOf(t, n));
    var q := D.InAny(x, D.PrefixesOf(t, n)).value;
    D.PrefixIsOwned(t, n, p);
    D.PrefixIsOwned(t, n, q);
    OwnedUnique(t.interfaces, (n, p), (n, q), x);
  }

  /** DM-25 to DM-27 and R-017.3. */
  lemma {:induction false} ServersLawful(t: Tree)
    requires UniqueNames(t) && SubnetsDisjoint(t.interfaces)
    ensures D.ServersResolve(t) && D.ServedOnce(t) && D.RangesFit(t) && D.GatewaysFit(t) <==> L.LawfulServers(t)
  {
    forall d | d in t.dhcp && IsInterface(t, d.spec.iface)
      ensures D.RangeFits(t, d.spec) && D.GatewayFits(t, d.spec) <==> L.LawfulServer(t, d.spec)
    {
      FitRead(t, d.spec);
    }
    forall d: Object<DhcpServerSpec> ensures IsInterface(t, d.spec.iface) <==> F.Named(t.interfaces, d.spec.iface) {
      InterfaceRead(t, d.spec.iface);
    }
    ServersByMember(t);
  }

  ghost predicate ServerFits(t: Tree, s: DhcpServerSpec) {
    IsInterface(t, s.iface) && D.RangeFits(t, s) && D.GatewayFits(t, s)
  }

  lemma {:induction false} ServersByMember(t: Tree)
    ensures D.ServersResolve(t) && D.RangesFit(t) && D.GatewaysFit(t) <==>
      forall d :: d in t.dhcp ==> ServerFits(t, d.spec)
  {
    if D.ServersResolve(t) && D.RangesFit(t) && D.GatewaysFit(t) {
      forall d | d in t.dhcp ensures ServerFits(t, d.spec) {
        var i :| 0 <= i < |t.dhcp| && t.dhcp[i] == d;
      }
    }
    if forall d :: d in t.dhcp ==> ServerFits(t, d.spec) {
      forall i | 0 <= i < |t.dhcp| ensures ServerFits(t, t.dhcp[i].spec) {
        assert t.dhcp[i] in t.dhcp;
      }
    }
  }

  // ---- translations ---------------------------------------------------------------------------

  /** What makes the sets of the check mean what the rules say. */
  ghost predicate Readable(t: Tree) {
    UniqueNames(t) && NamesNotEmpty(t) && ZonesListInterfaces(t) && RangesOk(t) && AllPortsOk(t)
  }

  lemma {:induction false} SharedNameSound(a: seq<Name>, b: seq<Name>)
    ensures SharedName(a, b) != "" ==> SharedName(a, b) in a && SharedName(a, b) in b
  {
    if a != [] && a[0] !in b { SharedNameSound(a[1..], b); }
  }

  lemma {:induction false} SharedSideRead(t: Tree, a: Name, b: Name)
    requires Readable(t)
    ensures SharedName(Side(t, a), Side(t, b)) != "" <==> L.SharesSide(t, a, b)
  {
    var (x, y) := (Side(t, a), Side(t, b));
    SharedNameSound(x, y);
    SideNamesNotEmpty(t, a);
    forall n ensures (n in x <==> F.OnSide(t, a, n)) && (n in y <==> F.OnSide(t, b, n)) {
      SideRead(t, a, n);
      SideRead(t, b, n);
    }
    if n :| n in x && n in y { SharedNameFound(x, y, n); }
  }

  lemma {:induction false} AddressSetRead(t: Tree, refs: seq<Name>, a: U32)
    requires Readable(t)
    ensures InSet(AddrSetOf(AddressGraph(t), refs), a) <==> F.RefsHold(t, refs, a)
  {
    RangesGiveGraph(t);
    AddrSetAgrees(AddressGraph(t), refs, a);
    AddressesRead(t, refs, a);
  }

  lemma {:induction false} SharedAddressRead(t: Tree, x: Rule, y: Rule)
    requires Readable(t)
    ensures AddrOverlaps(AddrSetOf(AddressGraph(t), x.destination), AddrSetOf(AddressGraph(t), y.destination)) <==>
      L.SharesAddress(t, x, y)
  {
    var g := AddressGraph(t);
    AddrSetOrdered(g, x.destination);
    AddrSetOrdered(g, y.destination);
    AddrOverlapsIff(AddrSetOf(g, x.destination), AddrSetOf(g, y.destination));
    forall a: U32
      ensures InSet(AddrSetOf(g, x.destination), a) <==> F.RefsHold(t, x.destination, a)
      ensures InSet(AddrSetOf(g, y.destination), a) <==> F.RefsHold(t, y.destination, a)
    {
      AddressSetRead(t, x.destination, a);
      AddressSetRead(t, y.destination, a);
    }
  }

  lemma {:induction false} ServiceSetRead(t: Tree, x: Rule, q: string, p: U32)
    requires Readable(t)
    ensures p <= MAX_PORT && InSvc(SvcSetOf(ServiceGraph(t), x.service), q, p) <==> L.Serves(t, x, q, p)
  {
    if p <= MAX_PORT {
      SvcSetAgrees(ServiceGraph(t), x.service, q, p);
      ServicesRead(t, x.service, q, p);
    }
  }

  /** Ports of a set are ports, unless it is "any". */
  ghost predicate Bounded(s: SvcSet) {
    forall q, i :: q in s.ports && 0 <= i < |s.ports[q]| ==> s.ports[q][i].hi <= MAX_PORT
  }

  lemma {:induction false} MeetBounded(a: SvcSet, b: SvcSet)
    requires Bounded(a) && Bounded(b)
    ensures SvcMeet(a, b) <==> exists q: string, p: U32 :: p <= MAX_PORT && InSvc(a, q, p) && InSvc(b, q, p)
  {
    if q: string, p: U32 :| InSvc(a, q, p) && InSvc(b, q, p) {
      assert p > MAX_PORT ==> a.any && b.any && InSvc(a, q, 0) && InSvc(b, q, 0);
    }
  }

  lemma {:induction false} EmptyBounded(a: SvcSet)
    requires SvcOrdered(a) && Bounded(a) && !a.any
    ensures a.ports == map[] <==> forall q: string, p: U32 :: !(p <= MAX_PORT && InSvc(a, q, p))
  {
    SvcWitness(a);
    if a.ports != map[] {
      var q: string, p: U32 :| InSvc(a, q, p);
      assert p <= MAX_PORT;
    }
  }

  lemma {:induction false} SharedServiceRead(t: Tree, x: Rule, y: Rule)
    requires Readable(t)
    ensures SvcOverlaps(SvcSetOf(ServiceGraph(t), x.service), SvcSetOf(ServiceGraph(t), y.service)) <==>
      L.SharesService(t, x, y)
  {
    var g := ServiceGraph(t);
    var (a, b) := (SvcSetOf(g, x.service), SvcSetOf(g, y.service));
    PortsGiveGraph(t);
    SvcSetOrdered(g, x.service);
    SvcSetOrdered(g, y.service);
    SvcOverlapsIff(a, b);
    MeetBounded(a, b);
    forall q: string, p: U32
      ensures p <= MAX_PORT && InSvc(a, q, p) <==> L.Serves(t, x, q, p)
      ensures p <= MAX_PORT && InSvc(b, q, p) <==> L.Serves(t, y, q, p)
    {
      ServiceSetRead(t, x, q, p);
      ServiceSetRead(t, y, q, p);
    }
    if !a.any { EmptyBounded(a); }
    if !b.any { EmptyBounded(b); }
    ServesAnything(t, x);
    ServesAnything(t, y);
  }

  lemma {:induction false} ServesAnything(t: Tree, x: Rule)
    ensures x.service == ["any"] ==> !L.ServesNothing(t, x)
  {
    assert x.service == ["any"] ==> L.Serves(t, x, "", 0);
  }

  lemma {:induction false} ClashRead(t: Tree, rs: RuleSet, k: nat, rs': RuleSet, m: nat)
    requires Readable(t) && k < |rs.spec.rules| && m < |rs'.spec.rules|
    ensures Clash(DnatOf(t, rs, k), DnatOf(t, rs', m)) <==> L.Collide(t, rs, rs.spec.rules[k], rs', rs'.spec.rules[m])
  {
    SharedSideRead(t, rs.spec.from, rs'.spec.from);
    SharedAddressRead(t, rs.spec.rules[k], rs'.spec.rules[m]);
    SharedServiceRead(t, rs.spec.rules[k], rs'.spec.rules[m]);
  }

  lemma {:induction false} CollideSymmetric(t: Tree, rs: RuleSet, x: Rule, rs': RuleSet, y: Rule)
    ensures L.Collide(t, rs, x, rs', y) <==> L.Collide(t, rs', y, rs, x)
  {
  }

  /** No rule of a list clashes with a later one. */
  ghost predicate Pairwise(ds: seq<DnatRule>) { forall i, j :: 0 <= i < j < |ds| ==> !Clash(ds[i], ds[j]) }

  ghost predicate Across(a: seq<DnatRule>, b: seq<DnatRule>) { forall d, e :: d in a && e in b ==> !Clash(d, e) }

  lemma {:induction false} PairwiseConcat(a: seq<DnatRule>, b: seq<DnatRule>)
    ensures Pairwise(a + b) <==> Pairwise(a) && Pairwise(b) && Across(a, b)
  {
    var c := a + b;
    assert forall i :: 0 <= i < |a| ==> c[i] == a[i];
    assert forall i :: 0 <= i < |b| ==> c[|a| + i] == b[i];
    if Pairwise(c) {
      forall i, j | 0 <= i < |a| && 0 <= j < |b| ensures !Clash(a[i], b[j]) {
        assert !Clash(c[i], c[|a| + j]);
      }
      forall i, j | 0 <= i < j < |a| ensures !Clash(a[i], a[j]) {
        assert !Clash(c[i], c[j]);
      }
      forall i, j | 0 <= i < j < |b| ensures !Clash(b[i], b[j]) {
        assert !Clash(c[|a| + i], c[|a| + j]);
      }
    }
  }

  lemma {:induction false} OfRulesMembers(t: Tree, rs: RuleSet, from: nat, d: DnatRule)
    requires from <= |rs.spec.rules|
    ensures d in DnatsOfRules(t, rs, from) <==>
      exists k :: from <= k < |rs.spec.rules| && TakesPart(rs.spec.rules[k]) && d == DnatOf(t, rs, k)
    decreases |rs.spec.rules| - from
  {
    if from < |rs.spec.rules| { OfRulesMembers(t, rs, from + 1, d); }
  }

  ghost predicate IsKept(t: Tree, l: seq<RuleSet>, i: int, k: int, d: DnatRule) {
    && 0 <= i < |l| && 0 <= k < |l[i].spec.rules|
    && TakesPart(l[i].spec.rules[k]) && d == DnatOf(t, l[i], k)
  }

  lemma {:induction false} OfMembers(t: Tree, l: seq<RuleSet>, d: DnatRule)
    ensures d in DnatsOf(t, l) <==> exists i, k :: IsKept(t, l, i, k, d)
  {
    if l != [] {
      OfRulesMembers(t, l[0], 0, d);
      OfMembers(t, l[1..], d);
      if k :| 0 <= k < |l[0].spec.rules| && TakesPart(l[0].spec.rules[k]) && d == DnatOf(t, l[0], k) {
        assert IsKept(t, l, 0, k, d);
      }
      if i, k :| IsKept(t, l[1..], i, k, d) {
        assert IsKept(t, l, i + 1, k, d);
      }
      if i, k :| IsKept(t, l, i, k, d) {
        if i > 0 { assert IsKept(t, l[1..], i - 1, k, d); }
      }
    }
  }

  /** Rules of one RuleSet, from a place on. */
  ghost predicate AloneFrom(t: Tree, rs: RuleSet, from: int) {
    forall k, m, x, y :: from <= k && L.RuleAt(rs, k, x) && L.RuleAt(rs, m, y) && k < m ==>
      !L.Collide(t, rs, x, rs, y)
  }

  ghost predicate ClearOf(t: Tree, rs: RuleSet, l: seq<RuleSet>) {
    forall k, x, j, m, y :: L.RuleAt(rs, k, x) && L.TargetAt(l, j, m, y) ==> !L.Collide(t, rs, x, l[j], y)
  }

  lemma {:induction false} AloneRead(t: Tree, rs: RuleSet, from: nat)
    requires Readable(t) && from <= |rs.spec.rules|
    ensures Pairwise(DnatsOfRules(t, rs, from)) <==> AloneFrom(t, rs, from)
    decreases |rs.spec.rules| - from
  {
    if from < |rs.spec.rules| {
      AloneRead(t, rs, from + 1);
      var x := rs.spec.rules[from];
      if TakesPart(x) {
        assert DnatsOfRules(t, rs, from) == [DnatOf(t, rs, from)] + DnatsOfRules(t, rs, from + 1);
        PairwiseConcat([DnatOf(t, rs, from)], DnatsOfRules(t, rs, from + 1));
        AloneStep(t, rs, from);
      } else {
        assert DnatsOfRules(t, rs, from) == DnatsOfRules(t, rs, from + 1);
        AloneSkip(t, rs, from);
      }
    }
  }

  lemma {:induction false} AloneSkip(t: Tree, rs: RuleSet, from: nat)
    requires from < |rs.spec.rules| && !TakesPart(rs.spec.rules[from])
    ensures AloneFrom(t, rs, from) <==> AloneFrom(t, rs, from + 1)
  {
    if AloneFrom(t, rs, from + 1) {
      forall k, m, x, y | from <= k && L.RuleAt(rs, k, x) && L.RuleAt(rs, m, y) && k < m
        ensures !L.Collide(t, rs, x, rs, y)
      {
        TargetsRead(x);
        assert k != from;
      }
    }
  }

  lemma {:induction false} TargetsRead(x: Rule)
    ensures TakesPart(x) <==> L.HasTarget(x)
  {
  }

  lemma {:induction false} AloneStep(t: Tree, rs: RuleSet, from: nat)
    requires Readable(t) && from < |rs.spec.rules| && TakesPart(rs.spec.rules[from])
    ensures AloneFrom(t, rs, from) <==>
      AloneFrom(t, rs, from + 1) && Across([DnatOf(t, rs, from)], DnatsOfRules(t, rs, from + 1))
  {
    var (d, ds) := (DnatOf(t, rs, from), DnatsOfRules(t, rs, from + 1));
    if AloneFrom(t, rs, from) {
      forall e | e in ds ensures !Clash(d, e) {
        AloneClear(t, rs, from, e);
      }
    }
    if AloneFrom(t, rs, from + 1) && Across([d], ds) {
      forall k, m, x, y | from <= k && L.RuleAt(rs, k, x) && L.RuleAt(rs, m, y) && k < m
        ensures !L.Collide(t, rs, x, rs, y)
      {
        if k == from { ClearLater(t, rs, from, m, y); }
      }
    }
  }

  lemma {:induction false} AloneClear(t: Tree, rs: RuleSet, from: nat, e: DnatRule)
    requires Readable(t) && from < |rs.spec.rules| && TakesPart(rs.spec.rules[from]) && AloneFrom(t, rs, from)
    requires e in DnatsOfRules(t, rs, from + 1)
    ensures !Clash(DnatOf(t, rs, from), e)
  {
    OfRulesMembers(t, rs, from + 1, e);
    var m :| from + 1 <= m < |rs.spec.rules| && TakesPart(rs.spec.rules[m]) && e == DnatOf(t, rs, m);
    NoneCollides(t, rs, from, m);
    ClashRead(t, rs, from, rs, m);
  }

  lemma {:induction false} NoneCollides(t: Tree, rs: RuleSet, from: nat, m: nat)
    requires AloneFrom(t, rs, from) && from < m < |rs.spec.rules|
    requires TakesPart(rs.spec.rules[from]) && TakesPart(rs.spec.rules[m])
    ensures !L.Collide(t, rs, rs.spec.rules[from], rs, rs.spec.rules[m])
  {
    assert L.RuleAt(rs, from, rs.spec.rules[from]) && L.RuleAt(rs, m, rs.spec.rules[m]);
  }

  lemma {:induction false} ClearLater(t: Tree, rs: RuleSet, from: nat, m: int, y: Rule)
    requires Readable(t) && from < m && L.RuleAt(rs, m, y)
    requires Across([DnatOf(t, rs, from)], DnatsOfRules(t, rs, from + 1))
    ensures !L.Collide(t, rs, rs.spec.rules[from], rs, y)
  {
    var (d, e) := (DnatOf(t, rs, from), DnatOf(t, rs, m));
    OfRulesMembers(t, rs, from + 1, e);
    assert d in [d] && !Clash(d, e);
    ClashRead(t, rs, from, rs, m);
  }

  lemma {:induction false} AcrossRead(t: Tree, rs: RuleSet, l: seq<RuleSet>)
    requires Readable(t)
    ensures Across(DnatsOfRules(t, rs, 0), DnatsOf(t, l)) <==> ClearOf(t, rs, l)
  {
    if Across(DnatsOfRules(t, rs, 0), DnatsOf(t, l)) {
      forall k, x, j, m, y | L.RuleAt(rs, k, x) && L.TargetAt(l, j, m, y) ensures !L.Collide(t, rs, x, l[j], y) {
        AcrossClear(t, rs, l, k, x, j, m, y);
      }
    }
    if ClearOf(t, rs, l) {
      forall d, e | d in DnatsOfRules(t, rs, 0) && e in DnatsOf(t, l) ensures !Clash(d, e) {
        ClearAcross(t, rs, l, d, e);
      }
    }
  }

  lemma {:induction false} AcrossClear(t: Tree, rs: RuleSet, l: seq<RuleSet>, k: int, x: Rule, j: int, m: int, y: Rule)
    requires Readable(t) && Across(DnatsOfRules(t, rs, 0), DnatsOf(t, l))
    requires L.RuleAt(rs, k, x) && L.TargetAt(l, j, m, y)
    ensures !L.Collide(t, rs, x, l[j], y)
  {
    var (d, e) := (DnatOf(t, rs, k), DnatOf(t, l[j], m));
    OfRulesMembers(t, rs, 0, d);
    OfMembers(t, l, e);
    assert IsKept(t, l, j, m, e);
    assert !Clash(d, e);
    ClashRead(t, rs, k, l[j], m);
  }

  lemma {:induction false} ClearAcross(t: Tree, rs: RuleSet, l: seq<RuleSet>, d: DnatRule, e: DnatRule)
    requires Readable(t) && ClearOf(t, rs, l) && d in DnatsOfRules(t, rs, 0) && e in DnatsOf(t, l)
    ensures !Clash(d, e)
  {
    OfRulesMembers(t, rs, 0, d);
    OfMembers(t, l, e);
    var k :| 0 <= k < |rs.spec.rules| && TakesPart(rs.spec.rules[k]) && d == DnatOf(t, rs, k);
    var j, m :| IsKept(t, l, j, m, e);
    assert L.RuleAt(rs, k, rs.spec.rules[k]) && L.TargetAt(l, j, m, l[j].spec.rules[m]);
    ClashRead(t, rs, k, l[j], m);
  }

  lemma {:induction false} TranslationsCons(t: Tree, l: seq<RuleSet>)
    requires l != []
    ensures L.LawfulTranslations(t, l) <==>
      AloneFrom(t, l[0], 0) && ClearOf(t, l[0], l[1..]) && L.LawfulTranslations(t, l[1..])
  {
    var (rs, rest) := (l[0], l[1..]);
    if L.LawfulTranslations(t, l) {
      forall k, m, x, y | 0 <= k && L.RuleAt(rs, k, x) && L.RuleAt(rs, m, y) && k < m
        ensures !L.Collide(t, rs, x, rs, y)
      {
        assert L.TargetAt(l, 0, k, x) && L.TargetAt(l, 0, m, y);
      }
      forall k, x, j, m, y | L.RuleAt(rs, k, x) && L.TargetAt(rest, j, m, y) ensures !L.Collide(t, rs, x, rest[j], y) {
        assert L.TargetAt(l, 0, k, x) && L.TargetAt(l, j + 1, m, y);
      }
      forall i, m, x, j, n, y | L.TargetAt(rest, i, m, x) && L.TargetAt(rest, j, n, y) && (i, m) != (j, n)
        ensures !L.Collide(t, rest[i], x, rest[j], y)
      {
        assert L.TargetAt(l, i + 1, m, x) && L.TargetAt(l, j + 1, n, y);
      }
    }
    if AloneFrom(t, rs, 0) && ClearOf(t, rs, rest) && L.LawfulTranslations(t, rest) {
      forall i, m, x, j, n, y | L.TargetAt(l, i, m, x) && L.TargetAt(l, j, n, y) && (i, m) != (j, n)
        ensures !L.Collide(t, l[i], x, l[j], y)
      {
        PlacesApart(t, l, i, m, x, j, n, y);
      }
    }
  }

  lemma {:induction false} PlacesApart(t: Tree, l: seq<RuleSet>, i: int, m: int, x: Rule, j: int, n: int, y: Rule)
    requires l != [] && AloneFrom(t, l[0], 0) && ClearOf(t, l[0], l[1..]) && L.LawfulTranslations(t, l[1..])
    requires L.TargetAt(l, i, m, x) && L.TargetAt(l, j, n, y) && (i, m) != (j, n)
    ensures !L.Collide(t, l[i], x, l[j], y)
  {
    CollideSymmetric(t, l[i], x, l[j], y);
    if i > 0 {
      assert L.TargetAt(l[1..], i - 1, m, x);
    } else {
      assert L.RuleAt(l[0], m, x);
    }
    if j > 0 {
      assert L.TargetAt(l[1..], j - 1, n, y);
    } else {
      assert L.RuleAt(l[0], n, y);
    }
  }

  /** DM-41. */
  lemma {:induction false} TranslationsLawful(t: Tree, l: seq<RuleSet>)
    requires Readable(t)
    ensures Pairwise(DnatsOf(t, l)) <==> L.LawfulTranslations(t, l)
  {
    if l != [] {
      TranslationsLawful(t, l[1..]);
      TranslationsCons(t, l);
      PairwiseConcat(DnatsOfRules(t, l[0], 0), DnatsOf(t, l[1..]));
      AloneRead(t, l[0], 0);
      AcrossRead(t, l[0], l[1..]);
    }
  }

  // ---- the limit ------------------------------------------------------------------------------

  lemma {:induction false} HeldRead(t: Tree, refs: seq<Name>)
    requires Readable(t) && !IsAny(refs)
    ensures Elements(AddrSetOf(AddressGraph(t), refs).ivs) == L.Held(t, refs)
  {
    var ivs := AddrSetOf(AddressGraph(t), refs).ivs;
    forall a ensures a in Elements(ivs) <==> a in L.Held(t, refs) {
      if 0 <= a < TWO_32 { AddressSetRead(t, refs, a); }
    }
  }

  lemma {:induction false} AddressSpotsRead(t: Tree, x: Rule)
    requires Readable(t)
    ensures AddressSpots(AddrSetOf(AddressGraph(t), x.destination)) == L.AddressSpotsOf(t, x)
  {
    if !IsAny(x.destination) {
      HeldRead(t, x.destination);
      AddrSetOrdered(AddressGraph(t), x.destination);
      NoneHeld(AddrSetOf(AddressGraph(t), x.destination).ivs);
    }
  }

  lemma {:induction false} NoneHeld(s: seq<Iv>)
    requires Ordered(s)
    ensures s == [] <==> Elements(s) == {}
  {
    if s != [] {
      assert Has(s, s[0].lo);
      assert s[0].lo in Elements(s);
    }
  }

  lemma {:induction false} PortRead(t: Tree, x: Rule, q: string, p: int)
    requires Readable(t) && !IsAny(x.service)
    ensures var s := SvcSetOf(ServiceGraph(t), x.service);
      q in s.ports && Has(s.ports[q], p) <==> 0 <= p <= 65535 && L.Serves(t, x, q, p)
  {
    var s := SvcSetOf(ServiceGraph(t), x.service);
    PortsGiveGraph(t);
    SvcSetOrdered(ServiceGraph(t), x.service);
    if 0 <= p < TWO_32 { ServiceSetRead(t, x, q, p); }
  }

  lemma {:induction false} PortsServedRead(t: Tree, x: Rule, q: string)
    requires Readable(t) && !IsAny(x.service)
    ensures PortsIn(SvcSetOf(ServiceGraph(t), x.service), q) == L.PortsServed(t, x, q)
  {
    var s := SvcSetOf(ServiceGraph(t), x.service);
    forall p ensures q in s.ports && Has(s.ports[q], p) <==> 0 <= p <= 65535 && L.Serves(t, x, q, p) {
      PortRead(t, x, q, p);
    }
    ServedTagged(s, q, L.PortsServed(t, x, q));
  }

  lemma {:induction false} ServedTagged(s: SvcSet, q: string, served: set<(string, int)>)
    requires forall p :: (q, p) in served <==> q in s.ports && Has(s.ports[q], p)
    requires forall y :: y in served ==> y.0 == q
    ensures PortsIn(s, q) == served
  {
    forall y | y in PortsIn(s, q) ensures y in served {
      var p: int := y.1;
      assert Has(s.ports[q], p) && y == (q, p);
    }
    forall y | y in served ensures y in PortsIn(s, q) {
      var p: int := y.1;
      assert y == (q, p) && Has(s.ports[q], p) && p in Elements(s.ports[q]);
    }
  }

  lemma {:induction false} PortSpotsRead(t: Tree, x: Rule)
    requires Readable(t)
    ensures PortSpots(SvcSetOf(ServiceGraph(t), x.service)) == L.PortSpotsOf(t, x)
  {
    if !IsAny(x.service) {
      PortsServedRead(t, x, "tcp");
      PortsServedRead(t, x, "udp");
      PortsServedRead(t, x, "sctp");
    }
  }

  lemma {:induction false} WeightRead(t: Tree, rs: RuleSet, k: nat)
    requires Readable(t) && k < |rs.spec.rules|
    ensures Entries(DnatOf(t, rs, k)) == L.Weight(t, rs.spec.rules[k]) && SetsOrdered(DnatOf(t, rs, k))
  {
    var x := rs.spec.rules[k];
    PortsGiveGraph(t);
    SvcSetOrdered(ServiceGraph(t), x.service);
    AddrSetOrdered(AddressGraph(t), x.destination);
    EntriesArePlaces(DnatOf(t, rs, k));
    AddressSpotsRead(t, x);
    PortSpotsRead(t, x);
  }

  lemma {:induction false} TotalAppend(a: seq<DnatRule>, b: seq<DnatRule>)
    ensures TotalEntries(a + b) == TotalEntries(a) + TotalEntries(b)
  {
    if a == [] {
      assert a + b == b;
    } else {
      assert (a + b)[1..] == a[1..] + b;
      TotalAppend(a[1..], b);
    }
  }

  lemma {:induction false} RulesWeightRead(t: Tree, rs: RuleSet, from: nat)
    requires Readable(t) && from <= |rs.spec.rules|
    ensures TotalEntries(DnatsOfRules(t, rs, from)) == L.RulesWeight(t, rs.spec.rules[from..])
    decreases |rs.spec.rules| - from
  {
    if from < |rs.spec.rules| {
      RulesWeightRead(t, rs, from + 1);
      var rest := rs.spec.rules[from..];
      assert rest[0] == rs.spec.rules[from] && rest[1..] == rs.spec.rules[from + 1..];
      TargetsRead(rs.spec.rules[from]);
      if TakesPart(rs.spec.rules[from]) {
        WeightRead(t, rs, from);
        TotalOne(DnatOf(t, rs, from), DnatsOfRules(t, rs, from + 1));
        assert DnatsOfRules(t, rs, from) == [DnatOf(t, rs, from)] + DnatsOfRules(t, rs, from + 1);
      } else {
        assert DnatsOfRules(t, rs, from) == DnatsOfRules(t, rs, from + 1);
      }
    }
  }

  lemma {:induction false} TotalOne(d: DnatRule, ds: seq<DnatRule>)
    ensures TotalEntries([d] + ds) == Entries(d) + TotalEntries(ds)
  {
    assert ([d] + ds)[1..] == ds;
  }

  lemma {:induction false} TotalWeightRead(t: Tree, l: seq<RuleSet>)
    requires Readable(t)
    ensures TotalEntries(DnatsOf(t, l)) == L.TotalWeight(t, l)
  {
    if l != [] {
      TotalWeightRead(t, l[1..]);
      RulesWeightRead(t, l[0], 0);
      assert l[0].spec.rules[0..] == l[0].spec.rules;
      TotalAppend(DnatsOfRules(t, l[0], 0), DnatsOf(t, l[1..]));
    }
  }

  /** The limit is exceeded exactly when the rules have more than 16384 places. */
  lemma {:induction false} LimitLawful(t: Tree)
    requires Readable(t)
    ensures !LimitHit(0, DnatsOf(t, t.ruleSets)) <==> L.TotalWeight(t, t.ruleSets) <= 16384
  {
    V.AcceptedWithinLimit(t);
    TotalWeightRead(t, t.ruleSets);
  }

  // ---- shadowed translations ------------------------------------------------------------------

  lemma {:induction false} CoversAddressesRead(t: Tree, a: seq<Name>, b: seq<Name>)
    requires Readable(t)
    ensures AddrCovers(AddrSetOf(AddressGraph(t), a), AddrSetOf(AddressGraph(t), b)) <==> L.TakesInAddresses(t, a, b)
  {
    var g := AddressGraph(t);
    AddrSetOrdered(g, a);
    AddrSetOrdered(g, b);
    AddrCoversIff(AddrSetOf(g, a), AddrSetOf(g, b));
    forall x: U32
      ensures InSet(AddrSetOf(g, a), x) <==> F.RefsHold(t, a, x)
      ensures InSet(AddrSetOf(g, b), x) <==> F.RefsHold(t, b, x)
    {
      AddressSetRead(t, a, x);
      AddressSetRead(t, b, x);
    }
  }

  ghost predicate IncludesPorts(a: SvcSet, b: SvcSet) {
    forall q: string, p: U32 :: p <= MAX_PORT && InSvc(b, q, p) ==> p <= MAX_PORT && InSvc(a, q, p)
  }

  lemma {:induction false} CoversBounded(a: SvcSet, b: SvcSet)
    requires SvcOrdered(a) && SvcOrdered(b) && Bounded(a) && Bounded(b)
    ensures SvcCovers(a, b) <==> (b.any ==> a.any) && IncludesPorts(a, b)
  {
    SvcCoversIff(a, b);
    if (b.any ==> a.any) && IncludesPorts(a, b) {
      forall q: string, p: U32 | InSvc(b, q, p) ensures InSvc(a, q, p) {
        assert !b.any ==> p <= MAX_PORT;
      }
    }
  }

  lemma {:induction false} CoversServicesRead(t: Tree, x: Rule, y: Rule)
    requires Readable(t)
    ensures SvcCovers(SvcSetOf(ServiceGraph(t), x.service), SvcSetOf(ServiceGraph(t), y.service)) <==>
      L.TakesInServices(t, x, y)
  {
    var g := ServiceGraph(t);
    PortsGiveGraph(t);
    SvcSetOrdered(g, x.service);
    SvcSetOrdered(g, y.service);
    CoversBounded(SvcSetOf(g, x.service), SvcSetOf(g, y.service));
    forall q: string, p: U32
      ensures p <= MAX_PORT && InSvc(SvcSetOf(g, x.service), q, p) <==> L.Serves(t, x, q, p)
      ensures p <= MAX_PORT && InSvc(SvcSetOf(g, y.service), q, p) <==> L.Serves(t, y, q, p)
    {
      ServiceSetRead(t, x, q, p);
      ServiceSetRead(t, y, q, p);
    }
  }

  /** The warning is given exactly for a rule all of whose flows one enabled
      rule before it takes. */
  lemma {:induction false} ShadowsRead(t: Tree, rules: seq<Rule>, i: nat)
    requires Readable(t) && i < |rules|
    ensures Shadowed(t, rules, i) <==> L.HasShadow(t, rules, i)
  {
    forall j | 0 <= j < i
      ensures ShadowedBy(t, rules, i, j) <==> rules[j].enabled != Some(false) && L.TakesIn(t, rules[j], rules[i])
    {
      CoversAddressesRead(t, rules[j].source, rules[i].source);
      CoversAddressesRead(t, rules[j].destination, rules[i].destination);
      CoversServicesRead(t, rules[j], rules[i]);
    }
  }
}
