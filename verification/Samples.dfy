/** Accepted configurations that show what sections and checks leave open: a
    Zone, a pool and two spellings of a network. */
module Samples {
  import opened Prelude
  import opened Ipv4
  import opened Model
  import opened Expand
  import opened Cycles
  import opened Matching
  import opened Routing
  import opened Classify
  import opened Clean
  import opened Limits
  import opened DhcpRules
  import C = Compile
  import V = Validator

  function Plain(n: Name): Meta { Meta(n, "", "", "", "", map[]) }

  const LOCAL := Object(Plain("a"), InterfaceSpec(true, "eth0", "", 0, None, 0, "", [], None, None))
  const UPLINK := Object(Plain("b"), InterfaceSpec(true, "eth1", "", 0, None, 0, "", [],
                                                   Some(IPv4Config(Mode4.Static, [Prefix(1, 0)], None)), None))

  /** What every appliance has besides: the System, the palette and the Users. */
  datatype Basis = Basis(system: Object<SystemSpec>, colors: seq<Object<string>>, users: seq<Object<string>>)

  /** Names are unique, and the System names no other object. */
  ghost predicate Sensible(b: Basis) {
    && KeysDistinct(DocsOf(ColorKind, b.colors)) && KeysDistinct(DocsOf(UserKind, b.users))
    && b.system.spec.trustedHosts == None && b.system.spec.dns == None && b.system.spec.ntp == None
  }

  /** Two Interfaces, one of which reaches every address, and nothing served or
      grouped. */
  ghost predicate Small(b: Basis, t: Tree) {
    && t.system == [b.system] && t.colors == b.colors && t.users == b.users && t.interfaces == [LOCAL, UPLINK]
    && t.dhcp == [] && t.addressGroups == [] && t.services == [] && t.serviceGroups == []
  }

  lemma UplinkRoute(t: Tree, dst: U32)
    requires t.interfaces == [LOCAL, UPLINK] && t.routes == []
    ensures RouteOf(t, V4(dst)) == "b"
  {
    var c := Candidate("b", 0, 0, 0);
    UplinkConnected(t.interfaces, dst);
    assert Candidates(t, V4(dst)) == [c];
    assert Best(None, [c]) == Best(Some(c), []) by { assert [c][1..] == []; }
  }

  lemma UplinkConnected(l: seq<Object<InterfaceSpec>>, dst: U32)
    requires l == [LOCAL, UPLINK]
    ensures Connected(l, V4(dst)) == [Candidate("b", 0, 0, 0)]
  {
    UplinkHolds(dst);
    var c := Candidate("b", 0, 0, 0);
    assert Hits("b", [Prefix(1, 0)], V4(dst)) == [c] by { assert [Prefix(1, 0)][1..] == []; }
    assert l[1..] == [UPLINK] && [UPLINK][1..] == [];
    assert Connected([UPLINK], V4(dst)) == [c];
  }

  lemma UplinkHolds(dst: U32)
    ensures Holds(Prefix(1, 0), V4(dst))
  {
    Pow2Of32();
    MaskedContains(Prefix(1, 0), dst);
    DivUnique(dst, TWO_32, 0, dst);
    DivUnique(1, TWO_32, 0, 1);
  }

  /** Names of the network, of Addresses and of RuleSets. */
  function OwnDocs(t: Tree): seq<Doc> {
    DocsOf(InterfaceKind, t.interfaces) + (DocsOf(ZoneKind, t.zones) + (DocsOf(RouteKind, t.routes)
      + (DocsOf(AddressKind, t.addresses) + DocsOf(RuleSetKind, t.ruleSets))))
  }

  lemma SmallObjects(b: Basis, t: Tree)
    requires Small(b, t)
    ensures ObjectDocs(t) ==
      DocsOf(AddressKind, t.addresses) + (DocsOf(RuleSetKind, t.ruleSets) + DocsOf(UserKind, b.users))
  {
    assert DocsOf(DhcpKind, t.dhcp) == [] && DocsOf(AddressGroupKind, t.addressGroups) == [];
    assert DocsOf(ServiceKind, t.services) == [] && DocsOf(ServiceGroupKind, t.serviceGroups) == [];
  }

  lemma SmallDocs(b: Basis, t: Tree)
    requires Small(b, t)
    ensures Docs(t) ==
      DocsOf(SystemKind, t.system) + (DocsOf(ColorKind, b.colors) + (OwnDocs(t) + DocsOf(UserKind, b.users)))
  {
    SmallObjects(b, t);
    var (i, z, r) := (DocsOf(InterfaceKind, t.interfaces), DocsOf(ZoneKind, t.zones), DocsOf(RouteKind, t.routes));
    var (a, s, u) := (DocsOf(AddressKind, t.addresses), DocsOf(RuleSetKind, t.ruleSets), DocsOf(UserKind, b.users));
    Regroup(i, z, r, a, s, u);
  }

  lemma Regroup<D>(i: seq<D>, z: seq<D>, r: seq<D>, a: seq<D>, s: seq<D>, u: seq<D>)
    ensures i + (z + (r + (a + (s + u)))) == i + (z + (r + (a + s))) + u
  {
    Assoc(a, s, u);
    Assoc(r, a + s, u);
    Assoc(z, r + (a + s), u);
    Assoc(i, z + (r + (a + s)), u);
  }

  /** Objects of these kinds share no name with the System, Colors or Users. */
  ghost predicate OwnKinds(l: seq<Doc>) {
    forall d :: d in l ==> NamespaceOf(d.kind) in {NetworkNS, RouteNS, AddressNS, RuleSetNS}
  }

  /** Names that are unique among themselves are unique in the appliance. */
  lemma SmallNames(b: Basis, t: Tree)
    requires Sensible(b) && Small(b, t) && KeysDistinct(OwnDocs(t))
    ensures UniqueNames(t)
  {
    SmallDocs(b, t);
    OwnDocsKinds(t);
    DocsKind(ColorKind, b.colors);
    DocsKind(UserKind, b.users);
    DocsOne(SystemKind, t.system);
    var s := Doc(SystemKind, b.system.meta.name);
    FourLists(s, DocsOf(ColorKind, b.colors), OwnDocs(t), DocsOf(UserKind, b.users));
  }

  lemma FourLists(s: Doc, c: seq<Doc>, o: seq<Doc>, u: seq<Doc>)
    requires KeysDistinct(c) && KeysDistinct(o) && KeysDistinct(u) && OwnKinds(o) && s.kind == SystemKind
    requires (forall d :: d in c ==> d.kind == ColorKind) && (forall d :: d in u ==> d.kind == UserKind)
    ensures KeysDistinct([s] + (c + (o + u)))
  {
    JoinDistinct(o, u);
    JoinDistinct(c, o + u);
    JoinDistinct([s], c + (o + u));
  }

  lemma OwnDocsKinds(t: Tree)
    ensures OwnKinds(OwnDocs(t))
  {
    DocsOwn(InterfaceKind, t.interfaces);
    DocsOwn(ZoneKind, t.zones);
    DocsOwn(RouteKind, t.routes);
    DocsOwn(AddressKind, t.addresses);
    DocsOwn(RuleSetKind, t.ruleSets);
    OwnTogether(DocsOf(InterfaceKind, t.interfaces), DocsOf(ZoneKind, t.zones), DocsOf(RouteKind, t.routes),
                DocsOf(AddressKind, t.addresses), DocsOf(RuleSetKind, t.ruleSets));
  }

  lemma OwnTogether(i: seq<Doc>, z: seq<Doc>, r: seq<Doc>, a: seq<Doc>, s: seq<Doc>)
    requires OwnKinds(i) && OwnKinds(z) && OwnKinds(r) && OwnKinds(a) && OwnKinds(s)
    ensures OwnKinds(i + (z + (r + (a + s))))
  {
  }

  lemma DocsOwn<S>(k: Kind, l: seq<Object<S>>)
    requires NamespaceOf(k) in {NetworkNS, RouteNS, AddressNS, RuleSetNS}
    ensures OwnKinds(DocsOf(k, l))
  {
    DocsKind(k, l);
  }

  lemma DocsKind<S>(k: Kind, l: seq<Object<S>>)
    ensures forall d :: d in DocsOf(k, l) ==> d.kind == k
  {
  }

  lemma TwoApart(a: Doc, b: Doc)
    requires !SameKey(a, b)
    ensures KeysDistinct([a, b])
  {
  }

  /** The names of the two Interfaces and of two more objects. */
  lemma FourApart(c: Doc, d: Doc)
    requires NamespaceOf(c.kind) != NetworkNS && NamespaceOf(d.kind) != NetworkNS && !SameKey(c, d)
    ensures KeysDistinct([Doc(InterfaceKind, "a"), Doc(InterfaceKind, "b"), c, d])
  {
    var (x, y) := ([Doc(InterfaceKind, "a"), Doc(InterfaceKind, "b")], [c, d]);
    TwoApart(x[0], x[1]);
    TwoApart(c, d);
    JoinDistinct(x, y);
    assert x + y == [Doc(InterfaceKind, "a"), Doc(InterfaceKind, "b"), c, d];
  }

  lemma DocsOne<S>(k: Kind, l: seq<Object<S>>)
    requires |l| == 1
    ensures DocsOf(k, l) == [Doc(k, l[0].meta.name)]
  {
  }

  lemma DocsTwo<S>(k: Kind, l: seq<Object<S>>)
    requires |l| == 2
    ensures DocsOf(k, l) == [Doc(k, l[0].meta.name), Doc(k, l[1].meta.name)]
  {
  }

  lemma InterfaceDocs(t: Tree)
    requires t.interfaces == [LOCAL, UPLINK]
    ensures DocsOf(InterfaceKind, t.interfaces) == [Doc(InterfaceKind, "a"), Doc(InterfaceKind, "b")]
  {
    DocsTwo(InterfaceKind, t.interfaces);
  }

  /** What is left to check of a small configuration. */
  lemma SmallAccepted(b: Basis, t: Tree)
    requires Small(b, t) && UniqueNames(t) && ZonesListInterfaces(t) && ZonesDisjoint(t) && RangesOk(t)
    requires V.SidesHold(t) && RuleNamesUnique(t) && DnatsOf(t, t.ruleSets) == [] && NoTies(t.routes)
    ensures V.Accepted(t)
  {
    UplinkSubnets(t.interfaces);
    NoGroups(t.addressGroups);
    NoGroups(t.serviceGroups);
    assert AllPortsOk(t) && V.ObjectsHold(t);
    SmallTraffic(t);
  }

  lemma SmallTraffic(t: Tree)
    requires t.dhcp == [] && DnatsOf(t, t.ruleSets) == []
    ensures !LimitHit(0, DnatsOf(t, t.ruleSets)) && DnatsDisjoint(t)
    ensures ServersResolve(t) && ServedOnce(t) && RangesFit(t) && GatewaysFit(t)
  {
  }

  lemma NoGroups(l: seq<Object<GroupSpec>>)
    requires l == []
    ensures !HasCycle(V.GroupLinks(l))
  {
  }

  lemma UplinkSubnets(l: seq<Object<InterfaceSpec>>)
    requires l == [LOCAL, UPLINK]
    ensures SubnetsDisjoint(l) && HostAddresses(l)
  {
    assert l[1..] == [UPLINK] && [UPLINK][1..] == [];
    assert Owned([UPLINK]) == OwnedBy("b", StaticAddresses(UPLINK.spec));
    assert Owned(l) == [("b", Prefix(1, 0))];
    UplinkSuits();
  }

  lemma UplinkSuits()
    ensures SuitsInterface(Prefix(1, 0))
  {
    Pow2Of32();
    DivUnique(1, TWO_32, 0, 1);
  }

  lemma SmallInterfaces(t: Tree)
    requires t.interfaces == [LOCAL, UPLINK]
    ensures IsInterface(t, "a") && IsInterface(t, "b")
  {
    assert t.interfaces[1..] == [UPLINK];
  }

  lemma NoTranslations(t: Tree, l: seq<RuleSet>)
    requires forall rs, x :: rs in l && x in rs.spec.rules ==> !TakesPart(x)
    ensures DnatsOf(t, l) == []
  {
    if l != [] {
      NoTranslationsIn(t, l[0], 0);
      NoTranslations(t, l[1..]);
    }
  }

  lemma NoTranslationsIn(t: Tree, rs: RuleSet, k: nat)
    requires k <= |rs.spec.rules| && forall x :: x in rs.spec.rules ==> !TakesPart(x)
    ensures DnatsOfRules(t, rs, k) == []
    decreases |rs.spec.rules| - k
  {
    if k < |rs.spec.rules| { NoTranslationsIn(t, rs, k + 1); }
  }

  // ---- members of a Zone -----------------------------------------------------------------------

  /** A Zone that allows traffic among its members. */
  function Zoned(b: Basis, members: seq<Name>): Tree {
    Tree([b.system], b.colors, [LOCAL, UPLINK], [Object(Plain("z"), ZoneSpec(members, Allow))],
         [], [], [], [], [], [], [], b.users)
  }

  lemma ZonedZones(b: Basis, members: seq<Name>)
    ensures ZoneOf(Zoned(b, members).zones, "a") == (if "a" in members then "z" else "")
    ensures ZoneOf(Zoned(b, members).zones, "b") == (if "b" in members then "z" else "")
    ensures Find(Zoned(b, members).zones, "z") == Some(ZoneSpec(members, Allow))
    ensures C.IntraZones(Zoned(b, members).zones) == map["z" := Allow]
  {
  }

  /** Some of the Interfaces, each once. */
  ghost predicate Members(l: seq<Name>) { NoDup(l) && forall n :: n in l ==> n == "a" || n == "b" }

  lemma ZonedAccepted(b: Basis, members: seq<Name>)
    requires Sensible(b)
    requires Members(members)
    ensures V.Accepted(Zoned(b, members))
  {
    var t := Zoned(b, members);
    ZonedNames(b, members);
    ZonedMembers(b, members);
    NoTranslations(t, t.ruleSets);
    SmallAccepted(b, t);
  }

  lemma ZonedNames(b: Basis, members: seq<Name>)
    requires Sensible(b)
    ensures UniqueNames(Zoned(b, members))
  {
    var t := Zoned(b, members);
    InterfaceDocs(t);
    DocsOne(ZoneKind, t.zones);
    assert OwnDocs(t) == [Doc(InterfaceKind, "a"), Doc(InterfaceKind, "b"), Doc(ZoneKind, "z")];
    SmallNames(b, t);
  }

  lemma ZonedMembers(b: Basis, members: seq<Name>)
    requires Members(members)
    ensures ZonesListInterfaces(Zoned(b, members)) && ZonesDisjoint(Zoned(b, members))
  {
    var t := Zoned(b, members);
    SmallInterfaces(t);
    assert t.zones[0].spec.interfaces == members;
    forall z, k | MemberAt(t, z, k) ensures z == 0 && IsInterface(t, t.zones[z].spec.interfaces[k]) {
      assert members[k] in members;
    }
  }

  lemma ZonedVerdict(b: Basis, members: seq<Name>, f: Flow)
    requires f.inIf == "a" && "a" in members
    ensures Decide(Zoned(b, members), f).action == Accept <==> "b" in members
  {
    UplinkRoute(Zoned(b, members), f.dst);
    ZonedZones(b, members);
  }

  lemma ZonedPlan(b: Basis, r: C.Renderer, m: seq<Name>, n: seq<Name>)
    requires Sensible(b)
    ensures C.PlanOf(r, Zoned(b, m)) == C.PlanOf(r, Zoned(b, n))
  {
    ZonedZones(b, m);
    ZonedZones(b, n);
  }

  /** Membership in a Zone reaches no section, yet it decides traffic inside the
      Zone: two such configurations are accepted and have the same sections, and
      a flow that enters at the first Interface is accepted by the one whose Zone
      has the second Interface and dropped by the other. */
  lemma MembersUnseen(b: Basis, r: C.Renderer, both: seq<Name>, one: seq<Name>, f: Flow)
    requires Sensible(b)
    requires Members(both) && Members(one) && f.inIf == "a" && "a" in both && "a" in one
    requires "b" in both && "b" !in one
    ensures V.Accepted(Zoned(b, both)) && V.Accepted(Zoned(b, one))
    ensures C.PlanOf(r, Zoned(b, both)) == C.PlanOf(r, Zoned(b, one))
    ensures Decide(Zoned(b, both), f).action == Accept && Decide(Zoned(b, one), f).action == Drop
  {
    ZonedAccepted(b, both);
    ZonedAccepted(b, one);
    ZonedVerdict(b, both, f);
    ZonedVerdict(b, one, f);
    ZonedPlan(b, r, both, one);
  }

  // ---- the address of a pool --------------------------------------------------------------------

  const ACCEPT_ALL := Rule("out", "", "", None, [ANY], [ANY], [ANY], Accept, "", Some(Nat(Snat, "p", "")), "")
  const OUTBOUND := Object(Plain("r"), RuleSetSpec("a", "b", [ACCEPT_ALL]))

  /** Everything may leave, with a source address from a pool of one address. */
  function Pooled(b: Basis, n: U32): Tree {
    Tree([b.system], b.colors, [LOCAL, UPLINK], [], [], [],
         [Object(Plain("p"), AddressSpec("", Subnet(Prefix(n, 32))))], [], [], [], [OUTBOUND], b.users)
  }

  lemma PoolAddress(b: Basis, n: U32)
    ensures FirstIp(Pooled(b, n), "p") == Some(V4(n))
  {
    var g := AddressGraph(Pooled(b, n));
    WalkOne(g, "p", {});
    assert "p" in g.leaves && g.leaves["p"] == AddressSpec("", Subnet(Prefix(n, 32)));
    assert Expanded(g, "p") == [g.leaves["p"]];
  }

  lemma PooledGoverns(b: Basis, n: U32)
    ensures Governing(Pooled(b, n), Pooled(b, n).ruleSets, "a", "b") == Some(OUTBOUND)
  {
    SmallInterfaces(Pooled(b, n));
    assert Side(Pooled(b, n), "a") == ["a"];
    assert Side(Pooled(b, n), "b") == ["b"];
  }

  lemma OutboundFirst(t: Tree, f: Flow)
    ensures FirstPolicy(t, OUTBOUND.spec.rules, f) == Some(ACCEPT_ALL)
    ensures FirstDnat(t, [OUTBOUND], f) == None
  {
    assert [ACCEPT_ALL][1..] == [] && [OUTBOUND][1..] == [];
    assert FirstTranslation(t, [ACCEPT_ALL], f) == None;
  }

  lemma PooledVerdict(b: Basis, n: U32, f: Flow)
    requires f.inIf == "a"
    ensures Decide(Pooled(b, n), f).action == Accept && Decide(Pooled(b, n), f).xsrc == Some(V4(n))
  {
    UplinkRoute(Pooled(b, n), f.dst);
    PooledGoverns(b, n);
    PoolAddress(b, n);
    OutboundFirst(Pooled(b, n), f);
  }

  lemma PooledPlan(b: Basis, r: C.Renderer, m: U32, n: U32)
    requires Sensible(b)
    ensures C.PlanOf(r, Pooled(b, m)) == C.PlanOf(r, Pooled(b, n))
  {
    var (t, u) := (Pooled(b, m), Pooled(b, n));
    assert C.EntryOf(r, t, ACCEPT_ALL) == C.EntryOf(r, u, ACCEPT_ALL);
    assert C.EntriesFor(r, t, [ACCEPT_ALL]) == C.EntriesFor(r, u, [ACCEPT_ALL]);
    assert C.CompiledRuleSets(r, t, [OUTBOUND]) == C.CompiledRuleSets(r, u, [OUTBOUND]);
  }

  lemma PooledAccepted(b: Basis, n: U32)
    requires Sensible(b)
    ensures V.Accepted(Pooled(b, n))
  {
    PooledNames(b, n);
    PooledSides(b, n);
    NoTranslations(Pooled(b, n), [OUTBOUND]);
    SmallAccepted(b, Pooled(b, n));
  }

  lemma PooledNames(b: Basis, n: U32)
    requires Sensible(b)
    ensures UniqueNames(Pooled(b, n))
  {
    var t := Pooled(b, n);
    InterfaceDocs(t);
    DocsOne(AddressKind, t.addresses);
    DocsOne(RuleSetKind, t.ruleSets);
    FourApart(Doc(AddressKind, "p"), Doc(RuleSetKind, "r"));
    assert OwnDocs(t) ==
      [Doc(InterfaceKind, "a"), Doc(InterfaceKind, "b"), Doc(AddressKind, "p"), Doc(RuleSetKind, "r")];
    SmallNames(b, t);
  }

  lemma PooledSides(b: Basis, n: U32)
    ensures V.SidesHold(Pooled(b, n)) && RuleNamesUnique(Pooled(b, n))
  {
    SmallInterfaces(Pooled(b, n));
  }

  /** What a pool resolves to reaches no section, yet it is the source address a
      flow leaves with: these configurations are accepted and have the same
      sections, and every flow that enters at the first Interface gets another
      verdict. */
  lemma PoolUnseen(b: Basis, r: C.Renderer, m: U32, n: U32, f: Flow)
    requires Sensible(b)
    requires f.inIf == "a" && m != n
    ensures V.Accepted(Pooled(b, m)) && V.Accepted(Pooled(b, n))
    ensures C.PlanOf(r, Pooled(b, m)) == C.PlanOf(r, Pooled(b, n))
    ensures Decide(Pooled(b, m), f) != Decide(Pooled(b, n), f)
  {
    PooledAccepted(b, m);
    PooledAccepted(b, n);
    PooledVerdict(b, m, f);
    PooledVerdict(b, n, f);
    PooledPlan(b, r, m, n);
  }

  // ---- two spellings of a network -----------------------------------------------------------------

  function RouteTo(name: Name, addr: U32, distance: nat): Object<StaticRouteSpec> {
    Object(Plain(name), StaticRouteSpec(Prefix(addr, 31), V4(1), "b", distance, 1))
  }

  /** Two routes to one network, of different distance, written with different
      host bits. */
  function TwoRoutes(n: U32): seq<Object<StaticRouteSpec>>
    requires n + 1 < TWO_32
  {
    [RouteTo("r", n, 10), RouteTo("s", n + 1, 20)]
  }

  function WithRoutes(b: Basis, l: seq<Object<StaticRouteSpec>>): Tree {
    Tree([b.system], b.colors, [LOCAL, UPLINK], [], l, [], [], [], [], [], [], b.users)
  }

  lemma RouteNames(b: Basis, l: seq<Object<StaticRouteSpec>>)
    requires Sensible(b)
    requires |l| == 2 && l[0].meta.name != l[1].meta.name
    ensures UniqueNames(WithRoutes(b, l))
  {
    var t := WithRoutes(b, l);
    InterfaceDocs(t);
    DocsTwo(RouteKind, t.routes);
    FourApart(Doc(RouteKind, l[0].meta.name), Doc(RouteKind, l[1].meta.name));
    assert OwnDocs(t) == [Doc(InterfaceKind, "a"), Doc(InterfaceKind, "b"), Doc(RouteKind, l[0].meta.name),
                          Doc(RouteKind, l[1].meta.name)];
    SmallNames(b, t);
  }

  lemma OneNetwork(n: U32)
    requires n % 2 == 0 && n + 1 < TWO_32
    ensures Masked(Prefix(n, 31)) == Prefix(n, 31) && Masked(Prefix(n + 1, 31)) == Prefix(n, 31)
  {
    assert Block(Prefix(n, 31)) == 2 * Pow2(0);
    assert (n + 1) % 2 == 1;
  }

  /** No check refuses two spellings of a network: these configurations are
      accepted, and the list of active routes has two for one network. */
  lemma SpellingsAccepted(b: Basis, n: U32)
    requires Sensible(b)
    requires n % 2 == 0 && n + 1 < TWO_32
    ensures V.Accepted(WithRoutes(b, TwoRoutes(n))) && !SpelledAlike(TwoRoutes(n))
    ensures IsActive(TwoRoutes(n), 0) && IsActive(TwoRoutes(n), 1) && !IsActiveForNetwork(TwoRoutes(n), 1)
  {
    var l := TwoRoutes(n);
    RouteNames(b, l);
    NoTranslations(WithRoutes(b, l), []);
    TwoSpellings(l, n);
    SmallAccepted(b, WithRoutes(b, l));
  }

  /** Two routes to one network, the first preferred. */
  ghost predicate Spelled(l: seq<Object<StaticRouteSpec>>, n: U32) {
    && n % 2 == 0 && n + 1 < TWO_32 && |l| == 2
    && l[0].spec.destination == Prefix(n, 31) && l[1].spec.destination == Prefix(n + 1, 31)
    && Preference(l[0].spec) == (10, 1) && Preference(l[1].spec) == (20, 1)
  }

  lemma TwoSpellings(l: seq<Object<StaticRouteSpec>>, n: U32)
    requires Spelled(l, n)
    ensures NoTies(l) && !SpelledAlike(l) && IsActive(l, 0) && IsActive(l, 1) && !IsActiveForNetwork(l, 1)
  {
    OneNetwork(n);
    var (x, y) := (Masked(l[0].spec.destination), Masked(l[1].spec.destination));
    assert x == y == Prefix(n, 31);
    TwoNotTied(l, n);
    TwoActive(l, n);
    assert l[0].spec.destination != l[1].spec.destination;
    SecondLoses(l, n);
  }

  lemma TwoNotTied(l: seq<Object<StaticRouteSpec>>, n: U32)
    requires Spelled(l, n)
    ensures NoTies(l)
  {
    assert RouteKey(l[0].spec).1 != RouteKey(l[1].spec).1;
  }

  lemma TwoActive(l: seq<Object<StaticRouteSpec>>, n: U32)
    requires Spelled(l, n)
    ensures IsActive(l, 0) && IsActive(l, 1)
  {
    forall i, j | 0 <= i < 2 && 0 <= j < 2 && l[j].spec.destination == l[i].spec.destination ensures i == j {
    }
    assert Wins(l, 0, 0) && Wins(l, 1, 1);
  }

  lemma SecondLoses(l: seq<Object<StaticRouteSpec>>, n: U32)
    requires Spelled(l, n) && Masked(l[0].spec.destination) == Masked(l[1].spec.destination)
    ensures !IsActiveForNetwork(l, 1)
  {
    assert !Wins(l, 1, 0);
  }
}
