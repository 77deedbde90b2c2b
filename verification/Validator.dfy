/** The semantic checks as they are programmed: methods that append findings.
    Each check is proved to report an error only where its rule is broken and to
    report none only when all its rules hold. */
module Validator {
  import opened Prelude
  import opened Findings
  import opened Ipv4
  import opened Intervals
  import opened Model
  import opened Expand
  import opened Cycles
  import opened Matching
  import opened Routing
  import opened Clean
  import opened Limits
  import opened Counting
  import opened DhcpRules
  import opened Guarantees

  // ---- names ----------------------------------------------------------------------

  function DocKey(d: Doc): (Namespace, Name) { (NamespaceOf(d.kind), d.name) }

  function DocKeys(l: seq<Doc>): set<(Namespace, Name)> { set d | d in l :: DocKey(d) }

  method CheckNames(t: Tree) returns (fs: seq<Finding>)
    ensures ErrorRules(fs) == (if UniqueNames(t) then {} else {UniqueName}) && WarningRules(fs) == {}
  {
    fs := CheckDocs(Docs(t));
  }

  method CheckDocs(docs: seq<Doc>) returns (fs: seq<Finding>)
    ensures ErrorRules(fs) == (if KeysDistinct(docs) then {} else {UniqueName}) && WarningRules(fs) == {}
  {
    fs := [];
    var seen: set<(Namespace, Name)> := {};
    for i := 0 to |docs|
      invariant seen == DocKeys(docs[..i])
      invariant ErrorRules(fs) == (if KeysDistinct(docs[..i]) then {} else {UniqueName}) && WarningRules(fs) == {}
    {
      assert docs[..i + 1] == docs[..i] + [docs[i]];
      KeysDistinctSnoc(docs[..i], docs[i]);
      if DocKey(docs[i]) in seen {
        fs := Add(fs, One(Blocks(UniqueName, docs[i].name, 0)));
      }
      seen := seen + {DocKey(docs[i])};
    }
    assert docs[..|docs|] == docs;
  }

  lemma KeysDistinctSnoc(l: seq<Doc>, d: Doc)
    ensures KeysDistinct(l + [d]) <==> KeysDistinct(l) && DocKey(d) !in DocKeys(l)
    ensures DocKeys(l + [d]) == DocKeys(l) + {DocKey(d)}
  {
    var m := l + [d];
    assert forall x :: x in m <==> x in l || x == d;
    if DocKey(d) in DocKeys(l) {
      var x :| x in l && DocKey(x) == DocKey(d);
      var i :| 0 <= i < |l| && l[i] == x;
      assert SameKey(m[i], m[|l|]);
    }
    forall i | 0 <= i < |l| ensures DocKey(l[i]) in DocKeys(l) {
      assert l[i] in l;
    }
    if KeysDistinct(m) {
      forall i, j | 0 <= i < j < |l| ensures !SameKey(l[i], l[j]) {
        assert !SameKey(m[i], m[j]);
      }
    }
  }

  // ---- zones ----------------------------------------------------------------------

  /** The members listed before a place. */
  ghost predicate Before(z: int, k: int, z': int, k': int) { z < z' || (z == z' && k < k') }

  ghost predicate ListedBefore(t: Tree, n: Name, z': int, k': int) {
    exists z, k :: MemberAt(t, z, k) && Before(z, k, z', k') && t.zones[z].spec.interfaces[k] == n
  }

  /** A member of a Zone that breaks a rule. */
  ghost predicate MemberBreaks(t: Tree, z: int, k: int, rule: RuleId)
    requires MemberAt(t, z, k)
  {
    var n := t.zones[z].spec.interfaces[k];
    match rule
    case DanglingRef => !InNetwork(t, n)
    case WrongKind => InNetwork(t, n) && !IsInterface(t, n)
    case ZoneOverlap => IsInterface(t, n) && ListedBefore(t, n, z, k)
    case _ => false
  }

  /** Some member before a place breaks a rule. */
  ghost predicate SomeMemberBreaks(t: Tree, z': int, k': int, rule: RuleId) {
    exists z, k :: MemberAt(t, z, k) && Before(z, k, z', k') && MemberBreaks(t, z, k, rule)
  }

  ghost predicate ZonesReported(t: Tree, es: set<RuleId>) {
    forall r :: r in es <==> SomeMemberBreaks(t, |t.zones|, 0, r)
  }

  /** A rule is reported exactly when a member breaks it. */
  method CheckZones(t: Tree) returns (fs: seq<Finding>)
    ensures ZonesReported(t, ErrorRules(fs))
    ensures ErrorRules(fs) <= {DanglingRef, WrongKind, ZoneOverlap} && WarningRules(fs) == {}
    ensures ErrorRules(fs) == {} <==> ZonesDisjoint(t) && ZonesListInterfaces(t)
  {
    fs := [];
    var zoneOf: map<Name, Name> := map[];
    for z := 0 to |t.zones|
      invariant ZonesSoFar(t, ErrorRules(fs), zoneOf.Keys, z, 0) && WarningRules(fs) == {}
    {
      var members := t.zones[z].spec.interfaces;
      for k := 0 to |members|
        invariant ZonesSoFar(t, ErrorRules(fs), zoneOf.Keys, z, k) && WarningRules(fs) == {}
      {
        ZonesStep(t, ErrorRules(fs), zoneOf.Keys, z, k);
        if !IsInterface(t, members[k]) {
          var rule := if InNetwork(t, members[k]) then WrongKind else DanglingRef;
          fs := Add(fs, One(Blocks(rule, t.zones[z].meta.name, k)));
        } else {
          if members[k] in zoneOf {
            fs := Add(fs, One(Blocks(ZoneOverlap, t.zones[z].meta.name, k)));
          }
          zoneOf := zoneOf[members[k] := t.zones[z].meta.name];
        }
      }
      ZonesNext(t, ErrorRules(fs), zoneOf.Keys, z);
    }
    ZonesAtEnd(t, ErrorRules(fs), zoneOf.Keys);
  }

  ghost predicate ZonesSoFar(t: Tree, es: set<RuleId>, listed: set<Name>, z: int, k: int) {
    && (forall r :: r in es <==> SomeMemberBreaks(t, z, k, r))
    && (forall n :: n in listed <==> IsInterface(t, n) && ListedBefore(t, n, z, k))
  }

  /** What one member adds. */
  ghost function MemberErrors(t: Tree, n: Name, listed: set<Name>): set<RuleId> {
    if !IsInterface(t, n) then {if InNetwork(t, n) then WrongKind else DanglingRef}
    else if n in listed then {ZoneOverlap}
    else {}
  }

  lemma ZonesStep(t: Tree, es: set<RuleId>, listed: set<Name>, z: int, k: int)
    requires MemberAt(t, z, k) && ZonesSoFar(t, es, listed, z, k)
    ensures var n := t.zones[z].spec.interfaces[k];
      ZonesSoFar(t, es + MemberErrors(t, n, listed), if IsInterface(t, n) then listed + {n} else listed, z, k + 1)
  {
    var n := t.zones[z].spec.interfaces[k];
    forall r ensures SomeMemberBreaks(t, z, k + 1, r) <==> SomeMemberBreaks(t, z, k, r) || MemberBreaks(t, z, k, r) {
    }
    forall x ensures ListedBefore(t, x, z, k + 1) <==> ListedBefore(t, x, z, k) || x == n {
    }
  }

  lemma ZonesNext(t: Tree, es: set<RuleId>, listed: set<Name>, z: int)
    requires 0 <= z < |t.zones| && ZonesSoFar(t, es, listed, z, |t.zones[z].spec.interfaces|)
    ensures ZonesSoFar(t, es, listed, z + 1, 0)
  {
    var k := |t.zones[z].spec.interfaces|;
    forall a, b | MemberAt(t, a, b) ensures Before(a, b, z + 1, 0) <==> Before(a, b, z, k) {
    }
    forall r ensures SomeMemberBreaks(t, z + 1, 0, r) <==> SomeMemberBreaks(t, z, k, r) {
    }
    forall x ensures ListedBefore(t, x, z + 1, 0) <==> ListedBefore(t, x, z, k) {
    }
  }

  lemma ZonesAtEnd(t: Tree, es: set<RuleId>, listed: set<Name>)
    requires ZonesSoFar(t, es, listed, |t.zones|, 0)
    ensures es <= {DanglingRef, WrongKind, ZoneOverlap}
    ensures es == {} <==> ZonesDisjoint(t) && ZonesListInterfaces(t)
  {
    if es == {} {
      ZonesClean(t);
    }
    if ZonesDisjoint(t) && ZonesListInterfaces(t) {
      forall r ensures !SomeMemberBreaks(t, |t.zones|, 0, r) {
      }
    }
  }

  lemma ZonesClean(t: Tree)
    requires forall r :: !SomeMemberBreaks(t, |t.zones|, 0, r)
    ensures ZonesDisjoint(t) && ZonesListInterfaces(t)
  {
    forall z, k | MemberAt(t, z, k)
      ensures IsInterface(t, t.zones[z].spec.interfaces[k]) && !ListedBefore(t, t.zones[z].spec.interfaces[k], z, k)
    {
      assert Before(z, k, |t.zones|, 0);
      assert !SomeMemberBreaks(t, |t.zones|, 0, DanglingRef) && !SomeMemberBreaks(t, |t.zones|, 0, WrongKind);
      assert !SomeMemberBreaks(t, |t.zones|, 0, ZoneOverlap);
    }
    forall z, k, z', k' | MemberAt(t, z, k) && MemberAt(t, z', k') && (z, k) != (z', k')
      ensures t.zones[z].spec.interfaces[k] != t.zones[z'].spec.interfaces[k']
    {
      assert Before(z, k, z', k') || Before(z', k', z, k);
    }
  }

  // ---- addresses, services, groups -------------------------------------------------------

  method CheckAddresses(t: Tree) returns (fs: seq<Finding>)
    ensures ErrorRules(fs) <= {RangeFamily, RangeOrder} && WarningRules(fs) <= WARNING_RULES
    ensures ErrorRules(fs) == {} <==> RangesOk(t)
  {
    fs := [];
    for i := 0 to |t.addresses|
      invariant ErrorRules(fs) <= {RangeFamily, RangeOrder} && WarningRules(fs) <= WARNING_RULES
      invariant ErrorRules(fs) == {} <==> forall k :: 0 <= k < i ==> RangeOk(t.addresses[k].spec.form)
    {
      var o := t.addresses[i];
      match o.spec.form
      case Range(s, e) =>
        if s.V4? != e.V4? {
          fs := Add(fs, One(Blocks(RangeFamily, o.meta.name, 0)));
        } else if Less(e, s) {
          fs := Add(fs, One(Blocks(RangeOrder, o.meta.name, 0)));
        }
      case Subnet(p) =>
        if Masked(p) != p {
          fs := Add(fs, One(Warns(CidrHostBits, o.meta.name, 0)));
        }
      case Subnet6(_, _, _) => fs := Add(fs, One(Warns(Ipv6Deferred, o.meta.name, 0)));
      case _ => fs := Add(fs, One(Warns(DataplaneUnsupported, o.meta.name, 0)));
    }
  }

  method CheckServices(t: Tree) returns (fs: seq<Finding>)
    ensures ErrorRules(fs) == (if AllPortsOk(t) then {} else {PortRangeRule}) && WarningRules(fs) == {}
  {
    fs := [];
    for i := 0 to |t.services|
      invariant ErrorRules(fs) ==
        if (forall k :: 0 <= k < i ==> PortsOk(t.services[k].spec)) then {} else {PortRangeRule}
      invariant WarningRules(fs) == {}
    {
      var bad := CheckPorts(t.services[i]);
      fs := Add(fs, bad);
    }
  }

  method CheckPorts(s: Object<ServiceSpec>) returns (fs: seq<Finding>)
    ensures ErrorRules(fs) == (if PortsOk(s.spec) then {} else {PortRangeRule}) && WarningRules(fs) == {}
  {
    fs := [];
    var l := s.spec.protocols;
    for k := 0 to |l|
      invariant ErrorRules(fs) ==
        if (forall j :: 0 <= j < k ==> PortOk(l[j].port) && PortOk(l[j].sourcePort)) then {} else {PortRangeRule}
      invariant WarningRules(fs) == {}
    {
      if !PortOk(l[k].port) {
        fs := Add(fs, One(Blocks(PortRangeRule, s.meta.name, k)));
      }
      if !PortOk(l[k].sourcePort) {
        fs := Add(fs, One(Blocks(PortRangeRule, s.meta.name, k)));
      }
    }
  }

  /** The links of a list of groups; a later group of the same name wins. */
  function GroupLinks(l: seq<Object<GroupSpec>>): Links {
    if l == [] then map[]
    else GroupLinks(l[..|l| - 1])[l[|l| - 1].meta.name := l[|l| - 1].spec.members]
  }

  method CheckGroups(l: seq<Object<GroupSpec>>) returns (fs: seq<Finding>)
    ensures ErrorRules(fs) == (if HasCycle(GroupLinks(l)) then {GroupCycle} else {}) && WarningRules(fs) == {}
  {
    var graph: Links := map[];
    var order: seq<Name> := [];
    for i := 0 to |l|
      invariant graph == GroupLinks(l[..i])
      invariant forall n :: n in order <==> n in graph
    {
      assert l[..i + 1][..i] == l[..i];
      graph := graph[l[i].meta.name := l[i].spec.members];
      order := order + [l[i].meta.name];
    }
    assert l[..|l|] == l;
    var reports := Cycles.Check(order, graph);
    fs := [];
    for i := 0 to |reports|
      invariant ErrorRules(fs) == (if i > 0 then {GroupCycle} else {}) && WarningRules(fs) == {}
    {
      fs := Add(fs, One(Blocks(GroupCycle, reports[i][|reports[i]| - 2], 0)));
    }
  }

  // ---- subnets and routes -----------------------------------------------------------------

  lemma ApartSnoc(l: seq<(Name, Prefix)>, x: (Name, Prefix))
    ensures Apart(l + [x]) <==> Apart(l) && forall i :: 0 <= i < |l| ==> !Overlaps(l[i].1, x.1)
  {
    var m := l + [x];
    if Apart(m) {
      forall i, j | 0 <= i < j < |l| ensures !Overlaps(l[i].1, l[j].1) {
        assert !Overlaps(m[i].1, m[j].1);
      }
      forall i | 0 <= i < |l| ensures !Overlaps(l[i].1, x.1) {
        assert !Overlaps(m[i].1, m[|l|].1);
      }
    }
  }

  /** The list kept by the check: the masked addresses met so far. */
  ghost predicate Kept(all: seq<Prefix>, met: seq<(Name, Prefix)>) {
    |all| == |met| && forall i :: 0 <= i < |all| ==> all[i] == Masked(met[i].1)
  }

  method CheckInterfaces(l: seq<Object<InterfaceSpec>>) returns (fs: seq<Finding>)
    ensures ErrorRules(fs) == Rules(!SubnetsDisjoint(l), SubnetOverlap) + Rules(!HostAddresses(l), InterfaceAddress)
    ensures WarningRules(fs) == {}
  {
    fs := [];
    var all: seq<Prefix> := [];
    ghost var met: seq<(Name, Prefix)> := [];
    for i := 0 to |l|
      invariant met + Owned(l[i..]) == Owned(l)
      invariant OverlapsReported(fs, all, met)
    {
      OwnedStep(l, i, met);
      fs, all, met := CheckAddressList(l[i].meta.name, StaticAddresses(l[i].spec), fs, all, met);
    }
    assert l[|l|..] == [] && met == Owned(l);
  }

  lemma OwnedStep(l: seq<Object<InterfaceSpec>>, i: nat, met: seq<(Name, Prefix)>)
    requires i < |l|
    ensures met + Owned(l[i..]) == met + OwnedBy(l[i].meta.name, StaticAddresses(l[i].spec)) + Owned(l[i + 1..])
  {
  }

  ghost predicate OverlapsReported(fs: seq<Finding>, all: seq<Prefix>, met: seq<(Name, Prefix)>) {
    && Kept(all, met) && WarningRules(fs) == {}
    && ErrorRules(fs) == Rules(!Apart(met), SubnetOverlap) + Rules(!HostsOnly(met), InterfaceAddress)
  }

  /** The loop over the addresses of one Interface. */
  method CheckAddressList(iface: Name, addresses: seq<Prefix>, fs0: seq<Finding>, all0: seq<Prefix>,
                          ghost met0: seq<(Name, Prefix)>)
    returns (fs: seq<Finding>, all: seq<Prefix>, ghost met: seq<(Name, Prefix)>)
    requires OverlapsReported(fs0, all0, met0)
    ensures OverlapsReported(fs, all, met) && met == met0 + OwnedBy(iface, addresses)
  {
    fs, all, met := fs0, all0, met0;
    ghost var own := OwnedBy(iface, addresses);
    for k := 0 to |addresses|
      invariant met == met0 + own[..k]
      invariant OverlapsReported(fs, all, met)
    {
      assert own[..k + 1] == own[..k] + [(iface, addresses[k])];
      fs := CheckAddress(iface, addresses[k], fs, all, met);
      all, met := all + [Masked(addresses[k])], met + [(iface, addresses[k])];
    }
    assert met == met0 + OwnedBy(iface, addresses);
  }

  method CheckAddress(iface: Name, p: Prefix, fs0: seq<Finding>, all: seq<Prefix>, ghost met: seq<(Name, Prefix)>)
    returns (fs: seq<Finding>)
    requires OverlapsReported(fs0, all, met)
    ensures OverlapsReported(fs, all + [Masked(p)], met + [(iface, p)])
  {
    var network := Masked(p) == p && p.bits < 31;
    fs := AddIf(fs0, network, InterfaceAddress, iface, |all|);
    var hits := CheckOverlap(iface, p, all, met);
    AddressStep(met, iface, p);
    fs := Add(fs, hits);
  }

  lemma AddressStep(met: seq<(Name, Prefix)>, iface: Name, p: Prefix)
    ensures Apart(met + [(iface, p)]) <==> Apart(met) && forall i :: 0 <= i < |met| ==> !Overlaps(met[i].1, p)
    ensures HostsOnly(met + [(iface, p)]) <==> HostsOnly(met) && SuitsInterface(p)
  {
    ApartSnoc(met, (iface, p));
    var m := met + [(iface, p)];
    assert m[|met|] == (iface, p) && forall i :: 0 <= i < |met| ==> m[i] == met[i];
  }

  method CheckOverlap(iface: Name, p: Prefix, all: seq<Prefix>, ghost met: seq<(Name, Prefix)>)
    returns (fs: seq<Finding>)
    requires Kept(all, met)
    ensures ErrorRules(fs) == if (forall i :: 0 <= i < |met| ==> !Overlaps(met[i].1, p)) then {} else {SubnetOverlap}
    ensures WarningRules(fs) == {}
  {
    fs := [];
    for j := 0 to |all|
      invariant ErrorRules(fs) == if (forall i :: 0 <= i < j ==> !Overlaps(met[i].1, p)) then {} else {SubnetOverlap}
      invariant WarningRules(fs) == {}
    {
      MaskedOverlaps(met[j].1, p);
      if Overlaps(all[j], p) {
        fs := Add(fs, One(Blocks(SubnetOverlap, iface, j)));
      }
    }
  }

  method CheckRoutes(l: seq<Object<StaticRouteSpec>>) returns (fs: seq<Finding>)
    ensures ErrorRules(fs) == (if NoTies(l) then {} else {RouteTie}) && WarningRules(fs) == {}
  {
    fs := [];
    var seen: map<(Prefix, (nat, nat)), Name> := map[];
    for i := 0 to |l|
      invariant forall k :: k in seen <==> exists j :: 0 <= j < i && RouteKey(l[j].spec) == k
      invariant ErrorRules(fs) == (if NoTies(l[..i]) then {} else {RouteTie}) && WarningRules(fs) == {}
    {
      var key := RouteKey(l[i].spec);
      NoTiesSnoc(l, i);
      if key in seen {
        fs := Add(fs, One(Blocks(RouteTie, l[i].meta.name, 0)));
      }
      seen := seen[key := l[i].meta.name];
    }
    assert l[..|l|] == l;
  }

  lemma NoTiesSnoc(l: seq<Object<StaticRouteSpec>>, i: nat)
    requires i < |l|
    ensures NoTies(l[..i + 1]) <==>
      NoTies(l[..i]) && forall j :: 0 <= j < i ==> RouteKey(l[j].spec) != RouteKey(l[i].spec)
  {
    var (a, b) := (RouteKeys(l[..i]), RouteKeys(l[..i + 1]));
    assert b == a + [RouteKey(l[i].spec)];
    TiesByKeys(l[..i]);
    TiesByKeys(l[..i + 1]);
    assert forall j :: 0 <= j < i ==> a[j] == RouteKey(l[j].spec);
    DistinctSnoc(a, RouteKey(l[i].spec));
  }

  function RouteKeys(l: seq<Object<StaticRouteSpec>>): seq<(Prefix, (nat, nat))> {
    seq(|l|, i requires 0 <= i < |l| => RouteKey(l[i].spec))
  }

  ghost predicate Distinct<K>(l: seq<K>) { forall i, j :: 0 <= i < j < |l| ==> l[i] != l[j] }

  lemma DistinctSnoc<K>(l: seq<K>, k: K)
    ensures Distinct(l + [k]) <==> Distinct(l) && forall j :: 0 <= j < |l| ==> l[j] != k
  {
    var m := l + [k];
    assert forall i :: 0 <= i < |l| ==> m[i] == l[i];
    assert m[|l|] == k;
  }

  lemma TiesByKeys(l: seq<Object<StaticRouteSpec>>)
    ensures NoTies(l) <==> Distinct(RouteKeys(l))
  {
    var keys := RouteKeys(l);
    forall i, j | 0 <= i < j < |l| ensures keys[i] == keys[j] <==> RouteKey(l[i].spec) == RouteKey(l[j].spec) {
    }
  }

  // ---- RuleSets ---------------------------------------------------------------------------

  const SIDE_RULES := {DanglingRef, SameSide, DuplicatePair, ZoneMember}

  /** A RuleSet whose sides break a rule. */
  ghost predicate SideBreaks(t: Tree, i: nat, rule: RuleId)
    requires i < |t.ruleSets|
  {
    var s := t.ruleSets[i].spec;
    match rule
    case DanglingRef => !(InNetwork(t, s.from) && InNetwork(t, s.to))
    case SameSide => s.from == s.to
    case DuplicatePair => PairBefore(t, s, i)
    case ZoneMember => InNetwork(t, s.from) && InNetwork(t, s.to) && s.from != s.to && !SidesRespectZones(t, s)
    case _ => false
  }

  ghost predicate PairBefore(t: Tree, s: RuleSetSpec, n: nat)
    requires n <= |t.ruleSets|
  {
    exists j :: 0 <= j < n && (t.ruleSets[j].spec.from, t.ruleSets[j].spec.to) == (s.from, s.to)
  }

  ghost predicate SomeSideBreaks(t: Tree, n: nat, rule: RuleId)
    requires n <= |t.ruleSets|
  {
    exists i :: 0 <= i < n && SideBreaks(t, i, rule)
  }

  ghost predicate SidesReported(t: Tree, es: set<RuleId>, n: nat)
    requires n <= |t.ruleSets|
  {
    forall r :: r in es <==> SomeSideBreaks(t, n, r)
  }

  /** What the errors about sides say. An Interface of a Zone is only reported
      in a RuleSet whose sides exist and differ. */
  ghost predicate SideErrors(t: Tree, es: set<RuleId>) {
    && es <= SIDE_RULES
    && (DanglingRef in es <==> !SidesExist(t))
    && (SameSide in es <==> !SidesDiffer(t))
    && (DuplicatePair in es <==> !PairsDistinct(t))
    && (ZoneMember in es <==> SomeSideBreaks(t, |t.ruleSets|, ZoneMember))
  }

  ghost predicate SidesHold(t: Tree) { SidesExist(t) && SidesDiffer(t) && PairsDistinct(t) && ZonesRespected(t) }

  /** A rule is reported exactly when the sides of a RuleSet break it. */
  method CheckSides(t: Tree) returns (fs: seq<Finding>)
    ensures SideErrors(t, ErrorRules(fs)) && WarningRules(fs) == {}
  {
    fs := [];
    var pairs: map<(Name, Name), Name> := map[];
    for i := 0 to |t.ruleSets|
      invariant SidesReported(t, ErrorRules(fs), i) && WarningRules(fs) == {}
      invariant forall k :: k in pairs <==>
        exists j :: 0 <= j < i && (t.ruleSets[j].spec.from, t.ruleSets[j].spec.to) == k
    {
      var name := t.ruleSets[i].meta.name;
      var s := t.ruleSets[i].spec;
      var one := CheckSide(t, name, s, (s.from, s.to) in pairs);
      SidesStep(t, i, ErrorRules(fs), ErrorRules(one));
      fs := Add(fs, one);
      pairs := pairs[(s.from, s.to) := name];
    }
    SidesExact(t, ErrorRules(fs));
  }

  lemma SidesStep(t: Tree, i: nat, es: set<RuleId>, one: set<RuleId>)
    requires i < |t.ruleSets| && SidesReported(t, es, i)
    requires SideRules(t, t.ruleSets[i].spec, PairBefore(t, t.ruleSets[i].spec, i), one)
    ensures SidesReported(t, es + one, i + 1)
  {
    forall r ensures r in one <==> SideBreaks(t, i, r) {
    }
    forall r ensures SomeSideBreaks(t, i + 1, r) <==> SomeSideBreaks(t, i, r) || SideBreaks(t, i, r) {
    }
  }

  lemma SidesExact(t: Tree, es: set<RuleId>)
    requires SidesReported(t, es, |t.ruleSets|)
    ensures SideErrors(t, es)
  {
    var n := |t.ruleSets|;
    forall r | r in es ensures r in SIDE_RULES {
      assert SomeSideBreaks(t, n, r);
    }
    forall r ensures r in es <==> SomeSideBreaks(t, n, r) {
    }
    SidesMean(t);
    PairsMean(t);
  }

  lemma SidesMean(t: Tree)
    ensures SomeSideBreaks(t, |t.ruleSets|, DanglingRef) <==> !SidesExist(t)
    ensures SomeSideBreaks(t, |t.ruleSets|, SameSide) <==> !SidesDiffer(t)
  {
    forall i | 0 <= i < |t.ruleSets|
      ensures SideBreaks(t, i, SameSide) <==> t.ruleSets[i].spec.from == t.ruleSets[i].spec.to
      ensures SideBreaks(t, i, DanglingRef) <==>
        !(InNetwork(t, t.ruleSets[i].spec.from) && InNetwork(t, t.ruleSets[i].spec.to))
    {
    }
  }

  lemma PairsMean(t: Tree)
    ensures SomeSideBreaks(t, |t.ruleSets|, DuplicatePair) <==> !PairsDistinct(t)
  {
    if !PairsDistinct(t) {
      var i, j :| 0 <= i < j < |t.ruleSets| &&
        (t.ruleSets[i].spec.from, t.ruleSets[i].spec.to) == (t.ruleSets[j].spec.from, t.ruleSets[j].spec.to);
      assert SideBreaks(t, j, DuplicatePair);
    }
  }

  /** No error about sides is reported exactly when all sides hold. */
  lemma SidesClean(t: Tree, es: set<RuleId>)
    requires SideErrors(t, es)
    ensures es == {} <==> SidesHold(t)
  {
    if SidesExist(t) && SidesDiffer(t) { MisplacedMeans(t); }
    assert forall r :: r in es ==> r == DanglingRef || r == SameSide || r == DuplicatePair || r == ZoneMember;
  }

  lemma MisplacedMeans(t: Tree)
    requires SidesExist(t) && SidesDiffer(t)
    ensures SomeSideBreaks(t, |t.ruleSets|, ZoneMember) <==> !ZonesRespected(t)
  {
    forall i | 0 <= i < |t.ruleSets|
      ensures SideBreaks(t, i, ZoneMember) <==> !SidesRespectZones(t, t.ruleSets[i].spec)
    {
    }
  }

  /** The errors of one RuleSet's sides. */
  ghost predicate SideRules(t: Tree, s: RuleSetSpec, taken: bool, es: set<RuleId>) {
    && es <= SIDE_RULES
    && (DanglingRef in es <==> !(InNetwork(t, s.from) && InNetwork(t, s.to)))
    && (SameSide in es <==> s.from == s.to)
    && (DuplicatePair in es <==> taken)
    && (ZoneMember in es <==>
        InNetwork(t, s.from) && InNetwork(t, s.to) && s.from != s.to && !SidesRespectZones(t, s))
  }

  /** The checks of one RuleSet's sides. */
  method CheckSide(t: Tree, name: Name, s: RuleSetSpec, taken: bool) returns (fs: seq<Finding>)
    ensures SideRules(t, s, taken, ErrorRules(fs)) && WarningRules(fs) == {}
  {
    var (okFrom, okTo) := (InNetwork(t, s.from), InNetwork(t, s.to));
    fs := ReportSide(name, okFrom, okTo, s.from == s.to, taken, ZoneOfSide(t, s.from), ZoneOfSide(t, s.to));
  }

  method ReportSide(name: Name, okFrom: bool, okTo: bool, same: bool, taken: bool, zf: Name, zt: Name)
    returns (fs: seq<Finding>)
    ensures ErrorRules(fs) == Rules(!(okFrom && okTo), DanglingRef) + Rules(same, SameSide)
      + Rules(taken, DuplicatePair) + Rules(okFrom && okTo && !same && !ZonesAgree(zf, zt), ZoneMember)
    ensures WarningRules(fs) == {}
  {
    fs := ReportMissing(name, okFrom, okTo);
    fs := AddIf(fs, same, SameSide, name, 0);
    fs := AddIf(fs, taken, DuplicatePair, name, 0);
    if okFrom && okTo && !same {
      var members := ReportMembers(name, zf, zt);
      fs := Add(fs, members);
    }
  }

  method ReportMissing(name: Name, okFrom: bool, okTo: bool) returns (fs: seq<Finding>)
    ensures ErrorRules(fs) == Rules(!(okFrom && okTo), DanglingRef) && WarningRules(fs) == {}
  {
    fs := AddIf([], !okFrom, DanglingRef, name, 0);
    fs := AddIf(fs, !okTo, DanglingRef, name, 1);
  }

  predicate ZonesAgree(zf: Name, zt: Name) { (zf != "" && zf == zt) || (zf == "" && zt == "") }

  /** Sides given as members of Zones. */
  method ReportMembers(name: Name, zf: Name, zt: Name) returns (fs: seq<Finding>)
    ensures ErrorRules(fs) == Rules(!ZonesAgree(zf, zt), ZoneMember) && WarningRules(fs) == {}
  {
    fs := [];
    if zf != "" && zf == zt {
      return;
    }
    fs := AddIf(fs, zf != "", ZoneMember, name, 0);
    fs := AddIf(fs, zt != "", ZoneMember, name, 1);
  }

  ghost predicate NamesUniqueIn(rules: seq<Rule>) {
    forall j, k :: 0 <= j < k < |rules| ==> rules[j].name != rules[k].name
  }

  method CheckRuleNames(rs: Object<RuleSetSpec>) returns (fs: seq<Finding>)
    ensures ErrorRules(fs) == (if NamesUniqueIn(rs.spec.rules) then {} else {DuplicateRule}) && WarningRules(fs) == {}
  {
    fs := [];
    var rules := rs.spec.rules;
    var names: set<Name> := {};
    for i := 0 to |rules|
      invariant WarningRules(fs) == {}
      invariant forall n :: n in names <==> exists j :: 0 <= j < i && rules[j].name == n
      invariant ErrorRules(fs) ==
        if (forall j, k :: 0 <= j < k < i ==> rules[j].name != rules[k].name) then {} else {DuplicateRule}
    {
      if rules[i].name in names {
        fs := Add(fs, One(Blocks(DuplicateRule, rs.meta.name, i)));
      }
      names := names + {rules[i].name};
    }
  }

  /** The warning about one translation rule. */
  function ShadowWarning(rs: Name, i: nat): Finding { Warns(DnatShadowed, rs, i) }

  method IsShadowed(t: Tree, rules: seq<Rule>, i: nat) returns (b: bool)
    requires i < |rules|
    ensures b <==> Shadowed(t, rules, i)
  {
    for j := 0 to i
      invariant forall k :: 0 <= k < j ==> !ShadowedBy(t, rules, i, k)
    {
      if IsEnabled(rules[j].enabled) {
        var c := FindsCovered(t, rules[j], rules[i]);
        if c {
          assert ShadowedBy(t, rules, i, j);
          return true;
        }
      }
    }
    b := false;
  }

  method FindsCovered(t: Tree, e: Rule, r: Rule) returns (b: bool)
    ensures b <==> CoversRule(t, e, r)
  {
    var (g, h) := (AddressGraph(t), ServiceGraph(t));
    var src := BuildAddrSet(g, r.source);
    var dst := BuildAddrSet(g, r.destination);
    var svc := BuildSvcSet(h, r.service);
    var esrc := BuildAddrSet(g, e.source);
    var edst := BuildAddrSet(g, e.destination);
    var esvc := BuildSvcSet(h, e.service);
    b := AddrCovers(esrc, src) && AddrCovers(edst, dst) && SvcCovers(esvc, svc);
  }

  /** What the translation rules of a RuleSet from a place on give: the kept
      rules, the limit errors, and one warning for each shadowed rule. */
  ghost predicate DnatsChecked(t: Tree, rs: Object<RuleSetSpec>, fs: seq<Finding>, sum0: nat, ds: seq<DnatRule>,
                               sum: nat, n: nat)
    requires n <= |rs.spec.rules|
  {
    && ds + DnatsOfRules(t, rs, n) == DnatsOfRules(t, rs, 0)
    && sum == RunningSum(sum0, ds)
    && ErrorRules(fs) == (if LimitHit(sum0, ds) then {DnatLimit} else {})
    && forall f :: f in fs && f.severity == Warning <==> WarnedUpTo(t, rs, f, n)
  }

  ghost predicate WarnedUpTo(t: Tree, rs: Object<RuleSetSpec>, f: Finding, n: nat)
    requires n <= |rs.spec.rules|
  {
    && 0 <= f.index < n && f == ShadowWarning(rs.meta.name, f.index)
    && TakesPart(rs.spec.rules[f.index]) && Shadowed(t, rs.spec.rules, f.index)
  }

  method CheckDnats(t: Tree, rs: Object<RuleSetSpec>, sum0: nat)
    returns (fs: seq<Finding>, ds: seq<DnatRule>, sum: nat)
    ensures DnatsChecked(t, rs, fs, sum0, ds, sum, |rs.spec.rules|) && ds == DnatsOfRules(t, rs, 0)
  {
    fs, ds, sum := [], [], sum0;
    for i := 0 to |rs.spec.rules|
      invariant DnatsChecked(t, rs, fs, sum0, ds, sum, i)
    {
      if TakesPart(rs.spec.rules[i]) {
        var found, next := CheckDnat(t, rs, i, sum);
        DnatsStep(t, rs, fs, sum0, ds, sum, i, found, next);
        fs, ds, sum := Add(fs, found), ds + [DnatOf(t, rs, i)], next;
      } else {
        DnatsSkip(t, rs, fs, sum0, ds, sum, i);
      }
    }
  }

  lemma DnatsSkip(t: Tree, rs: Object<RuleSetSpec>, fs: seq<Finding>, sum0: nat, ds: seq<DnatRule>, sum: nat, i: nat)
    requires i < |rs.spec.rules| && !TakesPart(rs.spec.rules[i]) && DnatsChecked(t, rs, fs, sum0, ds, sum, i)
    ensures DnatsChecked(t, rs, fs, sum0, ds, sum, i + 1)
  {
    assert DnatsOfRules(t, rs, i) == DnatsOfRules(t, rs, i + 1);
    WarningsStep(t, rs, fs, fs, i);
  }

  /** One enabled translation rule: its entries and whether it is shadowed. */
  method CheckDnat(t: Tree, rs: Object<RuleSetSpec>, i: nat, sum0: nat) returns (fs: seq<Finding>, sum: nat)
    requires i < |rs.spec.rules| && TakesPart(rs.spec.rules[i])
    ensures DnatFindings(t, rs, i, sum0, fs, sum)
  {
    fs := [];
    sum := Sum64(sum0, DnatOf(t, rs, i));
    if sum > MAX_DNAT_ENTRIES {
      fs := Add(fs, One(Blocks(DnatLimit, rs.meta.name, i)));
    }
    var shadowed := IsShadowed(t, rs.spec.rules, i);
    if shadowed {
      fs := Add(fs, One(ShadowWarning(rs.meta.name, i)));
    }
  }

  ghost predicate DnatFindings(t: Tree, rs: Object<RuleSetSpec>, i: nat, sum0: nat, fs: seq<Finding>, sum: nat)
    requires i < |rs.spec.rules| && TakesPart(rs.spec.rules[i])
  {
    && sum == Sum64(sum0, DnatOf(t, rs, i))
    && ErrorRules(fs) == (if sum > MAX_DNAT_ENTRIES then {DnatLimit} else {})
    && forall f :: f in fs && f.severity == Warning <==>
        f == ShadowWarning(rs.meta.name, i) && Shadowed(t, rs.spec.rules, i)
  }

  lemma DnatsStep(t: Tree, rs: Object<RuleSetSpec>, fs: seq<Finding>, sum0: nat, ds: seq<DnatRule>, sum: nat,
                  i: nat, found: seq<Finding>, next: nat)
    requires i < |rs.spec.rules| && TakesPart(rs.spec.rules[i])
    requires DnatsChecked(t, rs, fs, sum0, ds, sum, i) && DnatFindings(t, rs, i, sum, found, next)
    ensures DnatsChecked(t, rs, Add(fs, found), sum0, ds + [DnatOf(t, rs, i)], next, i + 1)
  {
    var d := DnatOf(t, rs, i);
    LimitSnoc(sum0, ds, d);
    DnatsUnfold(t, rs, i, ds);
    WarningsStep(t, rs, fs, Add(fs, found), i);
  }

  lemma DnatsUnfold(t: Tree, rs: Object<RuleSetSpec>, i: nat, ds: seq<DnatRule>)
    requires i < |rs.spec.rules| && TakesPart(rs.spec.rules[i])
    ensures ds + [DnatOf(t, rs, i)] + DnatsOfRules(t, rs, i + 1) == ds + DnatsOfRules(t, rs, i)
  {
  }

  lemma WarningsStep(t: Tree, rs: Object<RuleSetSpec>, fs0: seq<Finding>, fs: seq<Finding>, i: nat)
    requires i < |rs.spec.rules|
    requires forall f :: f in fs0 && f.severity == Warning <==> WarnedUpTo(t, rs, f, i)
    requires var r := rs.spec.rules[i];
      forall f :: f in fs && f.severity == Warning <==>
        (f in fs0 && f.severity == Warning) ||
        (f == ShadowWarning(rs.meta.name, i) && TakesPart(r) && Shadowed(t, rs.spec.rules, i))
    ensures forall f :: f in fs && f.severity == Warning <==> WarnedUpTo(t, rs, f, i + 1)
  {
  }

  /** The findings about the RuleSets as a whole. */
  ghost predicate RuleSetErrors(t: Tree, es: set<RuleId>) {
    && es <= SIDE_RULES + {DuplicateRule, DnatLimit, DnatOverlap}
    && SideErrors(t, es * SIDE_RULES)
    && (DuplicateRule in es <==> !RuleNamesUnique(t))
    && (DnatLimit in es <==> LimitHit(0, DnatsOf(t, t.ruleSets)))
    && (DnatOverlap in es <==> !DnatsDisjoint(t))
  }

  /** The warnings: exactly the enabled translation rules that are shadowed. */
  ghost predicate WarnsShadowed(t: Tree, fs: seq<Finding>, n: nat)
    requires n <= |t.ruleSets|
  {
    forall f :: f in fs && f.severity == Warning <==>
      exists k :: 0 <= k < n && WarnedUpTo(t, t.ruleSets[k], f, |t.ruleSets[k].spec.rules|)
  }

  /** The findings about the rules of the first n RuleSets. */
  ghost predicate RulesSoFar(t: Tree, fs: seq<Finding>, ds: seq<DnatRule>, sum: nat, n: nat)
    requires n <= |t.ruleSets|
  {
    && ErrorRules(fs) <= {DuplicateRule, DnatLimit}
    && (DuplicateRule in ErrorRules(fs) <==> SomeRepeats(t, n))
    && (DnatLimit in ErrorRules(fs) <==> LimitHit(0, ds))
    && ds + DnatsOf(t, t.ruleSets[n..]) == DnatsOf(t, t.ruleSets)
    && sum == RunningSum(0, ds)
    && WarnsShadowed(t, fs, n)
  }

  lemma RulesStep(t: Tree, fs: seq<Finding>, ds: seq<DnatRule>, sum: nat, n: nat,
                  named: seq<Finding>, found: seq<Finding>, more: seq<DnatRule>, next: nat)
    requires n < |t.ruleSets| && RulesSoFar(t, fs, ds, sum, n)
    requires ErrorRules(named) ==
      (if NamesUniqueIn(t.ruleSets[n].spec.rules) then {} else {DuplicateRule}) && WarningRules(named) == {}
    requires more == DnatsOfRules(t, t.ruleSets[n], 0)
    requires DnatsChecked(t, t.ruleSets[n], found, sum, more, next, |t.ruleSets[n].spec.rules|)
    ensures RulesSoFar(t, Add(Add(fs, named), found), ds + more, next, n + 1)
  {
    LimitAppend(0, ds, more);
    DnatsOfStep(t, ds, n);
    WarnsStep(t, fs, named, found, n);
    NamesStep(t, n);
  }

  lemma DnatsOfStep(t: Tree, ds: seq<DnatRule>, n: nat)
    requires n < |t.ruleSets|
    ensures ds + DnatsOf(t, t.ruleSets[n..]) == ds + DnatsOfRules(t, t.ruleSets[n], 0) + DnatsOf(t, t.ruleSets[n + 1..])
  {
  }

  ghost predicate SomeRepeats(t: Tree, n: nat)
    requires n <= |t.ruleSets|
  {
    exists k :: 0 <= k < n && !NamesUniqueIn(t.ruleSets[k].spec.rules)
  }

  lemma NamesStep(t: Tree, n: nat)
    requires n < |t.ruleSets|
    ensures SomeRepeats(t, n + 1) <==> SomeRepeats(t, n) || !NamesUniqueIn(t.ruleSets[n].spec.rules)
  {
  }

  lemma WarnsStep(t: Tree, fs: seq<Finding>, named: seq<Finding>, found: seq<Finding>, n: nat)
    requires n < |t.ruleSets| && WarnsShadowed(t, fs, n) && WarningRules(named) == {}
    requires forall f :: f in found && f.severity == Warning <==>
      WarnedUpTo(t, t.ruleSets[n], f, |t.ruleSets[n].spec.rules|)
    ensures WarnsShadowed(t, Add(Add(fs, named), found), n + 1)
  {
    NoneWarns(named);
    SameWarnings(fs, named, found);
  }

  lemma SameWarnings(a: seq<Finding>, b: seq<Finding>, c: seq<Finding>)
    requires forall f :: f in b ==> f.severity == Error
    ensures forall f :: f in Add(Add(a, b), c) && f.severity == Warning <==> (f in a || f in c) && f.severity == Warning
  {
  }

  method CheckRules(t: Tree) returns (fs: seq<Finding>, ds: seq<DnatRule>)
    ensures RulesSoFar(t, fs, ds, RunningSum(0, ds), |t.ruleSets|)
    ensures ds == DnatsOf(t, t.ruleSets)
  {
    fs, ds := [], [];
    var sum := 0;
    for n := 0 to |t.ruleSets|
      invariant RulesSoFar(t, fs, ds, sum, n)
    {
      var named := CheckRuleNames(t.ruleSets[n]);
      var found, more, next := CheckDnats(t, t.ruleSets[n], sum);
      RulesStep(t, fs, ds, sum, n, named, found, more, next);
      fs, ds, sum := Add(Add(fs, named), found), ds + more, next;
    }
    assert t.ruleSets[|t.ruleSets|..] == [];
  }

  method CheckDnatOverlaps(ds: seq<DnatRule>) returns (fs: seq<Finding>)
    ensures ErrorRules(fs) <= {DnatOverlap} && WarningRules(fs) == {}
    ensures ErrorRules(fs) == {} <==> forall i, j :: 0 <= i < j < |ds| ==> !Clash(ds[i], ds[j])
  {
    fs := [];
    for j := 0 to |ds|
      invariant ErrorRules(fs) <= {DnatOverlap} && WarningRules(fs) == {}
      invariant ErrorRules(fs) == {} <==> forall a, b :: 0 <= a < b < j ==> !Clash(ds[a], ds[b])
    {
      for i := 0 to j
        invariant ErrorRules(fs) <= {DnatOverlap} && WarningRules(fs) == {}
        invariant ErrorRules(fs) == {} <==>
          (forall a, b :: 0 <= a < b < j ==> !Clash(ds[a], ds[b])) && forall a :: 0 <= a < i ==> !Clash(ds[a], ds[j])
      {
        if Clash(ds[i], ds[j]) {
          fs := Add(fs, One(Blocks(DnatOverlap, ds[j].rs.meta.name, ds[j].index)));
        }
      }
    }
  }

  method CheckRuleSets(t: Tree) returns (fs: seq<Finding>)
    ensures RuleSetErrors(t, ErrorRules(fs)) && WarnsShadowed(t, fs, |t.ruleSets|)
    ensures WarningRules(fs) <= {DnatShadowed}
  {
    var sides := CheckSides(t);
    var rules, ds := CheckRules(t);
    var overlaps := CheckDnatOverlaps(ds);
    fs := Add(Add(sides, rules), overlaps);
    ErrorsTogether(t, ErrorRules(sides), ErrorRules(rules), ErrorRules(overlaps));
    WarningsOnly(t, sides, rules, overlaps);
  }

  lemma ErrorsTogether(t: Tree, sides: set<RuleId>, rules: set<RuleId>, overlaps: set<RuleId>)
    requires SideErrors(t, sides)
    requires rules <= {DuplicateRule, DnatLimit}
    requires DuplicateRule in rules <==> SomeRepeats(t, |t.ruleSets|)
    requires DnatLimit in rules <==> LimitHit(0, DnatsOf(t, t.ruleSets))
    requires overlaps <= {DnatOverlap} && (overlaps == {} <==> DnatsDisjoint(t))
    ensures RuleSetErrors(t, sides + rules + overlaps)
  {
    NamesAtEnd(t);
    OverlapOnly(overlaps);
    UnionOfRules(sides, rules, overlaps);
  }

  /** The three groups of rules are disjoint, so their union keeps them apart. */
  lemma UnionOfRules(sides: set<RuleId>, rules: set<RuleId>, overlaps: set<RuleId>)
    requires sides <= SIDE_RULES && rules <= {DuplicateRule, DnatLimit} && overlaps <= {DnatOverlap}
    ensures var es := sides + rules + overlaps;
      && es <= SIDE_RULES + {DuplicateRule, DnatLimit, DnatOverlap}
      && es * SIDE_RULES == sides
      && (DuplicateRule in es <==> DuplicateRule in rules)
      && (DnatLimit in es <==> DnatLimit in rules)
      && (DnatOverlap in es <==> DnatOverlap in overlaps)
  {
  }

  lemma WarningsOnly(t: Tree, sides: seq<Finding>, rules: seq<Finding>, overlaps: seq<Finding>)
    requires WarningRules(sides) == {} && WarningRules(overlaps) == {} && WarnsShadowed(t, rules, |t.ruleSets|)
    ensures WarnsShadowed(t, Add(Add(sides, rules), overlaps), |t.ruleSets|)
  {
    NoneWarns(sides);
    NoneWarns(overlaps);
  }

  lemma NamesAtEnd(t: Tree)
    ensures SomeRepeats(t, |t.ruleSets|) <==> !RuleNamesUnique(t)
  {
  }

  lemma OverlapOnly(es: set<RuleId>)
    requires es <= {DnatOverlap}
    ensures es == {} <==> DnatOverlap !in es
  {
  }

  // ---- DHCP -------------------------------------------------------------------------------

  const DHCP_RULES := {DanglingRef, WrongKind, DhcpDuplicate, DhcpRange, DhcpGateway, DhcpOverlap}

  /** A server that breaks a rule. */
  ghost predicate ServerBreaks(t: Tree, i: nat, rule: RuleId)
    requires i < |t.dhcp|
  {
    var s := t.dhcp[i].spec;
    match rule
    case DanglingRef => !InNetwork(t, s.iface)
    case WrongKind => InNetwork(t, s.iface) && !IsInterface(t, s.iface)
    case DhcpDuplicate => IsInterface(t, s.iface) && ServedBefore(t, s.iface, i)
    case DhcpRange => !RangeFits(t, s)
    case DhcpGateway => !GatewayFits(t, s)
    case DhcpOverlap => RangeSubnet(t, s).Some? && exists j :: 0 <= j < i && RangeMeets(t, j, s)
    case _ => false
  }

  ghost predicate ServedBefore(t: Tree, iface: Name, n: nat)
    requires n <= |t.dhcp|
  {
    exists j :: 0 <= j < n && t.dhcp[j].spec.iface == iface
  }

  /** An accepted range that meets another. */
  ghost predicate RangeMeets(t: Tree, j: nat, s: DhcpServerSpec)
    requires j < |t.dhcp|
  {
    RangeSubnet(t, t.dhcp[j].spec).Some? && RangesMeet(t.dhcp[j].spec, s)
  }

  ghost predicate SomeServerBreaks(t: Tree, n: nat, rule: RuleId)
    requires n <= |t.dhcp|
  {
    exists i :: 0 <= i < n && ServerBreaks(t, i, rule)
  }

  ghost predicate ServersReported(t: Tree, es: set<RuleId>, n: nat)
    requires n <= |t.dhcp|
  {
    forall r :: r in es <==> SomeServerBreaks(t, n, r)
  }

  /** What the loop has collected: served Interfaces, and accepted ranges. */
  ghost predicate DhcpState(t: Tree, served: set<Name>, ranges: seq<DhcpServerSpec>, n: nat)
    requires n <= |t.dhcp|
  {
    && (forall x :: x in served <==> IsInterface(t, x) && ServedBefore(t, x, n))
    && (forall s :: s in ranges <==> Accumulated(t, s, n))
  }

  /** An earlier server whose range was accepted. */
  ghost predicate Accumulated(t: Tree, s: DhcpServerSpec, n: nat)
    requires n <= |t.dhcp|
  {
    RangeSubnet(t, s).Some? && exists j :: 0 <= j < n && t.dhcp[j].spec == s
  }

  /** A rule is reported exactly when a server breaks it. */
  method CheckDhcp(t: Tree) returns (fs: seq<Finding>)
    ensures ServersReported(t, ErrorRules(fs), |t.dhcp|) && ErrorRules(fs) <= DHCP_RULES && WarningRules(fs) == {}
  {
    fs := [];
    var served: set<Name> := {};
    var ranges: seq<DhcpServerSpec> := [];
    for i := 0 to |t.dhcp|
      invariant ServersReported(t, ErrorRules(fs), i) && WarningRules(fs) == {}
      invariant DhcpState(t, served, ranges, i)
    {
      var s := t.dhcp[i].spec;
      var one: seq<Finding>;
      if !IsInterface(t, s.iface) {
        one := One(Blocks(if InNetwork(t, s.iface) then WrongKind else DanglingRef, t.dhcp[i].meta.name, i));
      } else {
        one := CheckServer(t, t.dhcp[i].meta.name, s, s.iface in served, ranges);
      }
      DhcpStep(t, i, ErrorRules(fs), served, ranges, ErrorRules(one));
      fs := Add(fs, one);
      if IsInterface(t, s.iface) {
        served := served + {s.iface};
        if RangeSubnet(t, s).Some? {
          ranges := ranges + [s];
        }
      }
    }
    ServersExact(t, ErrorRules(fs));
  }

  /** The errors of one server, given what was collected before. */
  ghost predicate ServerErrors(t: Tree, s: DhcpServerSpec, taken: bool, ranges: seq<DhcpServerSpec>, es: set<RuleId>) {
    if !IsInterface(t, s.iface) then es == {if InNetwork(t, s.iface) then WrongKind else DanglingRef}
    else
      && es <= {DhcpDuplicate, DhcpRange, DhcpGateway, DhcpOverlap}
      && (DhcpDuplicate in es <==> taken)
      && (DhcpRange in es <==> !RangeFits(t, s))
      && (DhcpGateway in es <==> !GatewayFits(t, s))
      && (DhcpOverlap in es <==> RangeSubnet(t, s).Some? && MeetsSome(s, ranges))
  }

  predicate MeetsSome(s: DhcpServerSpec, ranges: seq<DhcpServerSpec>) {
    exists r :: r in ranges && RangesMeet(r, s)
  }

  method CheckServer(t: Tree, name: Name, s: DhcpServerSpec, taken: bool, ranges: seq<DhcpServerSpec>)
    returns (fs: seq<Finding>)
    requires IsInterface(t, s.iface)
    ensures ServerErrors(t, s, taken, ranges, ErrorRules(fs)) && WarningRules(fs) == {}
  {
    var subnet := RangeSubnet(t, s);
    var (address, outside, inside) := (false, false, false);
    if subnet.Some? {
      address := Within(s, subnet.value.addr);
      outside := s.gateway.Some? && !Contains(subnet.value, s.gateway.value);
      inside := s.gateway.Some? && !outside && Within(s, s.gateway.value);
    }
    var meets := SearchMeeting(s, ranges);
    fs := ReportServer(name, taken, subnet.Some?, address, outside, inside, meets);
    assert RangeFits(t, s) <==> subnet.Some? && !address && !inside;
    assert GatewayFits(t, s) <==> !outside;
  }

  /** The findings about one server: whether the Interface is taken, a subnet
      holds the range, the range holds the address of the Interface, the
      gateway is outside the subnet or inside the range, and whether the range
      meets an earlier one. */
  method ReportServer(name: Name, taken: bool, fits: bool, address: bool, outside: bool, inside: bool, meets: bool)
    returns (fs: seq<Finding>)
    requires !(outside && inside)
    ensures ErrorRules(fs) == Rules(taken, DhcpDuplicate) + Rules(!fits || address || inside, DhcpRange)
      + Rules(fits && outside, DhcpGateway) + Rules(fits && meets, DhcpOverlap)
    ensures WarningRules(fs) == {}
  {
    fs := AddIf([], taken, DhcpDuplicate, name, 0);
    if !fits {
      fs := AddIf(fs, true, DhcpRange, name, 0);
    } else {
      var more := ReportRange(name, address, outside, inside, meets);
      fs := Add(fs, more);
    }
  }

  method ReportRange(name: Name, address: bool, outside: bool, inside: bool, meets: bool) returns (fs: seq<Finding>)
    requires !(outside && inside)
    ensures ErrorRules(fs) ==
      Rules(address || inside, DhcpRange) + Rules(outside, DhcpGateway) + Rules(meets, DhcpOverlap)
    ensures WarningRules(fs) == {}
  {
    fs := AddIf([], address, DhcpRange, name, 0);
    if outside {
      fs := AddIf(fs, true, DhcpGateway, name, 0);
    } else {
      fs := AddIf(fs, inside, DhcpRange, name, 0);
    }
    fs := AddIf(fs, meets, DhcpOverlap, name, 0);
  }

  method SearchMeeting(s: DhcpServerSpec, ranges: seq<DhcpServerSpec>) returns (b: bool)
    ensures b <==> MeetsSome(s, ranges)
  {
    b := false;
    for k := 0 to |ranges|
      invariant b <==> MeetsSome(s, ranges[..k])
    {
      assert ranges[..k + 1] == ranges[..k] + [ranges[k]];
      if RangesMeet(ranges[k], s) {
        b := true;
      }
    }
  }

  lemma DhcpStep(t: Tree, i: nat, es: set<RuleId>, served: set<Name>, ranges: seq<DhcpServerSpec>, one: set<RuleId>)
    requires i < |t.dhcp| && ServersReported(t, es, i) && DhcpState(t, served, ranges, i)
    requires ServerErrors(t, t.dhcp[i].spec, t.dhcp[i].spec.iface in served, ranges, one)
    ensures ServersReported(t, es + one, i + 1)
    ensures var s := t.dhcp[i].spec;
      DhcpState(t, if IsInterface(t, s.iface) then served + {s.iface} else served,
                if RangeSubnet(t, s).Some? then ranges + [s] else ranges, i + 1)
  {
    var s := t.dhcp[i].spec;
    MeetsAccepted(t, i, ranges, s);
    forall r ensures r in one <==> ServerBreaks(t, i, r) {
      OneServer(t, i, s.iface in served, ranges, one, r);
    }
    forall r ensures SomeServerBreaks(t, i + 1, r) <==> SomeServerBreaks(t, i, r) || ServerBreaks(t, i, r) {
    }
    DhcpStateStep(t, i, served, ranges);
  }

  /** Each error of one server is the breach of its rule. */
  lemma OneServer(t: Tree, i: nat, taken: bool, ranges: seq<DhcpServerSpec>, one: set<RuleId>, r: RuleId)
    requires i < |t.dhcp| && ServerErrors(t, t.dhcp[i].spec, taken, ranges, one)
    requires taken <==> IsInterface(t, t.dhcp[i].spec.iface) && ServedBefore(t, t.dhcp[i].spec.iface, i)
    requires MeetsSome(t.dhcp[i].spec, ranges) <==> exists j :: 0 <= j < i && RangeMeets(t, j, t.dhcp[i].spec)
    ensures r in one <==> ServerBreaks(t, i, r)
  {
  }

  lemma MeetsAccepted(t: Tree, i: nat, ranges: seq<DhcpServerSpec>, s: DhcpServerSpec)
    requires i <= |t.dhcp| && forall r :: r in ranges <==> Accumulated(t, r, i)
    ensures MeetsSome(s, ranges) <==> exists j :: 0 <= j < i && RangeMeets(t, j, s)
  {
    forall j | 0 <= j < i && RangeMeets(t, j, s) ensures t.dhcp[j].spec in ranges {
      assert Accumulated(t, t.dhcp[j].spec, i);
    }
    forall r | r in ranges && RangesMeet(r, s) ensures exists j :: 0 <= j < i && RangeMeets(t, j, s) {
      assert Accumulated(t, r, i);
      var j :| 0 <= j < i && t.dhcp[j].spec == r;
      assert RangeMeets(t, j, s);
    }
  }

  lemma DhcpStateStep(t: Tree, i: nat, served: set<Name>, ranges: seq<DhcpServerSpec>)
    requires i < |t.dhcp| && DhcpState(t, served, ranges, i)
    ensures var s := t.dhcp[i].spec;
      DhcpState(t, if IsInterface(t, s.iface) then served + {s.iface} else served,
                if RangeSubnet(t, s).Some? then ranges + [s] else ranges, i + 1)
  {
  }

  /** The errors about servers, by the rules they break. */
  lemma ServersExact(t: Tree, es: set<RuleId>)
    requires ServersReported(t, es, |t.dhcp|)
    ensures es <= DHCP_RULES && (DanglingRef in es || WrongKind in es <==> !ServersResolve(t))
    ensures (DhcpDuplicate in es <==> !ServedOnce(t)) && (DhcpRange in es <==> !RangesFit(t))
    ensures (DhcpGateway in es <==> !GatewaysFit(t)) && (DhcpOverlap in es <==> !RangesDisjoint(t))
  {
    var n := |t.dhcp|;
    forall r | r in es ensures r in DHCP_RULES {
      assert SomeServerBreaks(t, n, r);
    }
    forall r ensures r in es <==> SomeServerBreaks(t, n, r) {
    }
    NoneResolves(t);
    FitsMean(t);
    DuplicatesMean(t);
    OverlapsMean(t);
  }

  lemma NoneResolves(t: Tree)
    ensures SomeServerBreaks(t, |t.dhcp|, DanglingRef) || SomeServerBreaks(t, |t.dhcp|, WrongKind)
      <==> !ServersResolve(t)
  {
    forall i | 0 <= i < |t.dhcp|
      ensures ServerBreaks(t, i, DanglingRef) || ServerBreaks(t, i, WrongKind)
        <==> !IsInterface(t, t.dhcp[i].spec.iface)
    {
    }
  }

  lemma FitsMean(t: Tree)
    ensures SomeServerBreaks(t, |t.dhcp|, DhcpRange) <==> !RangesFit(t)
    ensures SomeServerBreaks(t, |t.dhcp|, DhcpGateway) <==> !GatewaysFit(t)
  {
    forall i | 0 <= i < |t.dhcp|
      ensures ServerBreaks(t, i, DhcpRange) <==> !RangeFits(t, t.dhcp[i].spec)
      ensures ServerBreaks(t, i, DhcpGateway) <==> !GatewayFits(t, t.dhcp[i].spec)
    {
    }
  }

  lemma DuplicatesMean(t: Tree)
    ensures SomeServerBreaks(t, |t.dhcp|, DhcpDuplicate) <==> !ServedOnce(t)
  {
    if !ServedOnce(t) {
      var i, j :| 0 <= i < j < |t.dhcp| && IsInterface(t, t.dhcp[i].spec.iface) &&
        t.dhcp[i].spec.iface == t.dhcp[j].spec.iface;
      assert ServerBreaks(t, j, DhcpDuplicate);
    }
  }

  lemma OverlapsMean(t: Tree)
    ensures SomeServerBreaks(t, |t.dhcp|, DhcpOverlap) <==> !RangesDisjoint(t)
  {
    if !RangesDisjoint(t) {
      var i, j :| 0 <= i < j < |t.dhcp| && RangeSubnet(t, t.dhcp[i].spec).Some? &&
        RangeSubnet(t, t.dhcp[j].spec).Some? && RangesMeet(t.dhcp[i].spec, t.dhcp[j].spec);
      assert RangeMeets(t, i, t.dhcp[j].spec) && ServerBreaks(t, j, DhcpOverlap);
    }
  }

  // ---- all checks ---------------------------------------------------------------------------

  /** Every rule the modelled checks enforce. */
  ghost predicate Accepted(t: Tree) { ObjectsHold(t) && TrafficHolds(t) }

  ghost predicate InterfacesHold(t: Tree) { SubnetsDisjoint(t.interfaces) && HostAddresses(t.interfaces) }

  /** Every rule about objects by themselves. */
  ghost predicate ObjectsHold(t: Tree) {
    && UniqueNames(t) && InterfacesHold(t)
    && ZonesListInterfaces(t) && ZonesDisjoint(t) && RangesOk(t) && AllPortsOk(t)
    && !HasCycle(GroupLinks(t.addressGroups)) && !HasCycle(GroupLinks(t.serviceGroups))
  }

  /** Every rule about RuleSets, routes and DHCP servers. */
  ghost predicate TrafficHolds(t: Tree) {
    && SidesHold(t) && RuleNamesUnique(t) && !LimitHit(0, DnatsOf(t, t.ruleSets)) && DnatsDisjoint(t)
    && NoTies(t.routes)
    && ServersResolve(t) && ServedOnce(t) && RangesFit(t) && GatewaysFit(t)
  }

  lemma UnionEmpty(a: set<RuleId>, b: set<RuleId>)
    ensures a + b == {} <==> a == {} && b == {}
  {
  }

  const OBJECT_RULES := {UniqueName, InterfaceAddress, SubnetOverlap, DanglingRef, WrongKind, ZoneOverlap, RangeFamily,
                         RangeOrder, GroupCycle, PortRangeRule}

  lemma ObjectsGraded(fs: seq<Finding>)
    requires ErrorRules(fs) <= OBJECT_RULES && WarningRules(fs) <= WARNING_RULES
    ensures Graded(fs)
  {
    GradedByRules(fs);
  }

  method CheckNetwork(t: Tree) returns (fs: seq<Finding>)
    ensures ErrorRules(fs) == {} <==>
      UniqueNames(t) && InterfacesHold(t) && ZonesListInterfaces(t) && ZonesDisjoint(t)
    ensures Graded(fs)
  {
    var names := CheckNames(t);
    var interfaces := CheckInterfaces(t.interfaces);
    var zones := CheckZones(t);
    var both := Add(names, interfaces);
    fs := Add(both, zones);
    UnionEmpty(ErrorRules(names), ErrorRules(interfaces));
    UnionEmpty(ErrorRules(both), ErrorRules(zones));
    ObjectsGraded(fs);
  }

  method CheckLists(t: Tree) returns (fs: seq<Finding>)
    ensures ErrorRules(fs) == {} <==>
      && RangesOk(t) && AllPortsOk(t)
      && !HasCycle(GroupLinks(t.addressGroups)) && !HasCycle(GroupLinks(t.serviceGroups))
    ensures Graded(fs)
  {
    var addresses := CheckAddresses(t);
    var groups := CheckGroups(t.addressGroups);
    var serviceGroups := CheckGroups(t.serviceGroups);
    var services := CheckServices(t);
    var a := Add(addresses, groups);
    var b := Add(serviceGroups, services);
    fs := Add(a, b);
    UnionEmpty(ErrorRules(addresses), ErrorRules(groups));
    UnionEmpty(ErrorRules(serviceGroups), ErrorRules(services));
    UnionEmpty(ErrorRules(a), ErrorRules(b));
    ObjectsGraded(fs);
  }

  /** The checks of RuleSets, routes and DHCP servers. */
  method CheckTogether(t: Tree) returns (found: seq<Finding>)
    ensures Graded(found) && TrafficFound(t, ErrorRules(found))
  {
    var ruleSets := CheckRuleSets(t);
    var routes := CheckRoutes(t.routes);
    var servers := CheckDhcp(t);
    TrafficTogether(t, ErrorRules(ruleSets), ErrorRules(routes), ErrorRules(servers));
    TrafficGraded(ErrorRules(ruleSets), ErrorRules(routes), ErrorRules(servers));
    TogetherGraded(ruleSets, routes, servers);
    found := ruleSets + routes + servers;
  }

  lemma TogetherGraded(a: seq<Finding>, b: seq<Finding>, c: seq<Finding>)
    requires WarningRules(a) <= WARNING_RULES && WarningRules(b) == {} && WarningRules(c) == {}
    requires ErrorRules(a) + ErrorRules(b) + ErrorRules(c) !! WARNING_RULES
    ensures Graded(a + b + c) && ErrorRules(a + b + c) == ErrorRules(a) + ErrorRules(b) + ErrorRules(c)
  {
    RulesAppend(a, b);
    RulesAppend(a + b, c);
    GradedByRules(a + b + c);
  }

  /** What the findings about a configuration say. */
  ghost predicate Judged(t: Tree, fs: seq<Finding>) { (ErrorRules(fs) == {} <==> Accepted(t)) && Graded(fs) }

  /** The validator: a tree and the findings about it. */
  class Checker {
    const t: Tree
    var out: seq<Finding>

    constructor (t: Tree)
      ensures this.t == t && out == []
    {
      this.t := t;
      out := [];
    }

    method CheckObjects()
      modifies this
      ensures exists found :: out == old(out) + found && Graded(found) && (ErrorRules(found) == {} <==> ObjectsHold(t))
    {
      var network := CheckNetwork(t);
      var objects := CheckLists(t);
      var found := Add(network, objects);
      UnionEmpty(ErrorRules(network), ErrorRules(objects));
      out := out + found;
    }

    method CheckTraffic()
      modifies this
      ensures exists found :: out == old(out) + found && Graded(found) && TrafficFound(t, ErrorRules(found))
    {
      var found := CheckTogether(t);
      out := out + found;
    }

    /** All checks: no error is reported exactly when every rule holds, and each
        rule warns or blocks, never both. The rule on overlapping DHCP ranges
        needs no place among the rules, because it follows from two others. */
    method Validate()
      requires out == []
      modifies this
      ensures Judged(t, out)
    {
      CheckObjects();
      ghost var objects := out;
      CheckTraffic();
      ghost var found :| out == objects + found && Graded(found) && TrafficFound(t, ErrorRules(found));
      RulesAppend(objects, found);
    }
  }

  /** The errors about traffic tell whether its rules hold, once subnets are
      disjoint. */
  ghost predicate TrafficFound(t: Tree, es: set<RuleId>) {
    (es == {} ==> TrafficHolds(t)) && (TrafficHolds(t) && SubnetsDisjoint(t.interfaces) ==> es == {})
  }

  lemma TrafficGraded(ruleSets: set<RuleId>, routes: set<RuleId>, servers: set<RuleId>)
    requires ruleSets <= SIDE_RULES + {DuplicateRule, DnatLimit, DnatOverlap}
    requires routes <= {RouteTie} && servers <= DHCP_RULES
    ensures ruleSets + routes + servers !! WARNING_RULES
  {
  }

  lemma TrafficTogether(t: Tree, ruleSets: set<RuleId>, routes: set<RuleId>, servers: set<RuleId>)
    requires RuleSetErrors(t, ruleSets)
    requires routes == if NoTies(t.routes) then {} else {RouteTie}
    requires ServersReported(t, servers, |t.dhcp|)
    ensures TrafficFound(t, ruleSets + routes + servers)
  {
    RuleSetsExact(t, ruleSets);
    ServersExact(t, servers);
    ServersClean(t, servers);
    assert ruleSets + routes + servers == {} <==> ruleSets == {} && routes == {} && servers == {};
  }

  lemma RuleSetsExact(t: Tree, es: set<RuleId>)
    requires RuleSetErrors(t, es)
    ensures es == {} <==> SidesHold(t) && RuleNamesUnique(t) && !LimitHit(0, DnatsOf(t, t.ruleSets)) && DnatsDisjoint(t)
  {
    SidesClean(t, es * SIDE_RULES);
    NothingReported(es, SidesHold(t), RuleNamesUnique(t), LimitHit(0, DnatsOf(t, t.ruleSets)), DnatsDisjoint(t));
  }

  lemma NothingReported(es: set<RuleId>, sides: bool, named: bool, limit: bool, disjoint: bool)
    requires es <= SIDE_RULES + {DuplicateRule, DnatLimit, DnatOverlap}
    requires es * SIDE_RULES == {} <==> sides
    requires (DuplicateRule in es <==> !named) && (DnatLimit in es <==> limit) && (DnatOverlap in es <==> !disjoint)
    ensures es == {} <==> sides && named && !limit && disjoint
  {
  }

  /** No error about servers, when no subnets overlap: the overlap of ranges
      needs no check of its own. */
  lemma ServersClean(t: Tree, es: set<RuleId>)
    requires ServersReported(t, es, |t.dhcp|)
    ensures es == {} ==> ServersResolve(t) && ServedOnce(t) && RangesFit(t) && GatewaysFit(t)
    ensures SubnetsDisjoint(t.interfaces) && ServersResolve(t) && ServedOnce(t) && RangesFit(t) && GatewaysFit(t) ==>
      es == {}
  {
    ServersExact(t, es);
    if SubnetsDisjoint(t.interfaces) && ServedOnce(t) { OverlapNeverReported(t); }
  }

  lemma AcceptedIsClean(t: Tree)
    requires Accepted(t) && NamesNotEmpty(t)
    ensures CleanTree(t)
  {
  }

  lemma {:induction false} RulesOrdered(t: Tree, rs: Object<RuleSetSpec>, k: nat, d: DnatRule)
    requires PortsOrdered(ServiceGraph(t)) && k <= |rs.spec.rules| && d in DnatsOfRules(t, rs, k)
    ensures SetsOrdered(d) && (d.dst.any ==> d.dst.ivs == [])
    decreases |rs.spec.rules| - k
  {
    if k < |rs.spec.rules| {
      if d in DnatsOfRules(t, rs, k + 1) {
        RulesOrdered(t, rs, k + 1, d);
      } else {
        AddrSetOrdered(AddressGraph(t), rs.spec.rules[k].destination);
        SvcSetOrdered(ServiceGraph(t), rs.spec.rules[k].service);
      }
    }
  }

  lemma {:induction false} DnatsOrdered(t: Tree, l: seq<Object<RuleSetSpec>>, d: DnatRule)
    requires PortsOrdered(ServiceGraph(t)) && d in DnatsOf(t, l)
    ensures SetsOrdered(d) && (d.dst.any ==> d.dst.ivs == [])
  {
    if l != [] {
      if d in DnatsOf(t, l[1..]) {
        DnatsOrdered(t, l[1..], d);
      } else {
        RulesOrdered(t, l[0], 0, d);
      }
    }
  }

  /** On ordered ranges, the check of the limit is the check of the true total:
      an accepted configuration has at most 16384 translation entries. */
  lemma AcceptedWithinLimit(t: Tree)
    requires AllPortsOk(t)
    ensures !LimitHit(0, DnatsOf(t, t.ruleSets)) <==> TotalEntries(DnatsOf(t, t.ruleSets)) <= MAX_DNAT_ENTRIES
    ensures !LimitHit(0, DnatsOf(t, t.ruleSets)) <==> TotalPlaces(DnatsOf(t, t.ruleSets)) <= 16384
  {
    PortsGiveGraph(t);
    var ds := DnatsOf(t, t.ruleSets);
    forall i | 0 <= i < |ds| ensures SetsOrdered(ds[i]) && (ds[i].dst.any ==> ds[i].dst.ivs == []) {
      DnatsOrdered(t, t.ruleSets, ds[i]);
    }
    LimitExact(0, ds);
    TotalArePlaces(ds);
  }
}
