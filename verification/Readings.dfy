/** The lookups and searches of the program read the configuration as it is:
    each function agrees with the notion it stands for. */
module Readings {
  import opened Prelude
  import opened Ipv4
  import opened Model
  import opened Expand
  import opened Matching
  import opened Routing
  import opened Classify
  import opened Clean
  import opened Guarantees
  import F = Facts

  // ---- addresses ------------------------------------------------------------------------------

  lemma {:induction false} NthRead(k: nat, d: nat, x: nat)
    requires 0 < d
    ensures F.InNth(k, d, x) <==> x / d == k
  {
    QuotientIsInterval(x, d, k);
    assert (k + 1) * d == k * d + d;
  }

  lemma {:induction false} BlockRead(p: Prefix, x: U32)
    ensures Contains(p, x) <==> F.InBlock(p, x)
  {
    var d := Pow2(32 - p.bits);
    forall k: nat ensures F.InNth(k, d, p.addr) <==> p.addr / d == k {
      NthRead(k, d, p.addr);
    }
    forall k: nat ensures F.InNth(k, d, x) <==> x / d == k {
      NthRead(k, d, x);
    }
    QuotientOfNat(p.addr, d);
    if Contains(p, x) {
      var k: nat := p.addr / d;
      assert F.InNth(k, d, p.addr) && F.InNth(k, d, x);
    }
  }

  lemma {:induction false} QuotientOfNat(x: nat, d: nat)
    requires 0 < d
    ensures 0 <= x / d
  {
    ModSmall(x, d);
  }

  lemma {:induction false} FormRead(form: AddressForm, x: U32)
    ensures AddrContains(form, x) <==> F.FormHolds(form, x)
  {
    if form.Subnet? {
      MaskedContains(form.prefix, x);
      BlockRead(form.prefix, x);
    }
  }

  // ---- references -----------------------------------------------------------------------------

  /** Objects and groups of one namespace. */
  ghost predicate OneNamespace<S>(l: seq<Object<S>>, groups: seq<Object<GroupSpec>>) {
    && Consistent(l) && Consistent(groups)
    && forall o, g :: o in l && g in groups ==> o.meta.name != g.meta.name
  }

  lemma {:induction false} IndexRead<S>(l: seq<Object<S>>, n: Name, s: S)
    requires Consistent(l)
    ensures n in Index(l) && Index(l)[n] == s <==> exists o :: o in l && o.meta.name == n && o.spec == s
  {
    FindSound(l, n);
  }

  lemma {:induction false} MemberRead<S>(l: seq<Object<S>>, groups: seq<Object<GroupSpec>>, a: Name, b: Name)
    requires OneNamespace(l, groups)
    ensures b in Successors(Graph(Index(l), Members(Index(groups))), a) <==> F.HasMember(groups, a, b)
  {
    FindSound(l, a);
    FindSound(groups, a);
  }

  lemma {:induction false} MeansRead<S>(l: seq<Object<S>>, groups: seq<Object<GroupSpec>>, ref: Name, n: Name)
    requires OneNamespace(l, groups)
    ensures Reaches(Graph(Index(l), Members(Index(groups))), ref, n) <==> exists p :: F.LeadsTo(groups, p, ref, n)
  {
    var g := Graph(Index(l), Members(Index(groups)));
    forall p ensures IsPath(g, p) <==> F.Membership(groups, p) {
      forall i | 0 <= i < |p| - 1 ensures p[i + 1] in Successors(g, p[i]) <==> F.HasMember(groups, p[i], p[i + 1]) {
        MemberRead(l, groups, p[i], p[i + 1]);
      }
    }
    if p :| IsPath(g, p) && p[0] == ref && p[|p| - 1] == n {
      assert F.LeadsTo(groups, p, ref, n);
    }
    if p :| F.LeadsTo(groups, p, ref, n) {
      assert IsPath(g, p);
    }
  }

  /** A reference expands to the objects it means. */
  lemma {:induction false} ExpandedRead<S>(l: seq<Object<S>>, groups: seq<Object<GroupSpec>>, ref: Name, s: S)
    requires OneNamespace(l, groups)
    ensures s in Expanded(Graph(Index(l), Members(Index(groups))), ref) <==>
      exists o :: F.Means(l, groups, ref, o) && o.spec == s
  {
    var g := Graph(Index(l), Members(Index(groups)));
    ExpandedMembers(g, ref, s);
    if n :| n in g.leaves && g.leaves[n] == s && Reaches(g, ref, n) {
      IndexRead(l, n, s);
      MeansRead(l, groups, ref, n);
      var o :| o in l && o.meta.name == n && o.spec == s;
      assert F.Means(l, groups, ref, o);
    }
    if o :| F.Means(l, groups, ref, o) && o.spec == s {
      IndexRead(l, o.meta.name, s);
      MeansRead(l, groups, ref, o.meta.name);
    }
  }

  lemma {:induction false} AddressNamespace(t: Tree)
    requires UniqueNames(t)
    ensures OneNamespace(t.addresses, t.addressGroups) && OneNamespace(t.services, t.serviceGroups)
  {
    UniqueObjects(t);
    ObjectsApart(t);
  }

  /** The references of rules mean what they say. */
  lemma {:induction false} AddressesRead(t: Tree, refs: seq<Name>, x: U32)
    requires UniqueNames(t)
    ensures InAddresses(AddressGraph(t), refs, x) <==> F.RefsHold(t, refs, x)
  {
    var g := AddressGraph(t);
    AddressNamespace(t);
    forall ref ensures (exists a :: a in Expanded(g, ref) && AddrContains(a.form, x)) <==> F.HoldsUnder(t, ref, x) {
      HoldsUnderRead(t, ref, x);
    }
  }

  lemma {:induction false} HoldsUnderRead(t: Tree, ref: Name, x: U32)
    requires OneNamespace(t.addresses, t.addressGroups)
    ensures (exists a :: a in Expanded(AddressGraph(t), ref) && AddrContains(a.form, x)) <==> F.HoldsUnder(t, ref, x)
  {
    var g := AddressGraph(t);
    if a :| a in Expanded(g, ref) && AddrContains(a.form, x) {
      ExpandedRead(t.addresses, t.addressGroups, ref, a);
      FormRead(a.form, x);
    }
    if o :| F.Means(t.addresses, t.addressGroups, ref, o) && F.FormHolds(o.spec.form, x) {
      ExpandedRead(t.addresses, t.addressGroups, ref, o.spec);
      FormRead(o.spec.form, x);
    }
  }

  lemma {:induction false} ServicesRead(t: Tree, refs: seq<Name>, proto: string, port: U32)
    requires UniqueNames(t)
    ensures InServices(ServiceGraph(t), refs, proto, port) <==> F.RefsServe(t, refs, proto, port)
  {
    var g := ServiceGraph(t);
    AddressNamespace(t);
    forall ref
      ensures (exists s :: s in Expanded(g, ref) && ServiceMatches(s, proto, port)) <==> F.ServesUnder(t, ref, proto, port)
    {
      ServesUnderRead(t, ref, proto, port);
    }
  }

  lemma {:induction false} ServesUnderRead(t: Tree, ref: Name, proto: string, port: U32)
    requires OneNamespace(t.services, t.serviceGroups)
    ensures (exists s :: s in Expanded(ServiceGraph(t), ref) && ServiceMatches(s, proto, port)) <==>
      F.ServesUnder(t, ref, proto, port)
  {
    var g := ServiceGraph(t);
    if s :| s in Expanded(g, ref) && ServiceMatches(s, proto, port) {
      ExpandedRead(t.services, t.serviceGroups, ref, s);
      var e :| e in s.protocols && EntryMatches(e, proto, port);
      assert F.EntryServes(e, proto, port);
    }
    if o, e :| F.Means(t.services, t.serviceGroups, ref, o) && e in o.spec.protocols && F.EntryServes(e, proto, port) {
      ExpandedRead(t.services, t.serviceGroups, ref, o.spec);
      assert EntryMatches(e, proto, port);
    }
  }

  ghost predicate RuleTakes(t: Tree, x: Rule, f: Flow) { F.Takes(t, x, f.src, f.dst, f.proto, f.dport) }

  lemma {:induction false} MatchesRead(t: Tree, x: Rule, f: Flow)
    requires UniqueNames(t)
    ensures Matches(t, x, f) <==> RuleTakes(t, x, f)
  {
    AddressesRead(t, x.source, f.src);
    AddressesRead(t, x.destination, f.dst);
    ServicesRead(t, x.service, f.proto, f.dport);
  }

  // ---- targets --------------------------------------------------------------------------------

  lemma {:induction false} FirstIpInRead(l: seq<AddressSpec>)
    ensures match FirstIpIn(l)
      case Some(ip) => exists i :: 0 <= i < |l| && F.FormStarts(l[i].form, ip) && NoneStarts(l[..i])
      case None => NoneStarts(l)
  {
    if l != [] {
      FirstIpInRead(l[1..]);
      if l[0].form.Fqdn? || l[0].form.Mac? {
        assert forall ip :: !F.FormStarts(l[0].form, ip);
        if FirstIpIn(l).Some? {
          var i :| 0 <= i < |l[1..]| && F.FormStarts(l[1..][i].form, FirstIpIn(l).value) && NoneStarts(l[1..][..i]);
          assert l[..i + 1] == [l[0]] + l[1..][..i];
          assert l[i + 1] == l[1..][i];
        }
      } else {
        assert NoneStarts(l[..0]) && F.FormStarts(l[0].form, FirstIpIn(l).value);
      }
    }
  }

  ghost predicate NoneStarts(l: seq<AddressSpec>) { forall a, ip :: a in l ==> !F.FormStarts(a.form, ip) }

  /** The address of a target is one that the reference means, and there is
      none only if it means none. */
  lemma {:induction false} FirstIpRead(t: Tree, ref: Name)
    requires UniqueNames(t)
    ensures match FirstIp(t, ref)
      case Some(ip) => F.StartsUnder(t, ref, ip)
      case None => forall ip :: !F.StartsUnder(t, ref, ip)
  {
    var l := Expanded(AddressGraph(t), ref);
    AddressNamespace(t);
    FirstIpInRead(l);
    if FirstIp(t, ref).Some? {
      var i :| 0 <= i < |l| && F.FormStarts(l[i].form, FirstIp(t, ref).value);
      ExpandedRead(t.addresses, t.addressGroups, ref, l[i]);
    } else {
      forall ip ensures !F.StartsUnder(t, ref, ip) {
        forall o | F.Means(t.addresses, t.addressGroups, ref, o) ensures !F.FormStarts(o.spec.form, ip) {
          ExpandedRead(t.addresses, t.addressGroups, ref, o.spec);
        }
      }
    }
  }

  // ---- Interfaces, Zones and sides ------------------------------------------------------------

  lemma {:induction false} SideRead(t: Tree, side: Name, n: Name)
    requires UniqueNames(t)
    ensures n in Side(t, side) <==> F.OnSide(t, side, n)
  {
    CleanNames(t);
    FindSound(t.zones, side);
    FindSound(t.interfaces, side);
    forall z, o | z in t.zones && o in t.interfaces ensures z.meta.name != o.meta.name {
      UniqueNetwork(t);
    }
    if z :| F.ZoneHas(t, z, n) && z.meta.name == side {
      var y :| y in t.zones && y.meta.name == side && y.spec == Find(t.zones, side).value;
      assert y == z;
    }
    if n in Side(t, side) && Find(t.zones, side).Some? {
      var y :| y in t.zones && y.meta.name == side && y.spec == Find(t.zones, side).value;
      assert F.ZoneHas(t, y, n);
    }
  }

  lemma {:induction false} GovernorRead(t: Tree, inIf: Name, outIf: Name)
    requires UniqueNames(t)
    ensures match Governing(t, t.ruleSets, inIf, outIf)
      case Some(rs) => F.IsGovernor(t, rs, inIf, outIf)
      case None => forall rs :: !F.IsGovernor(t, rs, inIf, outIf)
  {
    GoverningSound(t, t.ruleSets, inIf, outIf);
    forall rs ensures F.IsGovernor(t, rs, inIf, outIf) <==> rs in t.ruleSets && Governs(t, rs, inIf, outIf) {
      SideRead(t, rs.spec.from, inIf);
      SideRead(t, rs.spec.to, outIf);
    }
  }

  lemma {:induction false} ZoneAllowsRead(t: Tree, a: Name, b: Name)
    requires UniqueNames(t) && NamesNotEmpty(t) && ZonesDisjoint(t)
    ensures IntraZoneAllowed(t, a, b) <==> F.ZoneAllows(t, a, b)
  {
    ZoneOfSound(t.zones, a);
    ZoneOfSound(t.zones, b);
    CleanNames(t);
    if z :| F.ZoneHas(t, z, a) && F.ZoneHas(t, z, b) && z.spec.intraZoneTraffic == Allow {
      ZoneOfListed(t, z, a);
      ZoneOfListed(t, z, b);
      ZoneNameNotEmpty(t, z);
      ZoneFound(t, z);
    }
    if IntraZoneAllowed(t, a, b) {
      var z := ListingZone(t, a);
      var y := ListingZone(t, b);
      assert z.meta.name == y.meta.name && z == y;
      ZoneFound(t, z);
      assert F.ZoneHas(t, z, a) && F.ZoneHas(t, z, b);
    }
  }

  lemma {:induction false} ZoneFound(t: Tree, z: Object<ZoneSpec>)
    requires Consistent(t.zones) && z in t.zones
    ensures Find(t.zones, z.meta.name) == Some(z.spec)
  {
    FindSound(t.zones, z.meta.name);
  }

  lemma {:induction false} ListingZone(t: Tree, n: Name) returns (z: Object<ZoneSpec>)
    requires ZoneOf(t.zones, n) != ""
    ensures F.ZoneHas(t, z, n) && z.meta.name == ZoneOf(t.zones, n)
  {
    ZoneOfSound(t.zones, n);
    z :| z in t.zones && n in z.spec.interfaces && z.meta.name == ZoneOf(t.zones, n);
  }

  lemma {:induction false} AddressRead(o: Object<InterfaceSpec>, p: Prefix)
    ensures p in StaticAddresses(o.spec) <==> exists k :: F.HasAddress(o, k, p)
  {
    if p in StaticAddresses(o.spec) {
      var k :| 0 <= k < |StaticAddresses(o.spec)| && StaticAddresses(o.spec)[k] == p;
      assert F.HasAddress(o, k, p);
    }
  }

  /** The first address of an Interface. */
  ghost predicate MainAddress(t: Tree, n: Name, ip: Ip) {
    exists o, p :: o in t.interfaces && o.meta.name == n && F.HasAddress(o, 0, p) && ip == V4(p.addr)
  }

  lemma {:induction false} InterfaceIpRead(t: Tree, n: Name)
    requires UniqueNames(t)
    ensures match InterfaceIp(t, n)
      case Some(ip) => MainAddress(t, n, ip)
      case None => forall ip :: !MainAddress(t, n, ip)
  {
    CleanNames(t);
    FindSound(t.interfaces, n);
  }

  // ---- routes ---------------------------------------------------------------------------------

  function CandidateOf(w: F.Way): Candidate {
    match w
    case OnLink(n, bits) => Candidate(n, bits, 0, 0)
    case ByRoute(n, bits, d, p) => Candidate(n, bits, d, p)
  }

  function WayOfCandidate(c: Candidate): F.Way {
    if c.distance == 0 then F.OnLink(c.iface, c.bits) else F.ByRoute(c.iface, c.bits, c.distance, c.priority)
  }

  lemma {:induction false} OnLinkRead(t: Tree, dst: U32, c: Candidate)
    ensures c in Connected(t.interfaces, V4(dst)) <==>
      c == Candidate(c.iface, c.bits, 0, 0) && F.IsWay(t, dst, F.OnLink(c.iface, c.bits))
  {
    ConnectedMembers(t.interfaces, V4(dst), c);
    forall p ensures Holds(p, V4(dst)) <==> F.InBlock(p, dst) {
      HoldsRead(p, dst);
    }
    if o, p :| o in t.interfaces && Attached(o, p, V4(dst)) && c == Candidate(o.meta.name, p.bits, 0, 0) {
      AddressRead(o, p);
    }
    if c == Candidate(c.iface, c.bits, 0, 0) && F.IsWay(t, dst, F.OnLink(c.iface, c.bits)) {
      var o, k, p :| o in t.interfaces && o.spec.enabled != Some(false) && F.HasAddress(o, k, p) &&
        F.InBlock(p, dst) && o.meta.name == c.iface && p.bits == c.bits;
      AddressRead(o, p);
      assert Attached(o, p, V4(dst));
    }
  }

  lemma {:induction false} HoldsRead(p: Prefix, dst: U32)
    ensures Holds(p, V4(dst)) <==> F.InBlock(p, dst)
  {
    MaskedContains(p, dst);
    BlockRead(p, dst);
  }

  lemma {:induction false} ByRouteRead(t: Tree, dst: U32, c: Candidate)
    ensures c in Routing.Static(t.routes, V4(dst)) <==>
      c.distance > 0 && F.IsWay(t, dst, F.ByRoute(c.iface, c.bits, c.distance, c.priority))
  {
    StaticMembers(t.routes, V4(dst), c);
    forall p ensures Holds(p, V4(dst)) <==> F.InBlock(p, dst) {
      HoldsRead(p, dst);
    }
  }

  lemma {:induction false} CandidatesRead(t: Tree, dst: U32, c: Candidate)
    ensures c in Candidates(t, V4(dst)) <==> F.IsWay(t, dst, WayOfCandidate(c)) && c == CandidateOf(WayOfCandidate(c))
  {
    OnLinkRead(t, dst, c);
    ByRouteRead(t, dst, c);
  }

  lemma {:induction false} WaysPositive(t: Tree, dst: U32, w: F.Way)
    requires F.IsWay(t, dst, w)
    ensures WayOfCandidate(CandidateOf(w)) == w
  {
  }

  lemma {:induction false} BetterRead(c: Candidate, d: Candidate)
    requires c == CandidateOf(WayOfCandidate(c)) && d == CandidateOf(WayOfCandidate(d))
    ensures Better(c, d) <==> F.Beats(WayOfCandidate(c), WayOfCandidate(d))
  {
  }

  /** The route is an unbeaten way, and nowhere only if there is none. */
  lemma {:induction false} RouteRead(t: Tree, dst: Ip)
    ensures F.LeavesBy(t, dst, RouteOf(t, dst))
  {
    RouteIsOptimum(t, dst);
    if dst.V4? {
      RouteRead4(t, dst.n);
    } else {
      NoCandidates6(t, dst);
    }
  }

  lemma {:induction false} RouteRead4(t: Tree, dst: U32)
    ensures F.LeavesBy(t, V4(dst), RouteOf(t, V4(dst)))
  {
    var l := Candidates(t, V4(dst));
    RouteIsOptimum(t, V4(dst));
    match Best(None, l)
    case Some(c) =>
      CandidatesRead(t, dst, c);
      var w := WayOfCandidate(c);
      forall v | F.IsWay(t, dst, v) ensures !F.Beats(v, w) {
        WaysPositive(t, dst, v);
        CandidatesRead(t, dst, CandidateOf(v));
        BetterRead(CandidateOf(v), c);
      }
      assert F.Unbeaten(t, dst, w) && w.iface == c.iface;
    case None =>
      forall w ensures !F.IsWay(t, dst, w) {
        if F.IsWay(t, dst, w) {
          WaysPositive(t, dst, w);
          CandidatesRead(t, dst, CandidateOf(w));
          assert false;
        }
      }
  }

  lemma {:induction false} NoCandidates6(t: Tree, dst: Ip)
    requires dst.V6?
    ensures Candidates(t, dst) == []
  {
    var l := Candidates(t, dst);
    if l != [] {
      assert l[0] in l;
      ConnectedMembers(t.interfaces, dst, l[0]);
      StaticMembers(t.routes, dst, l[0]);
      assert false;
    }
  }

  lemma {:induction false} ActiveRead(l: seq<Object<StaticRouteSpec>>, i: nat)
    requires i < |l|
    ensures IsActive(l, i) <==> F.Active(l, i)
  {
    forall j | 0 <= j < |l| ensures Wins(l, i, j) <==> F.Leads(l, i, j) {
    }
  }
}
