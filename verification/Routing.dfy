/** Route lookup by the longest-match rule of section 5.2.4.3 of RFC 1812, and
    the list of active static routes. */
module Routing {
  import opened Prelude
  import opened Ipv4
  import opened Model

  predicate Holds(p: Prefix, dst: Ip) { dst.V4? && Contains(Masked(p), dst.n) }

  /** One way to reach a destination. Connected subnets rank before every
      static route: their distance and priority are zero. */
  datatype Candidate = Candidate(iface: Name, bits: Bits, distance: nat, priority: nat)

  /** Longer prefix first, then lower distance, then lower priority. */
  predicate Better(a: Candidate, b: Candidate) {
    || a.bits > b.bits
    || (a.bits == b.bits && (a.distance < b.distance || (a.distance == b.distance && a.priority < b.priority)))
  }

  function Hits(iface: Name, l: seq<Prefix>, dst: Ip): seq<Candidate> {
    if l == [] then []
    else (if Holds(l[0], dst) then [Candidate(iface, l[0].bits, 0, 0)] else []) + Hits(iface, l[1..], dst)
  }

  function Connected(l: seq<Object<InterfaceSpec>>, dst: Ip): seq<Candidate> {
    if l == [] then []
    else (if IsEnabled(l[0].spec.enabled) then Hits(l[0].meta.name, StaticAddresses(l[0].spec), dst) else [])
         + Connected(l[1..], dst)
  }

  function Via(r: StaticRouteSpec): Candidate {
    Candidate(r.iface, r.destination.bits, Preference(r).0, Preference(r).1)
  }

  function Static(l: seq<Object<StaticRouteSpec>>, dst: Ip): seq<Candidate> {
    if l == [] then []
    else (if Holds(l[0].spec.destination, dst) then [Via(l[0].spec)] else []) + Static(l[1..], dst)
  }

  function Candidates(t: Tree, dst: Ip): seq<Candidate> {
    Connected(t.interfaces, dst) + Static(t.routes, dst)
  }

  /** The best candidate so far, kept unless a later one is better. */
  function Best(best: Option<Candidate>, l: seq<Candidate>): Option<Candidate>
    decreases |l|
  {
    if l == [] then best else Best(Choose(best, l[0]), l[1..])
  }

  function Choose(best: Option<Candidate>, c: Candidate): Option<Candidate> {
    if best.None? || Better(c, best.value) then Some(c) else best
  }

  /** The outgoing Interface for a destination, or the empty name. */
  function RouteOf(t: Tree, dst: Ip): Name {
    match Best(None, Candidates(t, dst))
    case Some(c) => c.iface
    case None => ""
  }

  // ---- optimality ---------------------------------------------------------------

  ghost predicate IsOptimum(l: seq<Candidate>, c: Candidate) {
    c in l && forall d :: d in l ==> !Better(d, c)
  }

  lemma {:induction false} BestIsOptimum(best: Option<Candidate>, l: seq<Candidate>)
    ensures match Best(best, l)
      case Some(c) => (c in l || best == Some(c)) && (forall d :: d in l ==> !Better(d, c)) &&
                      (best.Some? ==> !Better(best.value, c))
      case None => l == [] && best == None
    decreases |l|
  {
    if l != [] {
      BestIsOptimum(Choose(best, l[0]), l[1..]);
      assert forall d :: d in l <==> d == l[0] || d in l[1..];
    }
  }

  /** The route is an optimum of the candidates, and there is none exactly when
      nothing contains the destination. */
  lemma RouteIsOptimum(t: Tree, dst: Ip)
    ensures match Best(None, Candidates(t, dst))
      case Some(c) => IsOptimum(Candidates(t, dst), c) && RouteOf(t, dst) == c.iface
      case None => Candidates(t, dst) == [] && RouteOf(t, dst) == ""
  {
    BestIsOptimum(None, Candidates(t, dst));
  }

  lemma {:induction false} HitsMembers(iface: Name, l: seq<Prefix>, dst: Ip, c: Candidate)
    ensures c in Hits(iface, l, dst) <==>
      exists p :: p in l && Holds(p, dst) && c == Candidate(iface, p.bits, 0, 0)
  {
    if l != [] {
      HitsMembers(iface, l[1..], dst, c);
      assert forall p :: p in l <==> p == l[0] || p in l[1..];
    }
  }

  /** An Interface address that puts a destination on a connected subnet. */
  ghost predicate Attached(o: Object<InterfaceSpec>, p: Prefix, dst: Ip) {
    IsEnabled(o.spec.enabled) && p in StaticAddresses(o.spec) && Holds(p, dst)
  }

  lemma {:induction false} ConnectedMembers(l: seq<Object<InterfaceSpec>>, dst: Ip, c: Candidate)
    ensures c in Connected(l, dst) <==>
      exists o, p :: o in l && Attached(o, p, dst) && c == Candidate(o.meta.name, p.bits, 0, 0)
  {
    if l != [] {
      ConnectedMembers(l[1..], dst, c);
      HitsMembers(l[0].meta.name, StaticAddresses(l[0].spec), dst, c);
      assert forall o :: o in l <==> o == l[0] || o in l[1..];
      if c in Hits(l[0].meta.name, StaticAddresses(l[0].spec), dst) && IsEnabled(l[0].spec.enabled) {
        var p :| p in StaticAddresses(l[0].spec) && Holds(p, dst) && c == Candidate(l[0].meta.name, p.bits, 0, 0);
        assert l[0] in l && Attached(l[0], p, dst);
      }
    }
  }

  lemma {:induction false} StaticMembers(l: seq<Object<StaticRouteSpec>>, dst: Ip, c: Candidate)
    ensures c in Static(l, dst) <==> exists o :: o in l && Holds(o.spec.destination, dst) && c == Via(o.spec)
  {
    if l != [] {
      StaticMembers(l[1..], dst, c);
      assert forall o :: o in l <==> o == l[0] || o in l[1..];
    }
  }

  // ---- independence of list order -------------------------------------------------

  function OwnedBy(iface: Name, l: seq<Prefix>): (r: seq<(Name, Prefix)>)
    ensures |r| == |l| && forall i :: 0 <= i < |l| ==> r[i] == (iface, l[i])
  {
    if l == [] then [] else [(iface, l[0])] + OwnedBy(iface, l[1..])
  }

  /** All addresses of all Interfaces, in order, with their owners. */
  function Owned(l: seq<Object<InterfaceSpec>>): seq<(Name, Prefix)> {
    if l == [] then [] else OwnedBy(l[0].meta.name, StaticAddresses(l[0].spec)) + Owned(l[1..])
  }

  ghost predicate Apart(l: seq<(Name, Prefix)>) {
    forall i, j :: 0 <= i < j < |l| ==> !Overlaps(l[i].1, l[j].1)
  }

  /** DM-04: no two addresses of Interfaces, at different places, overlap. */
  ghost predicate SubnetsDisjoint(l: seq<Object<InterfaceSpec>>) { Apart(Owned(l)) }

  lemma {:induction false} OwnedMembers(l: seq<Object<InterfaceSpec>>, o: Object<InterfaceSpec>, p: Prefix)
    requires o in l && p in StaticAddresses(o.spec)
    ensures (o.meta.name, p) in Owned(l)
  {
    if o == l[0] {
      var k :| 0 <= k < |StaticAddresses(o.spec)| && StaticAddresses(o.spec)[k] == p;
      assert OwnedBy(o.meta.name, StaticAddresses(o.spec))[k] == (o.meta.name, p);
    } else {
      OwnedMembers(l[1..], o, p);
    }
  }

  /** Two owned prefixes with a common address are the same. */
  lemma OwnedUnique(l: seq<Object<InterfaceSpec>>, a: (Name, Prefix), b: (Name, Prefix), x: U32)
    requires SubnetsDisjoint(l) && a in Owned(l) && b in Owned(l) && Contains(a.1, x) && Contains(b.1, x)
    ensures a == b
  {
    OverlapsIffMeet(a.1, b.1);
    OverlapsIffMeet(b.1, a.1);
    var i :| 0 <= i < |Owned(l)| && Owned(l)[i] == a;
    var j :| 0 <= j < |Owned(l)| && Owned(l)[j] == b;
  }

  /** DM-23: no two routes have the same network, distance and priority. */
  ghost predicate NoTies(l: seq<Object<StaticRouteSpec>>) {
    forall i, j :: 0 <= i < j < |l| ==> RouteKey(l[i].spec) != RouteKey(l[j].spec)
  }

  function RouteKey(r: StaticRouteSpec): (Prefix, (nat, nat)) { (Masked(r.destination), Preference(r)) }

  lemma StaticEqualRank(l: seq<Object<StaticRouteSpec>>, dst: Ip, c: Candidate, d: Candidate)
    requires NoTies(l) && c in Static(l, dst) && d in Static(l, dst) && !Better(c, d) && !Better(d, c)
    ensures c == d
  {
    StaticMembers(l, dst, c);
    StaticMembers(l, dst, d);
    var o :| o in l && Holds(o.spec.destination, dst) && c == Via(o.spec);
    var o' :| o' in l && Holds(o'.spec.destination, dst) && d == Via(o'.spec);
    MaskedContains(o.spec.destination, dst.n);
    MaskedContains(o'.spec.destination, dst.n);
    SameLengthMeet(o.spec.destination, o'.spec.destination, dst.n);
    assert RouteKey(o.spec) == RouteKey(o'.spec);
  }

  lemma ConnectedEqualRank(l: seq<Object<InterfaceSpec>>, dst: Ip, c: Candidate, d: Candidate)
    requires SubnetsDisjoint(l) && c in Connected(l, dst) && d in Connected(l, dst)
    ensures c == d && c.distance == 0
  {
    ConnectedMembers(l, dst, c);
    ConnectedMembers(l, dst, d);
    var o, p :| o in l && Attached(o, p, dst) && c == Candidate(o.meta.name, p.bits, 0, 0);
    var o', p' :| o' in l && Attached(o', p', dst) && d == Candidate(o'.meta.name, p'.bits, 0, 0);
    OwnedMembers(l, o, p);
    OwnedMembers(l, o', p');
    MaskedContains(p, dst.n);
    MaskedContains(p', dst.n);
    OwnedUnique(l, (o.meta.name, p), (o'.meta.name, p'), dst.n);
  }

  lemma RankTellsKind(t: Tree, dst: Ip, c: Candidate)
    ensures c in Connected(t.interfaces, dst) ==> c.distance == 0
    ensures c in Static(t.routes, dst) ==> c.distance > 0
  {
    ConnectedMembers(t.interfaces, dst, c);
    StaticMembers(t.routes, dst, c);
  }

  /** Candidates of equal rank are the same. */
  lemma EqualRankSame(t: Tree, dst: Ip, c: Candidate, d: Candidate)
    requires SubnetsDisjoint(t.interfaces) && NoTies(t.routes)
    requires c in Candidates(t, dst) && d in Candidates(t, dst) && !Better(c, d) && !Better(d, c)
    ensures c == d
  {
    RankTellsKind(t, dst, c);
    RankTellsKind(t, dst, d);
    if c.distance == 0 {
      ConnectedEqualRank(t.interfaces, dst, c, d);
    } else {
      StaticEqualRank(t.routes, dst, c, d);
    }
  }

  lemma BothEmpty<T>(a: seq<T>, b: seq<T>)
    requires forall x :: x in a <==> x in b
    ensures a == [] <==> b == []
  {
    assert a != [] ==> a[0] in b;
    assert b != [] ==> b[0] in a;
  }

  lemma SameCandidate(t: Tree, u: Tree, dst: Ip, c: Candidate)
    requires Permuted(t.interfaces, u.interfaces) && Permuted(t.routes, u.routes)
    ensures c in Candidates(t, dst) <==> c in Candidates(u, dst)
  {
    PermutedMembers(t.interfaces, u.interfaces);
    PermutedMembers(t.routes, u.routes);
    ConnectedMembers(t.interfaces, dst, c);
    ConnectedMembers(u.interfaces, dst, c);
    StaticMembers(t.routes, dst, c);
    StaticMembers(u.routes, dst, c);
  }

  /** Without overlapping subnets and without ties the route does not depend on
      the order of the Interfaces and the routes. */
  lemma RouteOrderIndependent(t: Tree, u: Tree, dst: Ip)
    requires SubnetsDisjoint(t.interfaces) && NoTies(t.routes)
    requires Permuted(t.interfaces, u.interfaces) && Permuted(t.routes, u.routes)
    ensures RouteOf(t, dst) == RouteOf(u, dst)
  {
    forall c ensures c in Candidates(t, dst) <==> c in Candidates(u, dst) {
      SameCandidate(t, u, dst, c);
    }
    RouteIsOptimum(t, dst);
    RouteIsOptimum(u, dst);
    var c, d := Best(None, Candidates(t, dst)), Best(None, Candidates(u, dst));
    if c.Some? && d.Some? {
      EqualRankSame(t, dst, c.value, d.value);
    } else {
      BothEmpty(Candidates(t, dst), Candidates(u, dst));
    }
  }

  // ---- the lookup as it is programmed -----------------------------------------------

  lemma {:induction false} BestAppend(best: Option<Candidate>, a: seq<Candidate>, b: seq<Candidate>)
    ensures Best(best, a + b) == Best(Best(best, a), b)
    decreases |a|
  {
    if a == [] {
      assert a + b == b;
    } else {
      assert a + b == [a[0]] + (a[1..] + b);
      BestAppend(Choose(best, a[0]), a[1..], b);
    }
  }

  /** What the variables of the lookup say about the best candidate: a length
      of -1 stands for none, and the preference of a connected subnet is (0, 0). */
  predicate Shows(best: Name, bits: int, pref: (nat, nat), c: Option<Candidate>) {
    match c
    case None => best == "" && bits == -1
    case Some(k) => best == k.iface && bits == k.bits && pref == (k.distance, k.priority)
  }

  lemma BestCons(c: Option<Candidate>, k: Candidate, rest: seq<Candidate>)
    ensures Best(c, [k] + rest) == Best(Choose(c, k), rest)
    ensures Best(c, [] + rest) == Best(c, rest)
  {
    assert ([k] + rest)[1..] == rest;
    assert [] + rest == rest;
  }

  method Route(t: Tree, dst: Ip) returns (best: Name)
    ensures best == RouteOf(t, dst)
  {
    var bits: int;
    ghost var linked: Option<Candidate>;
    best, bits, linked := ScanInterfaces(t.interfaces, dst);
    BestAppend(None, Connected(t.interfaces, dst), Static(t.routes, dst));
    var bestPref: (nat, nat) := (0, 0);
    ghost var c := linked;
    for i := 0 to |t.routes|
      invariant Shows(best, bits, bestPref, c)
      invariant Best(c, Static(t.routes[i..], dst)) == Best(linked, Static(t.routes, dst))
    {
      var r := t.routes[i].spec;
      assert t.routes[i..][1..] == t.routes[i + 1..];
      BestCons(c, Via(r), Static(t.routes[i + 1..], dst));
      if Holds(r.destination, dst) {
        var p := Preference(r);
        c := Choose(c, Via(r));
        if r.destination.bits > bits {
          best, bits, bestPref := r.iface, r.destination.bits, p;
        } else if r.destination.bits == bits && bits >= 0 &&
                  (p.0 < bestPref.0 || (p.0 == bestPref.0 && p.1 < bestPref.1)) {
          best, bestPref := r.iface, p;
        }
      }
    }
  }

  /** The loop over the Interfaces: the best connected subnet. */
  method ScanInterfaces(l: seq<Object<InterfaceSpec>>, dst: Ip)
    returns (best: Name, bits: int, ghost c: Option<Candidate>)
    ensures c == Best(None, Connected(l, dst)) && Shows(best, bits, (0, 0), c)
  {
    best, bits, c := "", -1, None;
    for i := 0 to |l|
      invariant Shows(best, bits, (0, 0), c)
      invariant Best(c, Connected(l[i..], dst)) == Best(None, Connected(l, dst))
    {
      var o := l[i];
      assert l[i..][1..] == l[i + 1..];
      if IsEnabled(o.spec.enabled) {
        var addresses := StaticAddresses(o.spec);
        BestAppend(c, Hits(o.meta.name, addresses, dst), Connected(l[i + 1..], dst));
        best, bits, c := ScanAddresses(o.meta.name, addresses, dst, best, bits, c);
      } else {
        assert [] + Connected(l[i + 1..], dst) == Connected(l[i + 1..], dst);
      }
    }
  }

  /** The loop over the addresses of one Interface. */
  method ScanAddresses(iface: Name, l: seq<Prefix>, dst: Ip, best0: Name, bits0: int, ghost c0: Option<Candidate>)
    returns (best: Name, bits: int, ghost c: Option<Candidate>)
    requires Shows(best0, bits0, (0, 0), c0)
    ensures Shows(best, bits, (0, 0), c) && c == Best(c0, Hits(iface, l, dst))
  {
    best, bits, c := best0, bits0, c0;
    for k := 0 to |l|
      invariant Shows(best, bits, (0, 0), c)
      invariant Best(c, Hits(iface, l[k..], dst)) == Best(c0, Hits(iface, l, dst))
    {
      ghost var hit := Candidate(iface, l[k].bits, 0, 0);
      assert l[k..][1..] == l[k + 1..];
      BestCons(c, hit, Hits(iface, l[k + 1..], dst));
      if Holds(l[k], dst) {
        c := Choose(c, hit);
        if l[k].bits > bits {
          best, bits := iface, l[k].bits;
        }
      }
    }
  }

  // ---- active routes ----------------------------------------------------------------

  predicate Preferred(a: StaticRouteSpec, b: StaticRouteSpec) {
    var (p, q) := (Preference(a), Preference(b));
    p.0 < q.0 || (p.0 == q.0 && p.1 < q.1)
  }

  /** Of two routes at two places, the one at i wins. */
  ghost predicate Wins(l: seq<Object<StaticRouteSpec>>, i: nat, j: nat)
    requires i < |l| && j < |l|
  {
    !Preferred(l[j].spec, l[i].spec) && (j < i ==> Preferred(l[i].spec, l[j].spec))
  }

  /** No route with the same destination, as it is written, wins over it. */
  ghost predicate IsActive(l: seq<Object<StaticRouteSpec>>, i: nat)
    requires i < |l|
  {
    forall j :: 0 <= j < |l| && l[j].spec.destination == l[i].spec.destination ==> Wins(l, i, j)
  }

  /** No route to the same network wins over it. */
  ghost predicate IsActiveForNetwork(l: seq<Object<StaticRouteSpec>>, i: nat)
    requires i < |l|
  {
    forall j :: 0 <= j < |l| && Masked(l[j].spec.destination) == Masked(l[i].spec.destination) ==> Wins(l, i, j)
  }

  ghost predicate SpelledAlike(l: seq<Object<StaticRouteSpec>>) {
    forall i, j :: 0 <= i < |l| && 0 <= j < |l| && Masked(l[i].spec.destination) == Masked(l[j].spec.destination) ==>
      l[i].spec.destination == l[j].spec.destination
  }

  /** Index i of the first n places holds the winner for a destination. */
  ghost predicate WinnerSoFar(l: seq<Object<StaticRouteSpec>>, d: Prefix, i: nat, n: nat)
    requires i < n <= |l|
  {
    l[i].spec.destination == d && forall k :: 0 <= k < n && l[k].spec.destination == d ==> Wins(l, i, k)
  }

  ghost predicate Tracks(l: seq<Object<StaticRouteSpec>>, best: map<Prefix, Object<StaticRouteSpec>>,
                         at: map<Prefix, nat>, n: nat)
    requires n <= |l|
  {
    && best.Keys == at.Keys
    && (forall k :: 0 <= k < n ==> l[k].spec.destination in at)
    && (forall d :: d in at ==> at[d] < n && l[at[d]] == best[d] && WinnerSoFar(l, d, at[d], n))
  }

  method ActiveRoutes(l: seq<Object<StaticRouteSpec>>) returns (out: set<Name>)
    ensures forall n :: n in out <==> exists i :: 0 <= i < |l| && IsActive(l, i) && l[i].meta.name == n
  {
    var best: map<Prefix, Object<StaticRouteSpec>> := map[];
    ghost var at: map<Prefix, nat> := map[];
    for i := 0 to |l|
      invariant Tracks(l, best, at, i)
    {
      var d := l[i].spec.destination;
      TracksStep(l, best, at, i);
      if d !in best || Preferred(l[i].spec, best[d].spec) {
        best, at := best[d := l[i]], at[d := i];
      }
    }
    out := set d | d in best :: best[d].meta.name;
    TracksAll(l, best, at, out);
  }

  lemma TracksStep(l: seq<Object<StaticRouteSpec>>, best: map<Prefix, Object<StaticRouteSpec>>, at: map<Prefix, nat>,
                   i: nat)
    requires i < |l| && Tracks(l, best, at, i)
    ensures var d := l[i].spec.destination;
      if d !in best || Preferred(l[i].spec, best[d].spec) then Tracks(l, best[d := l[i]], at[d := i], i + 1)
      else Tracks(l, best, at, i + 1)
  {
  }

  lemma TracksAll(l: seq<Object<StaticRouteSpec>>, best: map<Prefix, Object<StaticRouteSpec>>,
                  at: map<Prefix, nat>, out: set<Name>)
    requires Tracks(l, best, at, |l|) && out == set d | d in best :: best[d].meta.name
    ensures forall n :: n in out <==> exists i :: 0 <= i < |l| && IsActive(l, i) && l[i].meta.name == n
  {
  }

  lemma BetterThanWorse(a: Candidate, b: Candidate, c: Candidate)
    requires Better(a, b) && !Better(c, b)
    ensures Better(a, c)
  {
  }

  /** The route at i gives the best of the static candidates: it is better than
      the starting candidate and than all routes before it. */
  ghost predicate Decides(best: Option<Candidate>, l: seq<Object<StaticRouteSpec>>, dst: Ip, i: int) {
    && 0 <= i < |l| && Holds(l[i].spec.destination, dst)
    && Best(best, Static(l, dst)) == Some(Via(l[i].spec))
    && (best.Some? ==> Better(Via(l[i].spec), best.value))
    && (forall j :: 0 <= j < i && Holds(l[j].spec.destination, dst) ==> Better(Via(l[i].spec), Via(l[j].spec)))
  }

  /** Either no route is better than the starting candidate, or one decides. */
  lemma {:induction false} SomeRouteDecides(best: Option<Candidate>, l: seq<Object<StaticRouteSpec>>, dst: Ip)
    ensures Best(best, Static(l, dst)) == best || exists i :: Decides(best, l, dst, i)
    decreases |l|
  {
    if l != [] {
      var v, rest := Via(l[0].spec), l[1..];
      BestCons(best, v, Static(rest, dst));
      var next := if Holds(l[0].spec.destination, dst) then Choose(best, v) else best;
      SomeRouteDecides(next, rest, dst);
      if i :| Decides(next, rest, dst, i) {
        DecidesLater(best, l, dst, next, i);
      } else if next != best {
        assert Decides(best, l, dst, 0);
      }
    }
  }

  lemma DecidesLater(best: Option<Candidate>, l: seq<Object<StaticRouteSpec>>, dst: Ip,
                     next: Option<Candidate>, i: int)
    requires l != [] && Decides(next, l[1..], dst, i)
    requires next == if Holds(l[0].spec.destination, dst) then Choose(best, Via(l[0].spec)) else best
    ensures Decides(best, l, dst, i + 1)
  {
    var v, c := Via(l[0].spec), Via(l[i + 1].spec);
    BestCons(best, v, Static(l[1..], dst));
    if Holds(l[0].spec.destination, dst) {
      BetterThanWorse(c, next.value, v);
    }
    forall j | 0 <= j < i + 1 && Holds(l[j].spec.destination, dst) ensures Better(c, Via(l[j].spec)) {
      if j > 0 { assert l[1..][j - 1] == l[j]; }
    }
  }

  /** The best candidate for the destination is the route at i. */
  ghost predicate IsWayTo(t: Tree, i: nat, dst: Ip)
    requires i < |t.routes|
  {
    && Holds(t.routes[i].spec.destination, dst)
    && Best(None, Candidates(t, dst)) == Some(Via(t.routes[i].spec))
  }

  /** A static route that decides a destination is active. */
  lemma DecidingRouteIsActive(t: Tree, dst: Ip)
    requires Best(None, Candidates(t, dst)).Some? && Best(None, Candidates(t, dst)).value.distance > 0
    ensures exists i :: 0 <= i < |t.routes| && IsActive(t.routes, i) && IsWayTo(t, i, dst)
  {
    var linked := Best(None, Connected(t.interfaces, dst));
    BestAppend(None, Connected(t.interfaces, dst), Static(t.routes, dst));
    BestIsOptimum(None, Connected(t.interfaces, dst));
    if linked.Some? { RankTellsKind(t, dst, linked.value); }
    SomeRouteDecides(linked, t.routes, dst);
    var i :| Decides(linked, t.routes, dst, i);
    BestIsOptimum(None, Candidates(t, dst));
    OptimumIsActive(t.routes, dst, linked, i);
    assert IsWayTo(t, i, dst);
  }

  lemma OptimumIsActive(l: seq<Object<StaticRouteSpec>>, dst: Ip, best: Option<Candidate>, i: int)
    requires Decides(best, l, dst, i)
    ensures IsActive(l, i)
  {
    BestIsOptimum(best, Static(l, dst));
    forall j | 0 <= j < |l| && l[j].spec.destination == l[i].spec.destination ensures Wins(l, i, j) {
      StaticMembers(l, dst, Via(l[j].spec));
    }
  }

  lemma {:induction false} SomeWinner(l: seq<Object<StaticRouteSpec>>, d: Prefix, n: nat) returns (i: nat)
    requires n <= |l| && exists k :: 0 <= k < n && l[k].spec.destination == d
    ensures i < n && WinnerSoFar(l, d, i, n)
  {
    if exists k :: 0 <= k < n - 1 && l[k].spec.destination == d {
      i := SomeWinner(l, d, n - 1);
      if l[n - 1].spec.destination == d && Preferred(l[n - 1].spec, l[i].spec) {
        i := n - 1;
      }
    } else {
      i := n - 1;
    }
  }

  /** The list of active routes has one route for each network exactly when
      every network is written with the same host bits in all its routes. */
  lemma ActivePerNetwork(l: seq<Object<StaticRouteSpec>>)
    ensures (forall i :: 0 <= i < |l| ==> (IsActive(l, i) <==> IsActiveForNetwork(l, i))) <==> SpelledAlike(l)
  {
    if forall i :: 0 <= i < |l| ==> (IsActive(l, i) <==> IsActiveForNetwork(l, i)) {
      forall i, j | 0 <= i < |l| && 0 <= j < |l| && Masked(l[i].spec.destination) == Masked(l[j].spec.destination)
        ensures l[i].spec.destination == l[j].spec.destination
      {
        var a := SomeWinner(l, l[i].spec.destination, |l|);
        var b := SomeWinner(l, l[j].spec.destination, |l|);
        assert IsActive(l, a) && IsActive(l, b);
        assert Wins(l, a, b) && Wins(l, b, a);
      }
    }
  }
}
