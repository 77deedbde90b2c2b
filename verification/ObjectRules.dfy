/** The checks of single kinds of objects agree with what is lawful. */
module ObjectRules {
  import opened Prelude
  import opened Ipv4
  import opened Model
  import opened Expand
  import opened Cycles
  import opened Matching
  import opened Routing
  import opened Clean
  import opened Guarantees
  import opened Readings
  import F = Facts
  import L = Lawful
  import V = Validator

  // ---- subnets --------------------------------------------------------------------------------

  lemma {:induction false} MeetRead(p: Prefix, q: Prefix)
    ensures Overlaps(p, q) <==> L.BlocksMeet(p, q)
  {
    OverlapsIffMeet(p, q);
    forall x: U32 ensures (Contains(p, x) <==> F.InBlock(p, x)) && (Contains(q, x) <==> F.InBlock(q, x)) {
      BlockRead(p, x);
      BlockRead(q, x);
    }
  }

  /** The addresses of one Interface do not meet those of a list. */
  ghost predicate Clear(o: Object<InterfaceSpec>, l: seq<Object<InterfaceSpec>>) {
    forall k, p, j, m, q :: F.HasAddress(o, k, p) && L.AddressAt(l, j, m, q) ==> !L.BlocksMeet(p, q)
  }

  ghost predicate ClearAlone(o: Object<InterfaceSpec>) {
    forall k, p, m, q :: F.HasAddress(o, k, p) && F.HasAddress(o, m, q) && k != m ==> !L.BlocksMeet(p, q)
  }

  lemma {:induction false} MeetSymmetric(p: Prefix, q: Prefix)
    ensures L.BlocksMeet(p, q) <==> L.BlocksMeet(q, p)
  {
  }

  lemma {:induction false} SubnetsCons(l: seq<Object<InterfaceSpec>>)
    requires l != []
    ensures L.LawfulSubnets(l) <==> ClearAlone(l[0]) && Clear(l[0], l[1..]) && L.LawfulSubnets(l[1..])
  {
    var rest := l[1..];
    forall i, k, p ensures L.AddressAt(rest, i, k, p) <==> L.AddressAt(l, i + 1, k, p) && i >= 0 {
      assert 0 <= i < |rest| ==> rest[i] == l[i + 1];
    }
    if L.LawfulSubnets(l) {
      forall k, p, m, q | F.HasAddress(l[0], k, p) && F.HasAddress(l[0], m, q) && k != m ensures !L.BlocksMeet(p, q) {
        assert L.AddressAt(l, 0, k, p) && L.AddressAt(l, 0, m, q);
      }
      forall k, p, j, m, q | F.HasAddress(l[0], k, p) && L.AddressAt(rest, j, m, q) ensures !L.BlocksMeet(p, q) {
        assert L.AddressAt(l, 0, k, p) && L.AddressAt(l, j + 1, m, q);
      }
      forall i, k, p, j, m, q | L.AddressAt(rest, i, k, p) && L.AddressAt(rest, j, m, q) && (i, k) != (j, m)
        ensures !L.BlocksMeet(p, q)
      {
        assert L.AddressAt(l, i + 1, k, p) && L.AddressAt(l, j + 1, m, q);
      }
    }
    if ClearAlone(l[0]) && Clear(l[0], rest) && L.LawfulSubnets(rest) {
      forall i, k, p, j, m, q | L.AddressAt(l, i, k, p) && L.AddressAt(l, j, m, q) && (i, k) != (j, m)
        ensures !L.BlocksMeet(p, q)
      {
        PlacesClear(l, i, k, p, j, m, q);
      }
    }
  }

  lemma {:induction false} PlacesClear(l: seq<Object<InterfaceSpec>>, i: int, k: int, p: Prefix, j: int, m: int, q: Prefix)
    requires l != [] && ClearAlone(l[0]) && Clear(l[0], l[1..]) && L.LawfulSubnets(l[1..])
    requires L.AddressAt(l, i, k, p) && L.AddressAt(l, j, m, q) && (i, k) != (j, m)
    ensures !L.BlocksMeet(p, q)
  {
    MeetSymmetric(p, q);
    if i > 0 { assert L.AddressAt(l[1..], i - 1, k, p); }
    if j > 0 { assert L.AddressAt(l[1..], j - 1, m, q); }
  }

  lemma {:induction false} ApartConcat(a: seq<(Name, Prefix)>, b: seq<(Name, Prefix)>)
    ensures Apart(a + b) <==> Apart(a) && Apart(b) && forall x, y :: x in a && y in b ==> !Overlaps(x.1, y.1)
  {
    var c := a + b;
    assert forall i :: 0 <= i < |a| ==> c[i] == a[i];
    assert forall i :: 0 <= i < |b| ==> c[|a| + i] == b[i];
    if Apart(c) {
      forall i, j | 0 <= i < |a| && 0 <= j < |b| ensures !Overlaps(a[i].1, b[j].1) {
        assert !Overlaps(c[i].1, c[|a| + j].1);
      }
      forall i, j | 0 <= i < j < |b| ensures !Overlaps(b[i].1, b[j].1) {
        assert !Overlaps(c[|a| + i].1, c[|a| + j].1);
      }
      forall i, j | 0 <= i < j < |a| ensures !Overlaps(a[i].1, a[j].1) {
        assert !Overlaps(c[i].1, c[j].1);
      }
    }
  }

  lemma {:induction false} OwnRead(o: Object<InterfaceSpec>)
    ensures Apart(OwnedBy(o.meta.name, StaticAddresses(o.spec))) <==> ClearAlone(o)
  {
    var l := StaticAddresses(o.spec);
    var d := OwnedBy(o.meta.name, l);
    forall k, p ensures F.HasAddress(o, k, p) <==> 0 <= k < |l| && l[k] == p {
    }
    forall i, j | 0 <= i < j < |l| ensures Overlaps(d[i].1, d[j].1) <==> L.BlocksMeet(l[i], l[j]) {
      MeetRead(l[i], l[j]);
    }
    if Apart(d) {
      forall k, p, m, q | F.HasAddress(o, k, p) && F.HasAddress(o, m, q) && k != m ensures !L.BlocksMeet(p, q) {
        MeetSymmetric(p, q);
        assert k < m ==> !Overlaps(d[k].1, d[m].1);
        assert m < k ==> !Overlaps(d[m].1, d[k].1);
      }
    }
    if ClearAlone(o) {
      forall i, j | 0 <= i < j < |d| ensures !Overlaps(d[i].1, d[j].1) {
        assert F.HasAddress(o, i, l[i]) && F.HasAddress(o, j, l[j]);
      }
    }
  }

  lemma {:induction false} OwnsRead(o: Object<InterfaceSpec>, q: Prefix)
    ensures (exists x :: x in OwnedBy(o.meta.name, StaticAddresses(o.spec)) && x.1 == q) <==>
      exists k :: F.HasAddress(o, k, q)
  {
    var own := OwnedBy(o.meta.name, StaticAddresses(o.spec));
    AddressRead(o, q);
    if x :| x in own && x.1 == q {
      var k :| 0 <= k < |own| && own[k] == x;
      assert F.HasAddress(o, k, q);
    }
    if k :| F.HasAddress(o, k, q) {
      assert own[k] in own && own[k].1 == q;
    }
  }

  lemma {:induction false} AtCons(l: seq<Object<InterfaceSpec>>, q: Prefix)
    requires l != []
    ensures (exists i, k :: L.AddressAt(l, i, k, q)) <==>
      (exists k :: F.HasAddress(l[0], k, q)) || exists i, k :: L.AddressAt(l[1..], i, k, q)
  {
    if k :| F.HasAddress(l[0], k, q) {
      assert L.AddressAt(l, 0, k, q);
    }
    if i, k :| L.AddressAt(l[1..], i, k, q) {
      assert L.AddressAt(l, i + 1, k, q);
    }
    if i, k :| L.AddressAt(l, i, k, q) {
      if i > 0 { assert L.AddressAt(l[1..], i - 1, k, q); }
    }
  }

  lemma {:induction false} OwnedRead(l: seq<Object<InterfaceSpec>>, q: Prefix)
    ensures (exists x :: x in Owned(l) && x.1 == q) <==> exists i, k :: L.AddressAt(l, i, k, q)
  {
    if l != [] {
      OwnedRead(l[1..], q);
      var own := OwnedBy(l[0].meta.name, StaticAddresses(l[0].spec));
      assert forall x :: x in Owned(l) <==> x in own || x in Owned(l[1..]);
      OwnsRead(l[0], q);
      AtCons(l, q);
    }
  }

  lemma {:induction false} CrossRead(o: Object<InterfaceSpec>, l: seq<Object<InterfaceSpec>>)
    ensures (forall x, y :: x in OwnedBy(o.meta.name, StaticAddresses(o.spec)) && y in Owned(l) ==> !Overlaps(x.1, y.1))
      <==> Clear(o, l)
  {
    var own := OwnedBy(o.meta.name, StaticAddresses(o.spec));
    if forall x, y :: x in own && y in Owned(l) ==> !Overlaps(x.1, y.1) {
      forall k, p, j, m, q | F.HasAddress(o, k, p) && L.AddressAt(l, j, m, q) ensures !L.BlocksMeet(p, q) {
        OwnedRead(l, q);
        var y :| y in Owned(l) && y.1 == q;
        assert own[k] in own && own[k].1 == p;
        MeetRead(p, q);
      }
    }
    if Clear(o, l) {
      forall x, y | x in own && y in Owned(l) ensures !Overlaps(x.1, y.1) {
        OwnedRead(l, y.1);
        var j, m :| L.AddressAt(l, j, m, y.1);
        var k :| 0 <= k < |own| && own[k] == x;
        assert F.HasAddress(o, k, x.1);
        MeetRead(x.1, y.1);
      }
    }
  }

  /** DM-04. */
  lemma {:induction false} SubnetsLawful(l: seq<Object<InterfaceSpec>>)
    ensures SubnetsDisjoint(l) <==> L.LawfulSubnets(l)
  {
    if l != [] {
      SubnetsLawful(l[1..]);
      SubnetsCons(l);
      ApartConcat(OwnedBy(l[0].meta.name, StaticAddresses(l[0].spec)), Owned(l[1..]));
      OwnRead(l[0]);
      CrossRead(l[0], l[1..]);
    }
  }

  lemma {:induction false} StartRead(p: Prefix)
    ensures Masked(p) == p <==> L.StartsBlock(p)
  {
    var d := Pow2(32 - p.bits);
    ModSmall(p.addr, d);
    forall n: nat | L.Multiple(n, d, p.addr) ensures p.addr % d == 0 {
      DivUnique(p.addr, d, n, 0);
    }
    if p.addr % d == 0 {
      var n: nat := p.addr / d;
      assert L.Multiple(n, d, p.addr);
    }
  }

  /** R-020.4. */
  lemma {:induction false} HostsLawful(l: seq<Object<InterfaceSpec>>)
    ensures HostAddresses(l) <==> L.LawfulHosts(l)
  {
    if L.LawfulHosts(l) {
      forall i | 0 <= i < |Owned(l)| ensures SuitsInterface(Owned(l)[i].1) {
        var p := Owned(l)[i].1;
        assert Owned(l)[i] in Owned(l);
        OwnedRead(l, p);
        var j, k :| L.AddressAt(l, j, k, p);
        StartRead(p);
      }
    }
    if HostAddresses(l) {
      forall i, k, p | L.AddressAt(l, i, k, p) ensures !L.StartsBlock(p) || p.bits >= 31 {
        OwnedRead(l, p);
        var x :| x in Owned(l) && x.1 == p;
        var j :| 0 <= j < |Owned(l)| && Owned(l)[j] == x;
        assert SuitsInterface(Owned(l)[j].1);
        StartRead(p);
      }
    }
  }

  // ---- Zones ----------------------------------------------------------------------------------

  lemma {:induction false} InterfaceRead(t: Tree, n: Name)
    ensures IsInterface(t, n) <==> F.Named(t.interfaces, n)
    ensures InNetwork(t, n) <==> L.InNetwork(t, n)
  {
    FindSound(t.interfaces, n);
    FindSound(t.zones, n);
  }

  /** DM-37. */
  lemma {:induction false} ZonesLawful(t: Tree)
    ensures ZonesListInterfaces(t) && ZonesDisjoint(t) <==> L.LawfulZones(t)
  {
    forall n ensures IsInterface(t, n) <==> F.Named(t.interfaces, n) {
      InterfaceRead(t, n);
    }
    if ZonesListInterfaces(t) && ZonesDisjoint(t) {
      forall z, k, n | L.ListedAt(t, z, k, n) ensures F.Named(t.interfaces, n) {
        assert MemberAt(t, z, k);
      }
      forall z, k, y, m, n | L.ListedAt(t, z, k, n) && L.ListedAt(t, y, m, n) ensures (z, k) == (y, m) {
        assert MemberAt(t, z, k) && MemberAt(t, y, m);
      }
    }
    if L.LawfulZones(t) {
      forall z, k | MemberAt(t, z, k) ensures IsInterface(t, t.zones[z].spec.interfaces[k]) {
        assert L.ListedAt(t, z, k, t.zones[z].spec.interfaces[k]);
      }
      forall z, k, y, m | MemberAt(t, z, k) && MemberAt(t, y, m) && (z, k) != (y, m)
        ensures t.zones[z].spec.interfaces[k] != t.zones[y].spec.interfaces[m]
      {
        assert L.ListedAt(t, z, k, t.zones[z].spec.interfaces[k]) && L.ListedAt(t, y, m, t.zones[y].spec.interfaces[m]);
      }
    }
  }

  // ---- Addresses, Services and groups ---------------------------------------------------------

  /** DM-14. */
  lemma {:induction false} FormsLawful(t: Tree)
    ensures RangesOk(t) <==> forall o :: o in t.addresses ==> L.LawfulForm(o.spec.form)
  {
    forall form ensures RangeOk(form) <==> L.LawfulForm(form) {
    }
    if RangesOk(t) {
      forall o | o in t.addresses ensures RangeOk(o.spec.form) {
        var i :| 0 <= i < |t.addresses| && t.addresses[i] == o;
      }
    }
    if forall o :: o in t.addresses ==> L.LawfulForm(o.spec.form) {
      forall i | 0 <= i < |t.addresses| ensures RangeOk(t.addresses[i].spec.form) {
        assert t.addresses[i] in t.addresses;
      }
    }
  }

  /** DM-17. */
  lemma {:induction false} PortsLawful(t: Tree)
    ensures AllPortsOk(t) <==> L.LawfulPorts(t)
  {
    if AllPortsOk(t) {
      forall o, e | o in t.services && e in o.spec.protocols ensures L.LawfulRange(e.port) && L.LawfulRange(e.sourcePort) {
        var i :| 0 <= i < |t.services| && t.services[i] == o;
        var k :| 0 <= k < |o.spec.protocols| && o.spec.protocols[k] == e;
        assert PortsOk(t.services[i].spec);
      }
    }
    if L.LawfulPorts(t) {
      forall i | 0 <= i < |t.services| ensures PortsOk(t.services[i].spec) {
        var s := t.services[i];
        assert s in t.services;
        forall k | 0 <= k < |s.spec.protocols| ensures PortOk(s.spec.protocols[k].port) && PortOk(s.spec.protocols[k].sourcePort) {
          assert s.spec.protocols[k] in s.spec.protocols;
        }
      }
    }
  }

  lemma {:induction false} LinksRead(l: seq<Object<GroupSpec>>, a: Name, m: seq<Name>)
    requires Consistent(l)
    ensures a in V.GroupLinks(l) && V.GroupLinks(l)[a] == m <==>
      exists g :: g in l && g.meta.name == a && g.spec.members == m
  {
    if l != [] {
      var n := |l| - 1;
      LinksRead(l[..n], a, m);
      assert forall g :: g in l <==> g in l[..n] || g == l[n];
    }
  }

  lemma {:induction false} LinkRead(l: seq<Object<GroupSpec>>, a: Name, b: Name)
    requires Consistent(l)
    ensures a in V.GroupLinks(l) && b in V.GroupLinks(l)[a] <==> F.HasMember(l, a, b)
  {
    if a in V.GroupLinks(l) { LinksRead(l, a, V.GroupLinks(l)[a]); }
    if g :| g in l && g.meta.name == a && b in g.spec.members { LinksRead(l, a, g.spec.members); }
  }

  lemma {:induction false} ChainRead(l: seq<Object<GroupSpec>>, p: seq<Name>)
    requires Consistent(l) && |p| >= 2 && p[0] == p[|p| - 1]
    ensures IsChain(V.GroupLinks(l), p) <==> F.Membership(l, p)
  {
    forall i | 0 <= i < |p| - 1
      ensures p[i] in V.GroupLinks(l) && p[i + 1] in V.GroupLinks(l)[p[i]] <==> F.HasMember(l, p[i], p[i + 1])
    {
      LinkRead(l, p[i], p[i + 1]);
    }
    if F.Membership(l, p) {
      forall i | 0 <= i < |p| ensures p[i] in V.GroupLinks(l) {
        var j := if i < |p| - 1 then i else 0;
        assert F.HasMember(l, p[j], p[j + 1]);
      }
    }
  }

  lemma {:induction false} GroupsLawful(l: seq<Object<GroupSpec>>)
    requires Consistent(l)
    ensures !HasCycle(V.GroupLinks(l)) <==> L.LawfulGroups(l)
  {
    if p :| |p| >= 2 && IsChain(V.GroupLinks(l), p) && p[0] == p[|p| - 1] {
      ChainRead(l, p);
    }
    if p :| |p| >= 2 && F.Membership(l, p) && p[0] == p[|p| - 1] {
      ChainRead(l, p);
    }
  }
}
