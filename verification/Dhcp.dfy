/** The rules for DHCP ranges: where a range may lie, and why two accepted
    ranges cannot overlap. */
module DhcpRules {
  import opened Prelude
  import opened Ipv4
  import opened Intervals
  import opened Model
  import opened Routing
  import opened Clean

  type Server = Object<DhcpServerSpec>

  /** The first prefix of a list that contains an address. */
  function InAny(ip: U32, l: seq<Prefix>): Option<Prefix> {
    if l == [] then None else if Contains(l[0], ip) then Some(l[0]) else InAny(ip, l[1..])
  }

  function PrefixesOf(t: Tree, iface: Name): seq<Prefix> {
    match Find(t.interfaces, iface)
    case Some(s) => StaticAddresses(s)
    case None => []
  }

  /** The subnet of the served Interface that holds the whole range. */
  function RangeSubnet(t: Tree, s: DhcpServerSpec): Option<Prefix> {
    if !IsInterface(t, s.iface) || s.rangeEnd < s.rangeStart then None
    else match InAny(s.rangeStart, PrefixesOf(t, s.iface))
      case Some(p) => if Contains(p, s.rangeEnd) then Some(p) else None
      case None => None
  }

  predicate Within(s: DhcpServerSpec, ip: U32) { s.rangeStart <= ip <= s.rangeEnd }

  /** DM-25 and DM-26. */
  predicate RangeFits(t: Tree, s: DhcpServerSpec) {
    IsInterface(t, s.iface) ==>
      match RangeSubnet(t, s)
      case None => false
      case Some(p) =>
        !Within(s, p.addr) && (s.gateway.Some? && Contains(p, s.gateway.value) ==> !Within(s, s.gateway.value))
  }

  /** DM-27. */
  predicate GatewayFits(t: Tree, s: DhcpServerSpec) {
    match RangeSubnet(t, s)
    case None => true
    case Some(p) => s.gateway.Some? ==> Contains(p, s.gateway.value)
  }

  ghost predicate ServersResolve(t: Tree) {
    forall i :: 0 <= i < |t.dhcp| ==> IsInterface(t, t.dhcp[i].spec.iface)
  }

  ghost predicate RangesFit(t: Tree) {
    forall i :: 0 <= i < |t.dhcp| ==> RangeFits(t, t.dhcp[i].spec)
  }

  ghost predicate GatewaysFit(t: Tree) {
    forall i :: 0 <= i < |t.dhcp| ==> GatewayFits(t, t.dhcp[i].spec)
  }

  /** R-017.3: an Interface is served once. */
  ghost predicate ServedOnce(t: Tree) {
    forall i, j :: 0 <= i < j < |t.dhcp| && IsInterface(t, t.dhcp[i].spec.iface) ==>
      t.dhcp[i].spec.iface != t.dhcp[j].spec.iface
  }

  predicate RangesMeet(a: DhcpServerSpec, b: DhcpServerSpec) {
    a.rangeStart <= b.rangeEnd && b.rangeStart <= a.rangeEnd
  }

  /** DM-28: no two accepted ranges overlap. */
  ghost predicate RangesDisjoint(t: Tree) {
    forall i, j :: 0 <= i < j < |t.dhcp| && RangeSubnet(t, t.dhcp[i].spec).Some? && RangeSubnet(t, t.dhcp[j].spec).Some? ==>
      !RangesMeet(t.dhcp[i].spec, t.dhcp[j].spec)
  }

  // ---- DM-28 follows from DM-04 and DM-25 -------------------------------------------------

  lemma {:induction false} InAnySound(ip: U32, l: seq<Prefix>)
    ensures InAny(ip, l).Some? ==> InAny(ip, l).value in l && Contains(InAny(ip, l).value, ip)
    ensures InAny(ip, l).None? ==> forall p :: p in l ==> !Contains(p, ip)
  {
    if l != [] {
      InAnySound(ip, l[1..]);
      assert forall p :: p in l <==> p == l[0] || p in l[1..];
    }
  }

  /** A prefix that holds both ends of a range holds all of it. */
  lemma SubnetHoldsRange(t: Tree, s: DhcpServerSpec, x: U32)
    requires RangeSubnet(t, s).Some? && Within(s, x)
    ensures Contains(RangeSubnet(t, s).value, x)
    ensures RangeSubnet(t, s).value in PrefixesOf(t, s.iface)
  {
    var p := RangeSubnet(t, s).value;
    InAnySound(s.rangeStart, PrefixesOf(t, s.iface));
    ContainsIsInterval(p, s.rangeStart);
    ContainsIsInterval(p, s.rangeEnd);
    ContainsIsInterval(p, x);
  }

  lemma PrefixIsOwned(t: Tree, iface: Name, p: Prefix)
    requires p in PrefixesOf(t, iface)
    ensures (iface, p) in Owned(t.interfaces)
  {
    FindSound(t.interfaces, iface);
    var o :| o in t.interfaces && o.meta.name == iface && o.spec == Find(t.interfaces, iface).value;
    OwnedMembers(t.interfaces, o, p);
  }

  /** Without overlapping subnets, ranges of different Interfaces are disjoint. */
  lemma RangesApart(t: Tree, a: DhcpServerSpec, b: DhcpServerSpec)
    requires SubnetsDisjoint(t.interfaces) && a.iface != b.iface
    requires RangeSubnet(t, a).Some? && RangeSubnet(t, b).Some?
    ensures !RangesMeet(a, b)
  {
    var x := if a.rangeStart < b.rangeStart then b.rangeStart else a.rangeStart;
    var (p, q) := (RangeSubnet(t, a).value, RangeSubnet(t, b).value);
    SubnetHoldsRange(t, a, a.rangeStart);
    SubnetHoldsRange(t, b, b.rangeStart);
    PrefixIsOwned(t, a.iface, p);
    PrefixIsOwned(t, b.iface, q);
    if RangesMeet(a, b) {
      SubnetHoldsRange(t, a, x);
      SubnetHoldsRange(t, b, x);
      OwnedUnique(t.interfaces, (a.iface, p), (b.iface, q), x);
    }
  }

  /** A configuration without overlapping subnets and with each Interface
      served once never has overlapping ranges. */
  lemma OverlapNeverReported(t: Tree)
    requires SubnetsDisjoint(t.interfaces) && ServedOnce(t)
    ensures RangesDisjoint(t)
  {
    forall i, j | 0 <= i < j < |t.dhcp| && RangeSubnet(t, t.dhcp[i].spec).Some? && RangeSubnet(t, t.dhcp[j].spec).Some?
      ensures !RangesMeet(t.dhcp[i].spec, t.dhcp[j].spec)
    {
      RangesApart(t, t.dhcp[i].spec, t.dhcp[j].spec);
    }
  }
}
