/** What a rule's source, destination and service lists match, and the interval
    sets the validator computes for the same lists. */
module Matching {
  import opened Prelude
  import opened Ipv4
  import opened Intervals
  import opened Model
  import opened Expand

  // ---- the classifier's view ----------------------------------------------------

  predicate AddrContains(form: AddressForm, ip: U32) {
    match form
    case Subnet(p) => Contains(Masked(p), ip)
    case Range(s, e) => !Less(V4(ip), s) && !Less(e, V4(ip))
    case _ => false
  }

  predicate InAddresses(g: Graph<AddressSpec>, refs: seq<Name>, ip: U32) {
    IsAny(refs) || exists r :: r in refs && exists a :: a in Expanded(g, r) && AddrContains(a.form, ip)
  }

  predicate EntryMatches(p: ProtocolEntry, proto: string, port: U32) {
    p.protocol == proto && (p.port.None? || p.port.value.lo <= port <= p.port.value.hi)
  }

  predicate ServiceMatches(s: ServiceSpec, proto: string, port: U32) {
    exists p :: p in s.protocols && EntryMatches(p, proto, port)
  }

  predicate InServices(g: Graph<ServiceSpec>, refs: seq<Name>, proto: string, port: U32) {
    IsAny(refs) || exists r :: r in refs && exists s :: s in Expanded(g, r) && ServiceMatches(s, proto, port)
  }

  // ---- the validator's view -----------------------------------------------------

  /** The IPv4 span of an address form. */
  function AddrInterval(form: AddressForm): Option<Iv> {
    match form
    case Subnet(p) =>
      IntervalBounds(p);
      Some(Iv(First(p), Last(p)))
    case Range(s, e) =>
      if s.V4? && e.V4? && !Less(e, s) then Some(Iv(s.n, e.n)) else None
    case _ => None
  }

  predicate MixedRange(form: AddressForm) {
    form.Range? && form.start.V4? && form.end.V6?
  }

  /** Classifier and validator agree on an address form, except on a range that
      starts in IPv4 and ends in IPv6: it has no span, yet it matches. */
  lemma IntervalAgreement(form: AddressForm)
    ensures (forall x: U32 :: AddrContains(form, x) <==>
        AddrInterval(form).Some? && AddrInterval(form).value.lo <= x <= AddrInterval(form).value.hi)
      <==> !MixedRange(form)
    ensures AddrInterval(form).Some? ==> AddrInterval(form).value.lo <= AddrInterval(form).value.hi
  {
    match form
    case Subnet(p) =>
      forall x: U32 ensures AddrContains(form, x) <==> First(p) <= x <= Last(p) {
        MaskedContains(p, x);
        ContainsIsInterval(p, x);
      }
      ContainsIsInterval(p, p.addr);
    case Range(s, e) =>
      if MixedRange(form) {
        assert AddrContains(form, s.n);
      }
    case _ =>
  }

  function AddressesOf(g: Graph<AddressSpec>, refs: seq<Name>): seq<AddressSpec> {
    if refs == [] then [] else Expanded(g, refs[0]) + AddressesOf(g, refs[1..])
  }

  function Spans(l: seq<AddressSpec>): seq<Iv> {
    if l == [] then []
    else match AddrInterval(l[0].form)
      case Some(v) => [v] + Spans(l[1..])
      case None => Spans(l[1..])
  }

  datatype AddrSet = AddrSet(any: bool, ivs: seq<Iv>)

  function AddrSetOf(g: Graph<AddressSpec>, refs: seq<Name>): AddrSet {
    if IsAny(refs) then AddrSet(true, []) else AddrSet(false, Spans(AddressesOf(g, refs)))
  }

  ghost predicate InSet(a: AddrSet, x: int) { a.any || Has(a.ivs, x) }

  predicate AddrOverlaps(a: AddrSet, b: AddrSet) {
    if a.any then b.any || |b.ivs| > 0
    else if b.any then |a.ivs| > 0
    else Overlap(a.ivs, b.ivs)
  }

  predicate AddrCovers(a: AddrSet, b: AddrSet) {
    if a.any then true else if b.any then false else Cover(a.ivs, b.ivs)
  }

  ghost predicate NoMixedRange(g: Graph<AddressSpec>) {
    forall n :: n in g.leaves ==> !MixedRange(g.leaves[n].form)
  }

  lemma {:induction false} AddressesOfMembers(g: Graph<AddressSpec>, refs: seq<Name>, a: AddressSpec)
    ensures a in AddressesOf(g, refs) <==> exists r :: r in refs && a in Expanded(g, r)
  {
    if refs != [] {
      AddressesOfMembers(g, refs[1..], a);
      assert forall r :: r in refs <==> r == refs[0] || r in refs[1..];
    }
  }

  lemma {:induction false} SpansHas(l: seq<AddressSpec>, x: U32)
    requires forall a :: a in l ==> !MixedRange(a.form)
    ensures Has(Spans(l), x) <==> exists a :: a in l && AddrContains(a.form, x)
  {
    if l != [] {
      SpansHas(l[1..], x);
      IntervalAgreement(l[0].form);
      assert forall a :: a in l <==> a == l[0] || a in l[1..];
      if AddrInterval(l[0].form).Some? {
        assert Spans(l)[1..] == Spans(l[1..]);
        HasCons(Spans(l), x);
      }
    }
  }

  lemma {:induction false} SpansOrdered(l: seq<AddressSpec>)
    ensures Ordered(Spans(l))
  {
    if l != [] {
      SpansOrdered(l[1..]);
      IntervalAgreement(l[0].form);
    }
  }

  lemma ExpandedAreLeaves(g: Graph<AddressSpec>, refs: seq<Name>)
    requires NoMixedRange(g)
    ensures forall a :: a in AddressesOf(g, refs) ==> !MixedRange(a.form)
  {
    forall a | a in AddressesOf(g, refs) ensures !MixedRange(a.form) {
      AddressesOfMembers(g, refs, a);
      var r :| r in refs && a in Expanded(g, r);
      ExpandedMembers(g, r, a);
    }
  }

  /** The interval set of an address list holds exactly the addresses the
      classifier finds in the list. */
  lemma AddrSetAgrees(g: Graph<AddressSpec>, refs: seq<Name>, x: U32)
    requires NoMixedRange(g)
    ensures InSet(AddrSetOf(g, refs), x) <==> InAddresses(g, refs, x)
  {
    var l := AddressesOf(g, refs);
    ExpandedAreLeaves(g, refs);
    SpansHas(l, x);
    forall a ensures a in l <==> exists r :: r in refs && a in Expanded(g, r) {
      AddressesOfMembers(g, refs, a);
    }
  }

  lemma AddrSetOrdered(g: Graph<AddressSpec>, refs: seq<Name>)
    ensures Ordered(AddrSetOf(g, refs).ivs)
  {
    SpansOrdered(AddressesOf(g, refs));
  }

  /** Overlap of address sets is exactly a common address. */
  lemma AddrOverlapsIff(a: AddrSet, b: AddrSet)
    requires Ordered(a.ivs) && Ordered(b.ivs)
    ensures AddrOverlaps(a, b) <==> exists x: U32 :: InSet(a, x) && InSet(b, x)
  {
    OverlapIffMeet(a.ivs, b.ivs);
    InSetWitness(a);
    InSetWitness(b);
    if !a.any && !b.any && Overlap(a.ivs, b.ivs) {
      var x :| Has(a.ivs, x) && Has(b.ivs, x);
      assert 0 <= x < TWO_32;
      var u: U32 := x;
      assert InSet(a, u) && InSet(b, u);
    }
    if exists x: U32 :: InSet(a, x) && InSet(b, x) {
      var x: U32 :| InSet(a, x) && InSet(b, x);
      assert !a.any && !b.any ==> Meet(a.ivs, b.ivs);
    }
  }

  lemma InSetWitness(a: AddrSet)
    requires Ordered(a.ivs)
    ensures a.any ==> InSet(a, 0)
    ensures a.ivs != [] ==> InSet(a, a.ivs[0].lo)
  {
  }

  /** Coverage of address sets is inclusion, except that a list other than
      "any" is never found to cover "any". */
  lemma AddrCoversIff(a: AddrSet, b: AddrSet)
    requires Ordered(a.ivs) && Ordered(b.ivs)
    ensures AddrCovers(a, b) <==> (b.any ==> a.any) && forall x: U32 :: InSet(b, x) ==> InSet(a, x)
  {
    CoverIffSubset(a.ivs, b.ivs);
    if !a.any && !b.any && forall x: U32 :: InSet(b, x) ==> InSet(a, x) {
      forall x | Has(b.ivs, x) ensures Has(a.ivs, x) {
        var u: U32 := x;
        assert InSet(b, u);
      }
    }
  }

  // ---- services -----------------------------------------------------------------

  const MAX_PORT: U32 := 65535

  function EntriesOfServices(l: seq<ServiceSpec>): seq<ProtocolEntry> {
    if l == [] then [] else l[0].protocols + EntriesOfServices(l[1..])
  }

  function EntriesOf(g: Graph<ServiceSpec>, refs: seq<Name>): seq<ProtocolEntry> {
    if refs == [] then [] else EntriesOfServices(Expanded(g, refs[0])) + EntriesOf(g, refs[1..])
  }

  /** Protocols without ports take the full range. */
  function PortSpan(p: ProtocolEntry): Iv {
    match p.port
    case Some(r) => Iv(r.lo, r.hi)
    case None => Iv(0, MAX_PORT)
  }

  function PortsOf(l: seq<ProtocolEntry>, proto: string): seq<Iv> {
    if l == [] then []
    else if l[0].protocol == proto then [PortSpan(l[0])] + PortsOf(l[1..], proto)
    else PortsOf(l[1..], proto)
  }

  function ProtocolsOf(l: seq<ProtocolEntry>): set<string> { set p | p in l :: p.protocol }

  datatype SvcSet = SvcSet(any: bool, ports: map<string, seq<Iv>>)

  function PortMap(l: seq<ProtocolEntry>): map<string, seq<Iv>> {
    map q | q in ProtocolsOf(l) :: PortsOf(l, q)
  }

  function SvcSetOf(g: Graph<ServiceSpec>, refs: seq<Name>): SvcSet {
    if IsAny(refs) then SvcSet(true, map[]) else SvcSet(false, PortMap(EntriesOf(g, refs)))
  }

  ghost predicate InSvc(s: SvcSet, proto: string, port: int) {
    s.any || (proto in s.ports && Has(s.ports[proto], port))
  }

  ghost predicate SvcMeet(a: SvcSet, b: SvcSet) {
    exists proto: string, port: U32 :: InSvc(a, proto, port) && InSvc(b, proto, port)
  }

  ghost predicate SvcOrdered(s: SvcSet) {
    forall q :: q in s.ports ==> Ordered(s.ports[q]) && s.ports[q] != []
  }

  predicate SvcOverlaps(a: SvcSet, b: SvcSet) {
    a.any || b.any || exists q :: q in a.ports && q in b.ports && Overlap(a.ports[q], b.ports[q])
  }

  predicate SvcCovers(a: SvcSet, b: SvcSet) {
    a.any || (!b.any && forall q :: q in b.ports ==> q in a.ports && Cover(a.ports[q], b.ports[q]))
  }

  lemma {:induction false} EntriesOfServicesMembers(l: seq<ServiceSpec>, p: ProtocolEntry)
    ensures p in EntriesOfServices(l) <==> exists s :: s in l && p in s.protocols
  {
    if l != [] {
      EntriesOfServicesMembers(l[1..], p);
      assert forall s :: s in l <==> s == l[0] || s in l[1..];
    }
  }

  lemma {:induction false} EntriesOfMembers(g: Graph<ServiceSpec>, refs: seq<Name>, p: ProtocolEntry)
    ensures p in EntriesOf(g, refs) <==> exists r :: r in refs && exists s :: s in Expanded(g, r) && p in s.protocols
  {
    if refs != [] {
      EntriesOfMembers(g, refs[1..], p);
      EntriesOfServicesMembers(Expanded(g, refs[0]), p);
      assert forall r :: r in refs <==> r == refs[0] || r in refs[1..];
    }
  }

  lemma {:induction false} PortsOfHas(l: seq<ProtocolEntry>, proto: string, port: U32)
    requires port <= MAX_PORT
    ensures Has(PortsOf(l, proto), port) <==> exists p :: p in l && EntryMatches(p, proto, port)
    ensures proto in ProtocolsOf(l) <==> PortsOf(l, proto) != []
  {
    if l != [] {
      PortsOfHas(l[1..], proto, port);
      assert forall p :: p in l <==> p == l[0] || p in l[1..];
      if l[0].protocol == proto {
        assert PortsOf(l, proto)[1..] == PortsOf(l[1..], proto);
        HasCons(PortsOf(l, proto), port);
        assert EntryMatches(l[0], proto, port) <==> PortSpan(l[0]).lo <= port <= PortSpan(l[0]).hi;
      } else {
        assert !EntryMatches(l[0], proto, port);
      }
    }
  }

  /** The port sets of a service list hold exactly the protocol and port pairs
      the classifier finds in the list. */
  lemma SvcSetAgrees(g: Graph<ServiceSpec>, refs: seq<Name>, proto: string, port: U32)
    requires port <= MAX_PORT
    ensures InSvc(SvcSetOf(g, refs), proto, port) <==> InServices(g, refs, proto, port)
  {
    var l := EntriesOf(g, refs);
    PortsOfHas(l, proto, port);
    forall p ensures p in l <==> exists r :: r in refs && exists s :: s in Expanded(g, r) && p in s.protocols {
      EntriesOfMembers(g, refs, p);
    }
  }

  /** Overlap of service sets over-approximates in exactly one way: when one
      side is "any" and the other is empty. */
  lemma SvcOverlapsIff(a: SvcSet, b: SvcSet)
    requires SvcOrdered(a) && SvcOrdered(b)
    ensures SvcMeet(a, b) ==> SvcOverlaps(a, b)
    ensures SvcOverlaps(a, b) && !SvcMeet(a, b) <==>
      (a.any && !b.any && b.ports == map[]) || (b.any && !a.any && a.ports == map[])
  {
    if SvcMeet(a, b) {
      var proto: string, port: U32 :| InSvc(a, proto, port) && InSvc(b, proto, port);
      if !a.any && !b.any {
        OverlapIffMeet(a.ports[proto], b.ports[proto]);
      }
    }
    SvcWitness(a);
    SvcWitness(b);
    if !a.any && !b.any && SvcOverlaps(a, b) {
      var q :| q in a.ports && q in b.ports && Overlap(a.ports[q], b.ports[q]);
      OverlapIffMeet(a.ports[q], b.ports[q]);
      var x :| Has(a.ports[q], x) && Has(b.ports[q], x);
      var u: U32 := x;
      assert InSvc(a, q, u) && InSvc(b, q, u);
    }
  }

  lemma SvcWitness(a: SvcSet)
    requires SvcOrdered(a)
    ensures a.any || a.ports != map[] ==> exists proto: string, port: U32 :: InSvc(a, proto, port)
    ensures !a.any && a.ports == map[] ==> forall proto: string, port: U32 :: !InSvc(a, proto, port)
  {
    if a.any {
      assert InSvc(a, "", 0);
    } else if a.ports != map[] {
      var q :| q in a.ports;
      assert a.ports[q][0].lo <= a.ports[q][0].lo <= a.ports[q][0].hi;
      assert InSvc(a, q, a.ports[q][0].lo);
    }
  }

  /** Coverage of service sets is inclusion, except that a list other than
      "any" is never found to cover "any". */
  lemma SvcCoversIff(a: SvcSet, b: SvcSet)
    requires SvcOrdered(a) && SvcOrdered(b)
    ensures SvcCovers(a, b) <==>
      (b.any ==> a.any) && forall proto: string, port: U32 :: InSvc(b, proto, port) ==> InSvc(a, proto, port)
  {
    if !a.any && !b.any {
      forall q | q in b.ports && q in a.ports
        ensures Cover(a.ports[q], b.ports[q]) <==> Subset(b.ports[q], a.ports[q])
      {
        CoverIffSubset(a.ports[q], b.ports[q]);
      }
      if forall proto: string, port: U32 :: InSvc(b, proto, port) ==> InSvc(a, proto, port) {
        forall q | q in b.ports ensures q in a.ports && Subset(b.ports[q], a.ports[q]) {
          var p0 := b.ports[q][0].lo;
          assert b.ports[q][0].lo <= p0 <= b.ports[q][0].hi;
          assert InSvc(b, q, p0);
          forall x | Has(b.ports[q], x) ensures Has(a.ports[q], x) {
            var u: U32 := x;
            assert InSvc(b, q, u);
          }
        }
      }
    }
  }

  /** Every port range of the graph is ordered and within the port numbers. */
  ghost predicate PortsOrdered(g: Graph<ServiceSpec>) {
    forall n, p :: n in g.leaves && p in g.leaves[n].protocols && p.port.Some? ==>
      p.port.value.lo <= p.port.value.hi <= MAX_PORT
  }

  lemma {:induction false} PortsOfOrdered(l: seq<ProtocolEntry>, proto: string)
    requires forall p :: p in l && p.port.Some? ==> p.port.value.lo <= p.port.value.hi <= MAX_PORT
    ensures Ordered(PortsOf(l, proto))
    ensures forall i :: 0 <= i < |PortsOf(l, proto)| ==> PortsOf(l, proto)[i].hi <= MAX_PORT
  {
    if l != [] {
      PortsOfOrdered(l[1..], proto);
      assert l[0] in l;
    }
  }

  lemma SvcSetOrdered(g: Graph<ServiceSpec>, refs: seq<Name>)
    requires PortsOrdered(g)
    ensures SvcOrdered(SvcSetOf(g, refs))
    ensures forall q, i :: q in SvcSetOf(g, refs).ports && 0 <= i < |SvcSetOf(g, refs).ports[q]| ==>
      SvcSetOf(g, refs).ports[q][i].hi <= MAX_PORT
  {
    var l := EntriesOf(g, refs);
    forall p | p in l && p.port.Some? ensures p.port.value.lo <= p.port.value.hi <= MAX_PORT {
      EntriesOfMembers(g, refs, p);
      var r :| r in refs && exists s :: s in Expanded(g, r) && p in s.protocols;
      var s :| s in Expanded(g, r) && p in s.protocols;
      ExpandedMembers(g, r, s);
    }
    forall q | q in ProtocolsOf(l)
      ensures Ordered(PortsOf(l, q)) && PortsOf(l, q) != []
      ensures forall i :: 0 <= i < |PortsOf(l, q)| ==> PortsOf(l, q)[i].hi <= MAX_PORT
    {
      PortsOfOrdered(l, q);
      PortsOfHas(l, q, 0);
    }
  }

  // ---- the builders -------------------------------------------------------------

  lemma {:induction false} SpansAppend(a: seq<AddressSpec>, b: seq<AddressSpec>)
    ensures Spans(a + b) == Spans(a) + Spans(b)
  {
    if a == [] {
      assert a + b == b;
    } else {
      assert a + b == [a[0]] + (a[1..] + b);
      SpansAppend(a[1..], b);
    }
  }

  method BuildAddrSet(g: Graph<AddressSpec>, refs: seq<Name>) returns (s: AddrSet)
    ensures s == AddrSetOf(g, refs)
  {
    if IsAny(refs) {
      return AddrSet(true, []);
    }
    var ivs: seq<Iv> := [];
    for i := 0 to |refs|
      invariant ivs + Spans(AddressesOf(g, refs[i..])) == Spans(AddressesOf(g, refs))
    {
      assert refs[i..][0] == refs[i] && refs[i..][1..] == refs[i + 1..];
      var found := Expand.Expand(g, refs[i]);
      SpansAppend(found, AddressesOf(g, refs[i + 1..]));
      var spans := CollectSpans(found);
      ivs := ivs + spans;
    }
    s := AddrSet(false, ivs);
  }

  method CollectSpans(l: seq<AddressSpec>) returns (ivs: seq<Iv>)
    ensures ivs == Spans(l)
  {
    ivs := [];
    for k := 0 to |l|
      invariant ivs + Spans(l[k..]) == Spans(l)
    {
      assert l[k..][1..] == l[k + 1..];
      match AddrInterval(l[k].form)
      case Some(v) => ivs := ivs + [v];
      case None =>
    }
  }

  lemma {:induction false} PortsOfAppend(a: seq<ProtocolEntry>, b: seq<ProtocolEntry>, q: string)
    ensures PortsOf(a + b, q) == PortsOf(a, q) + PortsOf(b, q)
  {
    if a == [] {
      assert a + b == b;
    } else {
      assert a + b == [a[0]] + (a[1..] + b);
      PortsOfAppend(a[1..], b, q);
    }
  }

  /** One more entry in a port map. */
  function AddEntry(ports: map<string, seq<Iv>>, p: ProtocolEntry): map<string, seq<Iv>> {
    ports[p.protocol := (if p.protocol in ports then ports[p.protocol] else []) + [PortSpan(p)]]
  }

  lemma PortsOfSnoc(l: seq<ProtocolEntry>, p: ProtocolEntry, q: string)
    ensures PortsOf(l + [p], q) == if p.protocol == q then PortsOf(l, q) + [PortSpan(p)] else PortsOf(l, q)
    ensures q in ProtocolsOf(l + [p]) <==> q in ProtocolsOf(l) || q == p.protocol
  {
    PortsOfAppend(l, [p], q);
    assert [p][1..] == [] && PortsOf([], q) == [];
    assert forall x :: x in l + [p] <==> x in l || x == p;
  }

  lemma AddEntryMap(l: seq<ProtocolEntry>, p: ProtocolEntry)
    ensures AddEntry(PortMap(l), p) == PortMap(l + [p])
  {
    var m, n := AddEntry(PortMap(l), p), PortMap(l + [p]);
    forall q ensures q in m <==> q in n
      ensures q in m ==> m[q] == n[q]
    {
      PortsOfSnoc(l, p, q);
      PortsOfHas(l, q, 0);
    }
  }

  method BuildSvcSet(g: Graph<ServiceSpec>, refs: seq<Name>) returns (s: SvcSet)
    ensures s == SvcSetOf(g, refs)
  {
    if IsAny(refs) {
      return SvcSet(true, map[]);
    }
    ghost var l: seq<ProtocolEntry> := [];
    var ports: map<string, seq<Iv>> := map[];
    for i := 0 to |refs|
      invariant l + EntriesOf(g, refs[i..]) == EntriesOf(g, refs)
      invariant ports == PortMap(l)
    {
      assert refs[i..][0] == refs[i] && refs[i..][1..] == refs[i + 1..];
      var found := Expand.Expand(g, refs[i]);
      ports := CollectServices(ports, found, l);
      l := l + EntriesOfServices(found);
    }
    assert refs[|refs|..] == [] && l == EntriesOf(g, refs);
    s := SvcSet(false, ports);
  }

  /** The loops over the services of one reference and their entries. */
  method CollectServices(ports0: map<string, seq<Iv>>, found: seq<ServiceSpec>, ghost l0: seq<ProtocolEntry>)
    returns (ports: map<string, seq<Iv>>)
    requires ports0 == PortMap(l0)
    ensures ports == PortMap(l0 + EntriesOfServices(found))
  {
    ports := ports0;
    ghost var l := l0;
    for j := 0 to |found|
      invariant l + EntriesOfServices(found[j..]) == l0 + EntriesOfServices(found)
      invariant ports == PortMap(l)
    {
      assert found[j..][0] == found[j] && found[j..][1..] == found[j + 1..];
      var entries := found[j].protocols;
      ghost var here := l;
      for k := 0 to |entries|
        invariant l == here + entries[..k]
        invariant ports == PortMap(l)
      {
        AddEntryMap(l, entries[k]);
        ports := AddEntry(ports, entries[k]);
        l := l + [entries[k]];
      }
      assert l == here + entries;
    }
    assert l == l0 + EntriesOfServices(found) by { assert found[|found|..] == []; }
  }
}
