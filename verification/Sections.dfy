/** What the sections of a plan hold, in terms of the configuration alone, and
    that the compiler puts it there. */
module Sections {
  import opened Prelude
  import opened Ipv4
  import opened Model
  import opened Expand
  import opened Matching
  import Routing
  import opened Classify
  import opened Clean
  import opened Guarantees
  import opened Texts
  import opened Compile
  import opened Readings
  import F = Facts

  // ---- rules ----------------------------------------------------------------------------------

  ghost predicate AddressText(r: Renderer, t: Tree, refs: seq<Name>, x: string) {
    exists ref, o :: ref in refs && F.Means(t.addresses, t.addressGroups, ref, o) && r.address(o.spec.form) == x
  }

  ghost predicate ServiceText(r: Renderer, t: Tree, refs: seq<Name>, x: string) {
    exists ref, o :: ref in refs && F.Means(t.services, t.serviceGroups, ref, o) && r.service(o.spec.protocols) == x
  }

  /** The texts of all Addresses a list means, sorted, each once. */
  ghost predicate AddressesFit(r: Renderer, t: Tree, refs: seq<Name>, l: seq<string>) {
    if refs == ["any"] then l == ["any"] else Rising(l) && forall x :: x in l <==> AddressText(r, t, refs, x)
  }

  ghost predicate ServicesFit(r: Renderer, t: Tree, refs: seq<Name>, l: seq<string>) {
    if refs == ["any"] then l == ["any"] else Rising(l) && forall x :: x in l <==> ServiceText(r, t, refs, x)
  }

  /** The targets of a translation of the destination are resolved; a pool for
      the source address stays a name. */
  ghost predicate NatFits(r: Renderer, t: Tree, x: Rule, e: Option<EntryNat>) {
    if F.TranslatesDst(x) && x.translate.value.translateIpTo != "" then
      && e.Some? && e.value.Resolved?
      && AddressesFit(r, t, [x.translate.value.translateIpTo], e.value.addresses)
      && ServicesFit(r, t, [x.translate.value.translateServiceTo], e.value.services)
    else if x.translate.Some? then e == Some(Named(x.translate.value))
    else e == None
  }

  ghost predicate EntryFits(r: Renderer, t: Tree, x: Rule, e: Entry) {
    && e.rule == x.name && e.action == x.action && e.log == x.log && NatFits(r, t, x, e.translate)
    && AddressesFit(r, t, x.source, e.source) && AddressesFit(r, t, x.destination, e.destination)
    && ServicesFit(r, t, x.service, e.service)
  }

  /** Where the enabled rules of a list are, in order. */
  ghost predicate Enabled(rules: seq<Rule>, at: seq<nat>) {
    && (forall i, j :: 0 <= i < j < |at| ==> at[i] < at[j])
    && (forall k: nat :: k in at <==> k < |rules| && rules[k].enabled != Some(false))
  }

  ghost predicate EntriesAt(r: Renderer, t: Tree, rules: seq<Rule>, at: seq<nat>, l: seq<Entry>) {
    |at| == |l| && forall i :: 0 <= i < |l| ==> at[i] < |rules| && EntryFits(r, t, rules[at[i]], l[i])
  }

  ghost predicate EntriesFit(r: Renderer, t: Tree, rules: seq<Rule>, l: seq<Entry>) {
    exists at :: Enabled(rules, at) && EntriesAt(r, t, rules, at, l)
  }

  /** The pairs are those of the two sides, without an Interface and itself. */
  ghost predicate PairsFit(t: Tree, s: RuleSetSpec, l: seq<(Name, Name)>) {
    forall p :: p in l <==> F.OnSide(t, s.from, p.0) && F.OnSide(t, s.to, p.1) && p.0 != p.1
  }

  ghost predicate RuleSetFits(r: Renderer, t: Tree, rs: RuleSet, c: Compiled) {
    c.name == rs.meta.name && PairsFit(t, rs.spec, c.pairs) && EntriesFit(r, t, rs.spec.rules, c.rules)
  }

  // ---- the proofs for rules -------------------------------------------------------------------

  lemma {:induction false} AddressesRead(r: Renderer, t: Tree, refs: seq<Name>)
    requires UniqueNames(t)
    ensures AddressesFit(r, t, refs, ResolvedAddresses(r, AddressGraph(t), refs))
  {
    if !IsAny(refs) {
      var l := AddressesOf(AddressGraph(t), refs);
      NormalForm(AddressTexts(r, l));
      forall x ensures x in AddressTexts(r, l) <==> AddressText(r, t, refs, x) {
        AddressTextRead(r, t, refs, x);
      }
    }
  }

  lemma {:induction false} AddressTextRead(r: Renderer, t: Tree, refs: seq<Name>, x: string)
    requires UniqueNames(t)
    ensures x in AddressTexts(r, AddressesOf(AddressGraph(t), refs)) <==> AddressText(r, t, refs, x)
  {
    var l := AddressesOf(AddressGraph(t), refs);
    AddressNamespace(t);
    AddressTextsMembers(r, l, x);
    if a :| a in l && r.address(a.form) == x {
      AddressesOfMembers(AddressGraph(t), refs, a);
      var ref :| ref in refs && a in Expanded(AddressGraph(t), ref);
      ExpandedRead(t.addresses, t.addressGroups, ref, a);
    }
    if ref, o :| ref in refs && F.Means(t.addresses, t.addressGroups, ref, o) && r.address(o.spec.form) == x {
      ExpandedRead(t.addresses, t.addressGroups, ref, o.spec);
      AddressesOfMembers(AddressGraph(t), refs, o.spec);
    }
  }

  lemma {:induction false} ServicesTextsRead(r: Renderer, t: Tree, refs: seq<Name>)
    requires UniqueNames(t)
    ensures ServicesFit(r, t, refs, ResolvedServices(r, ServiceGraph(t), refs))
  {
    if !IsAny(refs) {
      var l := ServicesOf(ServiceGraph(t), refs);
      NormalForm(ServiceTexts(r, l));
      forall x ensures x in ServiceTexts(r, l) <==> ServiceText(r, t, refs, x) {
        ServiceTextRead(r, t, refs, x);
      }
    }
  }

  lemma {:induction false} ServiceTextRead(r: Renderer, t: Tree, refs: seq<Name>, x: string)
    requires UniqueNames(t)
    ensures x in ServiceTexts(r, ServicesOf(ServiceGraph(t), refs)) <==> ServiceText(r, t, refs, x)
  {
    var l := ServicesOf(ServiceGraph(t), refs);
    AddressNamespace(t);
    ServiceTextsMembers(r, l, x);
    if s :| s in l && r.service(s.protocols) == x {
      ServicesOfMembers(ServiceGraph(t), refs, s);
      var ref :| ref in refs && s in Expanded(ServiceGraph(t), ref);
      ExpandedRead(t.services, t.serviceGroups, ref, s);
    }
    if ref, o :| ref in refs && F.Means(t.services, t.serviceGroups, ref, o) && r.service(o.spec.protocols) == x {
      ExpandedRead(t.services, t.serviceGroups, ref, o.spec);
      ServicesOfMembers(ServiceGraph(t), refs, o.spec);
    }
  }

  lemma {:induction false} EntryRead(r: Renderer, t: Tree, x: Rule)
    requires UniqueNames(t)
    ensures EntryFits(r, t, x, EntryOf(r, t, x))
  {
    AddressesRead(r, t, x.source);
    AddressesRead(r, t, x.destination);
    ServicesTextsRead(r, t, x.service);
    if x.translate.Some? {
      AddressesRead(r, t, [x.translate.value.translateIpTo]);
      ServicesTextsRead(r, t, [x.translate.value.translateServiceTo]);
    }
  }

  lemma {:induction false} EntriesRead(r: Renderer, t: Tree, rules: seq<Rule>) returns (at: seq<nat>)
    requires UniqueNames(t)
    ensures Enabled(rules, at) && EntriesAt(r, t, rules, at, EntriesFor(r, t, rules))
  {
    at := [];
    if rules != [] {
      var rest := EntriesRead(r, t, rules[1..]);
      EntryRead(r, t, rules[0]);
      var shifted: seq<nat> := seq(|rest|, i requires 0 <= i < |rest| => rest[i] + 1);
      EnabledCons(rules, rest, shifted);
      EntriesShifted(r, t, rules, rest, shifted, EntriesFor(r, t, rules[1..]));
      if rules[0].enabled != Some(false) {
        at := [0] + shifted;
        EntriesCons(r, t, rules, shifted, EntryOf(r, t, rules[0]), EntriesFor(r, t, rules[1..]));
      } else {
        at := shifted;
        assert EntriesFor(r, t, rules) == EntriesFor(r, t, rules[1..]);
      }
    }
  }

  lemma {:induction false} EntriesShifted(r: Renderer, t: Tree, rules: seq<Rule>, rest: seq<nat>, shifted: seq<nat>,
                                          l: seq<Entry>)
    requires rules != [] && EntriesAt(r, t, rules[1..], rest, l)
    requires |shifted| == |rest| && forall i :: 0 <= i < |rest| ==> shifted[i] == rest[i] + 1
    ensures EntriesAt(r, t, rules, shifted, l)
  {
    forall i | 0 <= i < |l| ensures shifted[i] < |rules| && EntryFits(r, t, rules[shifted[i]], l[i]) {
      assert rest[i] < |rules[1..]| && rules[1..][rest[i]] == rules[shifted[i]];
    }
  }

  lemma {:induction false} EntriesCons(r: Renderer, t: Tree, rules: seq<Rule>, at: seq<nat>, e: Entry, l: seq<Entry>)
    requires rules != [] && EntriesAt(r, t, rules, at, l) && EntryFits(r, t, rules[0], e)
    ensures EntriesAt(r, t, rules, [0] + at, [e] + l)
  {
    forall i | 0 <= i < |l| + 1 ensures EntryFits(r, t, rules[([0] + at)[i]], ([e] + l)[i]) {
      if i > 0 { assert ([0] + at)[i] == at[i - 1] && ([e] + l)[i] == l[i - 1]; }
    }
  }

  lemma {:induction false} EnabledCons(rules: seq<Rule>, rest: seq<nat>, shifted: seq<nat>)
    requires rules != [] && Enabled(rules[1..], rest)
    requires |shifted| == |rest| && forall i :: 0 <= i < |rest| ==> shifted[i] == rest[i] + 1
    ensures Enabled(rules, if rules[0].enabled != Some(false) then [0] + shifted else shifted)
  {
    forall k: nat ensures k in shifted <==> k > 0 && k - 1 in rest {
      if k > 0 && k - 1 in rest {
        var i :| 0 <= i < |rest| && rest[i] == k - 1;
        assert shifted[i] == k;
      }
    }
    forall k: nat | 0 < k < |rules| ensures rules[1..][k - 1] == rules[k] {
    }
    var at := if rules[0].enabled != Some(false) then [0] + shifted else shifted;
    forall k: nat ensures k in at <==> k < |rules| && rules[k].enabled != Some(false) {
      assert k > 0 ==> (k - 1 in rest <==> k - 1 < |rules[1..]| && rules[1..][k - 1].enabled != Some(false));
    }
  }

  lemma {:induction false} RuleSetRead(r: Renderer, t: Tree, rs: RuleSet)
    requires UniqueNames(t)
    ensures RuleSetFits(r, t, rs, CompiledOf(r, t, rs))
  {
    var at := EntriesRead(r, t, rs.spec.rules);
    forall p ensures p in PairsOf(Side(t, rs.spec.from), Side(t, rs.spec.to)) <==>
      F.OnSide(t, rs.spec.from, p.0) && F.OnSide(t, rs.spec.to, p.1) && p.0 != p.1
    {
      PairsOfMembers(Side(t, rs.spec.from), Side(t, rs.spec.to), p);
      SideRead(t, rs.spec.from, p.0);
      SideRead(t, rs.spec.to, p.1);
    }
  }

  // ---- the other parts ------------------------------------------------------------------------

  /** The settings of the System, or their defaults. */
  ghost predicate SystemFits(t: Tree, d: Dataplane) {
    if t.system == [] then d.httpsPort == 443 && d.session == "" && d.logging == "" && d.feeds == []
    else
      var s := t.system[0].spec;
      && d.httpsPort == (if s.httpsPort == 0 then 443 else s.httpsPort)
      && d.session == s.session && d.logging == s.logging
      && forall x :: x in d.feeds <==> s.feedsOn && (x, true) in s.feeds
  }

  /** What the System serves: the references of DNS, and of NTP if it is on. */
  ghost predicate ServesOn(t: Tree, refs: Option<seq<Name>>, n: Name) {
    refs.Some? && exists ref :: ref in refs.value && F.OnSide(t, ref, n)
  }

  function DnsRefs(t: Tree): Option<seq<Name>> {
    if t.system != [] && t.system[0].spec.dns.Some? then Some(t.system[0].spec.dns.value.1) else None
  }

  function NtpRefs(t: Tree): Option<seq<Name>> {
    if t.system != [] && t.system[0].spec.ntp.Some? && t.system[0].spec.ntp.value.0
    then Some(t.system[0].spec.ntp.value.2) else None
  }

  ghost predicate ServesDhcp(t: Tree, n: Name) { exists d :: d in t.dhcp && d.spec.enabled && d.spec.iface == n }

  /** What an Interface lets in: its own list in order, then what the firewall
      serves there beyond it. */
  ghost predicate AccessFits(t: Tree, o: Object<InterfaceSpec>, port: nat, l: seq<Access>) {
    var own := o.spec.allowAccess;
    && |own| <= |l|
    && (forall i :: 0 <= i < |own| ==> l[i] == if own[i] == "https" then Https(port) else Service(own[i]))
    && (forall a :: a in l[|own|..] <==> Lets(t, o, a))
  }

  /** What is served on an Interface that does not list it. */
  ghost predicate Lets(t: Tree, o: Object<InterfaceSpec>, a: Access) {
    var (n, own) := (o.meta.name, o.spec.allowAccess);
    || (a == ImplicitDhcp && ServesDhcp(t, n) && "dhcp" !in own)
    || (a == ImplicitDns && ServesOn(t, DnsRefs(t), n) && "dns" !in own)
    || (a == ImplicitNtp && ServesOn(t, NtpRefs(t), n) && "ntp" !in own)
  }

  ghost predicate Addressed(o: Object<InterfaceSpec>, l: seq<Prefix>) {
    forall k, p :: F.HasAddress(o, k, p) <==> 0 <= k < |l| && l[k] == p
  }

  ghost predicate InterfacesFit(t: Tree, d: Dataplane) {
    && (forall n :: n in d.localIn <==> F.Named(t.interfaces, n))
    && (forall n :: n in d.addresses <==> F.Named(t.interfaces, n))
    && forall o :: o in t.interfaces ==> InterfaceFits(t, d, o)
  }

  ghost predicate InterfaceFits(t: Tree, d: Dataplane, o: Object<InterfaceSpec>) {
    && o.meta.name in d.localIn && AccessFits(t, o, d.httpsPort, d.localIn[o.meta.name])
    && o.meta.name in d.addresses && Addressed(o, d.addresses[o.meta.name])
  }

  /** Traffic inside a Zone is denied unless the Zone allows it. */
  ghost predicate ZonesFit(t: Tree, m: map<Name, IntraZone>) {
    && (forall n :: n in m <==> F.Named(t.zones, n))
    && forall z :: z in t.zones ==> ZoneFits(z, m)
  }

  ghost predicate ZoneFits(z: Object<ZoneSpec>, m: map<Name, IntraZone>) {
    z.meta.name in m && m[z.meta.name] == if z.spec.intraZoneTraffic == Allow then Allow else Deny
  }

  ghost predicate TrustedFits(r: Renderer, t: Tree, l: seq<string>) {
    if t.system != [] && t.system[0].spec.trustedHosts.Some? then
      forall x :: x in l <==> AddressText(r, t, t.system[0].spec.trustedHosts.value, x)
    else l == []
  }

  ghost predicate LinksFit(l: seq<Object<InterfaceSpec>>, links: seq<Link>) {
    |links| == |l| && forall i :: 0 <= i < |l| ==>
      links[i] == Link(l[i].meta.name, l[i].spec.(ipv6 := None), l[i].spec.enabled != Some(false))
  }

  ghost predicate SpecsFit<S>(l: seq<Object<S>>, specs: seq<S>) {
    |specs| == |l| && forall i :: 0 <= i < |l| ==> specs[i] == l[i].spec
  }

  ghost predicate ServedFits(t: Tree, refs: Option<seq<Name>>, on: Option<set<Name>>) {
    (on.Some? <==> refs.Some?) && (on.Some? ==> forall n :: n in on.value <==> ServesOn(t, refs, n))
  }

  ghost predicate DnsFits(t: Tree, d: Dns) {
    && ServedFits(t, DnsRefs(t), d.dnsOn) && ServedFits(t, NtpRefs(t), d.ntpOn)
    && (if t.system == [] then d.dns == None && d.ntp == None
        else d.dns == t.system[0].spec.dns && d.ntp == t.system[0].spec.ntp)
  }

  /** The plan of a configuration. */
  ghost predicate PlanFits(r: Renderer, t: Tree, p: Plan) {
    && LinksFit(t.interfaces, p.network.links) && SpecsFit(t.routes, p.network.routes) && SpecsFit(t.dhcp, p.dhcp)
    && |p.dataplane.ruleSets| == |t.ruleSets|
    && (forall i :: 0 <= i < |t.ruleSets| ==> RuleSetFits(r, t, t.ruleSets[i], p.dataplane.ruleSets[i]))
    && SystemFits(t, p.dataplane) && InterfacesFit(t, p.dataplane) && ZonesFit(t, p.dataplane.intraZone)
    && TrustedFits(r, t, p.dataplane.trusted) && DnsFits(t, p.dns) && p.dns.addresses == p.dataplane.addresses
  }

  // ---- the proofs for the other parts ---------------------------------------------------------

  lemma {:induction false} RuleSetsRead(r: Renderer, t: Tree, l: seq<RuleSet>)
    requires UniqueNames(t)
    ensures |CompiledRuleSets(r, t, l)| == |l|
    ensures forall i :: 0 <= i < |l| ==> RuleSetFits(r, t, l[i], CompiledRuleSets(r, t, l)[i])
  {
    if l != [] {
      RuleSetsRead(r, t, l[1..]);
      RuleSetRead(r, t, l[0]);
      assert forall i :: 0 < i < |l| ==> l[i] == l[1..][i - 1];
    }
  }

  lemma {:induction false} LinksRead(l: seq<Object<InterfaceSpec>>)
    ensures LinksFit(l, LinksOf(l))
  {
    if l != [] { LinksRead(l[1..]); }
  }

  lemma {:induction false} SpecsRead<S>(l: seq<Object<S>>)
    ensures SpecsFit(l, Specs(l))
  {
    if l != [] { SpecsRead(l[1..]); }
  }

  lemma {:induction false} FeedsRead(l: seq<(string, bool)>, x: string)
    ensures x in EnabledFeeds(l) <==> (x, true) in l
  {
    if l != [] {
      FeedsRead(l[1..], x);
      assert (x, true) in l <==> (x, true) == l[0] || (x, true) in l[1..];
      assert l[0] == (l[0].0, l[0].1);
    }
  }

  lemma {:induction false} SystemRead(r: Renderer, t: Tree)
    ensures SystemFits(t, PlanOf(r, t).dataplane)
  {
    if t.system != [] {
      forall x ensures x in EnabledFeeds(t.system[0].spec.feeds) <==> (x, true) in t.system[0].spec.feeds {
        FeedsRead(t.system[0].spec.feeds, x);
      }
    }
  }

  lemma {:induction false} ServedRead(t: Tree, refs: seq<Name>, n: Name)
    requires UniqueNames(t)
    ensures n in Served(t, refs) <==> exists ref :: ref in refs && F.OnSide(t, ref, n)
  {
    if refs != [] {
      ServedRead(t, refs[1..], n);
      SideRead(t, refs[0], n);
      assert forall ref :: ref in refs <==> ref == refs[0] || ref in refs[1..];
    }
  }

  lemma {:induction false} ServicesServed(t: Tree)
    requires UniqueNames(t)
    ensures ServedFits(t, DnsRefs(t), DnsServed(t)) && ServedFits(t, NtpRefs(t), NtpServed(t))
  {
    forall refs, n ensures n in Served(t, refs) <==> exists ref :: ref in refs && F.OnSide(t, ref, n) {
      ServedRead(t, refs, n);
    }
  }

  lemma {:induction false} AccessesRead(l: seq<string>, port: nat)
    ensures |Accesses(l, port)| == |l|
    ensures forall i :: 0 <= i < |l| ==> Accesses(l, port)[i] == if l[i] == "https" then Https(port) else Service(l[i])
  {
    if l != [] { AccessesRead(l[1..], port); }
  }

  lemma {:induction false} DhcpRead(t: Tree, n: Name)
    ensures n in DhcpServed(Specs(t.dhcp)) <==> ServesDhcp(t, n)
  {
    SpecsRead(t.dhcp);
    if s :| s in Specs(t.dhcp) && s.enabled && s.iface == n {
      var i :| 0 <= i < |Specs(t.dhcp)| && Specs(t.dhcp)[i] == s;
      assert t.dhcp[i] in t.dhcp;
    }
    if d :| d in t.dhcp && d.spec.enabled && d.spec.iface == n {
      var i :| 0 <= i < |t.dhcp| && t.dhcp[i] == d;
      assert Specs(t.dhcp)[i] in Specs(t.dhcp);
    }
  }

  function Implicit(dhcp: bool, dns: bool, ntp: bool): seq<Access> {
    (if dhcp then [ImplicitDhcp] else []) + (if dns then [ImplicitDns] else []) + (if ntp then [ImplicitNtp] else [])
  }

  lemma ImplicitMembers(dhcp: bool, dns: bool, ntp: bool, x: Access)
    ensures x in Implicit(dhcp, dns, ntp) <==>
      (x == ImplicitDhcp && dhcp) || (x == ImplicitDns && dns) || (x == ImplicitNtp && ntp)
  {
  }

  lemma LocalInSplit(o: Object<InterfaceSpec>, port: nat, dhcp: set<Name>, dns: Option<set<Name>>,
                     ntp: Option<set<Name>>)
    ensures var (n, own) := (o.meta.name, o.spec.allowAccess);
      LocalInOf(o, port, dhcp, dns, ntp) == Accesses(own, port) +
        Implicit(n in dhcp && "dhcp" !in own, On(dns, n) && "dns" !in own, On(ntp, n) && "ntp" !in own)
  {
  }

  lemma {:induction false} AccessRead(t: Tree, o: Object<InterfaceSpec>, port: nat)
    requires UniqueNames(t)
    ensures AccessFits(t, o, port, LocalInOf(o, port, DhcpServed(Specs(t.dhcp)), DnsServed(t), NtpServed(t)))
  {
    var (n, own) := (o.meta.name, o.spec.allowAccess);
    AccessesRead(own, port);
    DhcpRead(t, n);
    assert On(DnsServed(t), n) == ServesOn(t, DnsRefs(t), n) && On(NtpServed(t), n) == ServesOn(t, NtpRefs(t), n) by {
      ServicesServed(t);
    }
    LocalInSplit(o, port, DhcpServed(Specs(t.dhcp)), DnsServed(t), NtpServed(t));
    var l := LocalInOf(o, port, DhcpServed(Specs(t.dhcp)), DnsServed(t), NtpServed(t));
    var rest := Implicit(ServesDhcp(t, n) && "dhcp" !in own, ServesOn(t, DnsRefs(t), n) && "dns" !in own,
                         ServesOn(t, NtpRefs(t), n) && "ntp" !in own);
    assert l[|own|..] == rest;
    forall x ensures x in rest <==> Lets(t, o, x) {
      ImplicitMembers(ServesDhcp(t, n) && "dhcp" !in own, ServesOn(t, DnsRefs(t), n) && "dns" !in own,
                      ServesOn(t, NtpRefs(t), n) && "ntp" !in own, x);
    }
  }

  ghost predicate Maps<S, V>(m: map<Name, V>, o: Object<S>, v: V) { o.meta.name in m && m[o.meta.name] == v }

  lemma {:induction false} LocalInsRead(l: seq<Object<InterfaceSpec>>, port: nat, dhcp: set<Name>,
                                        dns: Option<set<Name>>, ntp: Option<set<Name>>)
    requires Consistent(l)
    ensures forall n :: n in LocalIns(l, port, dhcp, dns, ntp) <==> F.Named(l, n)
    ensures forall o :: o in l ==> Maps(LocalIns(l, port, dhcp, dns, ntp), o, LocalInOf(o, port, dhcp, dns, ntp))
  {
    if l != [] {
      LocalInsRead(l[..|l| - 1], port, dhcp, dns, ntp);
      assert forall o :: o in l <==> o in l[..|l| - 1] || o == l[|l| - 1];
    }
  }

  lemma {:induction false} InterfaceAddressesRead(l: seq<Object<InterfaceSpec>>)
    requires Consistent(l)
    ensures forall n :: n in InterfaceAddresses(l) <==> F.Named(l, n)
    ensures forall o :: o in l ==> Maps(InterfaceAddresses(l), o, StaticAddresses(o.spec))
  {
    if l != [] {
      InterfaceAddressesRead(l[..|l| - 1]);
      assert forall o :: o in l <==> o in l[..|l| - 1] || o == l[|l| - 1];
    }
  }

  lemma {:induction false} InterfaceRead(t: Tree, d: Dataplane, o: Object<InterfaceSpec>, l: seq<Access>)
    requires o in t.interfaces && d.addresses == InterfaceAddresses(t.interfaces) && Consistent(t.interfaces)
    requires Maps(d.localIn, o, l) && AccessFits(t, o, d.httpsPort, l)
    ensures InterfaceFits(t, d, o)
  {
    assert Maps(d.addresses, o, StaticAddresses(o.spec)) by { InterfaceAddressesRead(t.interfaces); }
  }

  lemma {:induction false} InterfacesRead(r: Renderer, t: Tree)
    requires UniqueNames(t)
    ensures InterfacesFit(t, PlanOf(r, t).dataplane)
  {
    assert Consistent(t.interfaces) by { CleanNames(t); }
    var d := PlanOf(r, t).dataplane;
    var (dhcp, dns, ntp) := (DhcpServed(Specs(t.dhcp)), DnsServed(t), NtpServed(t));
    assert forall n :: n in d.addresses <==> F.Named(t.interfaces, n) by { InterfaceAddressesRead(t.interfaces); }
    LocalInsRead(t.interfaces, d.httpsPort, dhcp, dns, ntp);
    forall o | o in t.interfaces ensures InterfaceFits(t, d, o) {
      AccessRead(t, o, d.httpsPort);
      InterfaceRead(t, d, o, LocalInOf(o, d.httpsPort, dhcp, dns, ntp));
    }
  }

  lemma {:induction false} ZonesRead(l: seq<Object<ZoneSpec>>)
    requires Consistent(l)
    ensures forall n :: n in IntraZones(l) <==> F.Named(l, n)
    ensures forall z :: z in l ==> ZoneFits(z, IntraZones(l))
  {
    if l != [] {
      ZonesRead(l[..|l| - 1]);
      assert forall z :: z in l <==> z in l[..|l| - 1] || z == l[|l| - 1];
    }
  }

  lemma {:induction false} TrustedRead(r: Renderer, t: Tree)
    requires UniqueNames(t)
    ensures TrustedFits(r, t, Trusted(r, t))
  {
    if t.system != [] && t.system[0].spec.trustedHosts.Some? {
      var refs := t.system[0].spec.trustedHosts.value;
      forall x ensures x in AddressTexts(r, AddressesOf(AddressGraph(t), refs)) <==> AddressText(r, t, refs, x) {
        AddressTextRead(r, t, refs, x);
      }
    }
  }

  /** The compiler puts into the sections what belongs there. */
  lemma {:induction false} PlanIsRight(r: Renderer, t: Tree)
    requires UniqueNames(t)
    ensures PlanFits(r, t, PlanOf(r, t))
  {
    CleanNames(t);
    LinksRead(t.interfaces);
    SpecsRead(t.routes);
    SpecsRead(t.dhcp);
    RuleSetsRead(r, t, t.ruleSets);
    SystemRead(r, t);
    InterfacesRead(r, t);
    ZonesRead(t.zones);
    TrustedRead(r, t);
    ServicesServed(t);
  }

  // ---- traffic inside a Zone, read from the section -------------------------------------------

  /** The section allows traffic between two Interfaces inside a Zone. */
  ghost predicate SectionAllows(d: Dataplane, t: Tree, a: Name, b: Name) {
    exists z :: F.ZoneHas(t, z, a) && F.ZoneHas(t, z, b) && Maps(d.intraZone, z, Allow)
  }

  /** A flow that leaves by another Interface where the section has no RuleSet is
      accepted if a Zone of both Interfaces is allowed by the section, and
      dropped otherwise. */
  lemma {:induction false} OutsideReadsZones(r: Renderer, t: Tree, f: Flow)
    requires CleanTree(t) && LeavesElsewhere(t, f)
    requires FirstForPair(PlanOf(r, t).dataplane.ruleSets, f.inIf, Routing.RouteOf(t, V4(f.dst))) == None
    ensures RoutedVerdict(t, f).action in {Accept, Drop}
    ensures RoutedVerdict(t, f).action == Accept <==>
      SectionAllows(PlanOf(r, t).dataplane, t, f.inIf, Routing.RouteOf(t, V4(f.dst)))
  {
    var outIf := Routing.RouteOf(t, V4(f.dst));
    PairKeepsMeaning(r, t, t.ruleSets, f.inIf, outIf);
    ZoneAllowsRead(t, f.inIf, outIf);
    CleanNames(t);
    ZonesRead(t.zones);
  }

  predicate LeavesElsewhere(t: Tree, f: Flow) {
    Routing.RouteOf(t, V4(f.dst)) != "" && Routing.RouteOf(t, V4(f.dst)) != f.inIf
  }
}
