/** The rule compiler: one section per driver. RuleSets become pairs of
    Interfaces and entries of resolved texts; what a driver does not need never
    reaches its section. */
module Compile {
  import opened Prelude
  import opened Ipv4
  import opened Model
  import opened Expand
  import opened Matching
  import opened Routing
  import opened Classify
  import opened Texts

  /** How addresses and services are written as texts. */
  datatype Renderer = Renderer(address: AddressForm -> string, service: seq<ProtocolEntry> -> string)

  /** Equal texts mean the same addresses and services, and none is written
      "any". */
  ghost predicate Faithful(r: Renderer) {
    && (forall a, b :: r.address(a) == r.address(b) ==> SameAddresses(a, b))
    && (forall a :: r.address(a) != ANY)
    && (forall a, b :: r.service(a) == r.service(b) ==> SameServices(a, b))
    && (forall a :: r.service(a) != ANY)
  }

  ghost predicate SameAddresses(a: AddressForm, b: AddressForm) {
    forall ip: U32 :: AddrContains(a, ip) <==> AddrContains(b, ip)
  }

  ghost predicate SameServices(a: seq<ProtocolEntry>, b: seq<ProtocolEntry>) {
    forall proto: string, port: U32 ::
      ServiceMatches(ServiceSpec(a), proto, port) <==> ServiceMatches(ServiceSpec(b), proto, port)
  }

  // ---- the sections -------------------------------------------------------------------

  datatype Link = Link(name: Name, spec: InterfaceSpec, enabled: bool)

  /** A translation keeps its names, or gets its targets resolved. */
  datatype EntryNat = Named(nat: Nat) | Resolved(addresses: seq<string>, services: seq<string>)

  datatype Entry = Entry(rule: Name, action: Action, log: string, translate: Option<EntryNat>,
                         source: seq<string>, destination: seq<string>, service: seq<string>)

  datatype Compiled = Compiled(name: Name, pairs: seq<(Name, Name)>, rules: seq<Entry>)

  datatype Access = Service(name: string) | Https(port: nat) | ImplicitDhcp | ImplicitDns | ImplicitNtp

  datatype Network = Network(links: seq<Link>, routes: seq<StaticRouteSpec>)

  datatype Dataplane = Dataplane(ruleSets: seq<Compiled>, localIn: map<Name, seq<Access>>,
                                 intraZone: map<Name, IntraZone>, trusted: seq<string>, httpsPort: nat,
                                 session: string, logging: string, feeds: seq<string>,
                                 addresses: map<Name, seq<Prefix>>)

  datatype Dns = Dns(dns: Option<(string, seq<Name>)>, ntp: Option<(bool, string, seq<Name>)>,
                     dnsOn: Option<set<Name>>, ntpOn: Option<set<Name>>, addresses: map<Name, seq<Prefix>>)

  datatype Plan = Plan(network: Network, dataplane: Dataplane, dhcp: seq<DhcpServerSpec>, dns: Dns)

  // ---- resolution ---------------------------------------------------------------------

  function AddressTexts(r: Renderer, l: seq<AddressSpec>): seq<string> {
    if l == [] then [] else [r.address(l[0].form)] + AddressTexts(r, l[1..])
  }

  function ServiceTexts(r: Renderer, l: seq<ServiceSpec>): seq<string> {
    if l == [] then [] else [r.service(l[0].protocols)] + ServiceTexts(r, l[1..])
  }

  /** The services of a list of references, in order. */
  function ServicesOf(g: Graph<ServiceSpec>, refs: seq<Name>): seq<ServiceSpec> {
    if refs == [] then [] else Expanded(g, refs[0]) + ServicesOf(g, refs[1..])
  }

  function ResolvedAddresses(r: Renderer, g: Graph<AddressSpec>, refs: seq<Name>): seq<string> {
    if IsAny(refs) then [ANY] else Normal(AddressTexts(r, AddressesOf(g, refs)))
  }

  function ResolvedServices(r: Renderer, g: Graph<ServiceSpec>, refs: seq<Name>): seq<string> {
    if IsAny(refs) then [ANY] else Normal(ServiceTexts(r, ServicesOf(g, refs)))
  }

  // ---- RuleSets -----------------------------------------------------------------------

  function PairsWith(f: Name, to: seq<Name>): seq<(Name, Name)> {
    if to == [] then [] else (if f != to[0] then [(f, to[0])] else []) + PairsWith(f, to[1..])
  }

  function PairsOf(from: seq<Name>, to: seq<Name>): seq<(Name, Name)> {
    if from == [] then [] else PairsWith(from[0], to) + PairsOf(from[1..], to)
  }

  function NatOf(r: Renderer, t: Tree, n: Option<Nat>): Option<EntryNat> {
    match n
    case None => None
    case Some(x) =>
      if x.kind == Dnat && x.translateIpTo != "" then
        Some(Resolved(ResolvedAddresses(r, AddressGraph(t), [x.translateIpTo]),
                      ResolvedServices(r, ServiceGraph(t), [x.translateServiceTo])))
      else Some(Named(x))
  }

  function EntryOf(r: Renderer, t: Tree, x: Rule): Entry {
    Entry(x.name, x.action, x.log, NatOf(r, t, x.translate),
          ResolvedAddresses(r, AddressGraph(t), x.source), ResolvedAddresses(r, AddressGraph(t), x.destination),
          ResolvedServices(r, ServiceGraph(t), x.service))
  }

  /** The entries of the enabled rules. */
  function EntriesFor(r: Renderer, t: Tree, rules: seq<Rule>): seq<Entry> {
    if rules == [] then []
    else (if IsEnabled(rules[0].enabled) then [EntryOf(r, t, rules[0])] else []) + EntriesFor(r, t, rules[1..])
  }

  function CompiledOf(r: Renderer, t: Tree, rs: RuleSet): Compiled {
    Compiled(rs.meta.name, PairsOf(Side(t, rs.spec.from), Side(t, rs.spec.to)), EntriesFor(r, t, rs.spec.rules))
  }

  function CompiledRuleSets(r: Renderer, t: Tree, l: seq<RuleSet>): seq<Compiled> {
    if l == [] then [] else [CompiledOf(r, t, l[0])] + CompiledRuleSets(r, t, l[1..])
  }

  // ---- what compiled rules mean ---------------------------------------------------------

  ghost predicate TextHasAddress(r: Renderer, x: string, ip: U32) {
    exists form :: r.address(form) == x && AddrContains(form, ip)
  }

  ghost predicate TextHasService(r: Renderer, x: string, proto: string, port: U32) {
    exists l :: r.service(l) == x && ServiceMatches(ServiceSpec(l), proto, port)
  }

  ghost predicate AddressTextsMatch(r: Renderer, l: seq<string>, ip: U32) {
    l == [ANY] || exists x :: x in l && TextHasAddress(r, x, ip)
  }

  ghost predicate ServiceTextsMatch(r: Renderer, l: seq<string>, proto: string, port: U32) {
    l == [ANY] || exists x :: x in l && TextHasService(r, x, proto, port)
  }

  ghost predicate EntryTakes(r: Renderer, e: Entry, f: Flow) {
    && AddressTextsMatch(r, e.source, f.src)
    && AddressTextsMatch(r, e.destination, f.dst)
    && ServiceTextsMatch(r, e.service, f.proto, f.dport)
  }

  /** An entry that translates the destination. */
  predicate EntryIsDnat(e: Entry) {
    match e.translate
    case None => false
    case Some(Named(n)) => n.kind == Dnat
    case Some(Resolved(_, _)) => true
  }

  /** The first entry that takes a flow, skipping those that translate the
      destination if asked to. */
  ghost function FirstEntry(r: Renderer, l: seq<Entry>, f: Flow, skip: bool): Option<Entry> {
    if l == [] then None
    else if !(skip && EntryIsDnat(l[0])) && EntryTakes(r, l[0], f) then Some(l[0])
    else FirstEntry(r, l[1..], f, skip)
  }

  function FirstForPair(l: seq<Compiled>, inIf: Name, outIf: Name): Option<Compiled> {
    if l == [] then None
    else if (inIf, outIf) in l[0].pairs then Some(l[0])
    else FirstForPair(l[1..], inIf, outIf)
  }

  // ---- meaning is kept ------------------------------------------------------------------

  lemma {:induction false} AddressTextsMembers(r: Renderer, l: seq<AddressSpec>, x: string)
    ensures x in AddressTexts(r, l) <==> exists a :: a in l && r.address(a.form) == x
  {
    if l != [] {
      AddressTextsMembers(r, l[1..], x);
      assert forall a :: a in l <==> a == l[0] || a in l[1..];
    }
  }

  lemma {:induction false} ServiceTextsMembers(r: Renderer, l: seq<ServiceSpec>, x: string)
    ensures x in ServiceTexts(r, l) <==> exists s :: s in l && r.service(s.protocols) == x
  {
    if l != [] {
      ServiceTextsMembers(r, l[1..], x);
      assert forall s :: s in l <==> s == l[0] || s in l[1..];
    }
  }

  lemma {:induction false} ServicesOfMembers(g: Graph<ServiceSpec>, refs: seq<Name>, s: ServiceSpec)
    ensures s in ServicesOf(g, refs) <==> exists r :: r in refs && s in Expanded(g, r)
  {
    if refs != [] {
      ServicesOfMembers(g, refs[1..], s);
      assert forall r :: r in refs <==> r == refs[0] || r in refs[1..];
    }
  }

  /** Resolved addresses mean what the references mean. */
  lemma AddressesKeepMeaning(r: Renderer, g: Graph<AddressSpec>, refs: seq<Name>, ip: U32)
    requires Faithful(r)
    ensures AddressTextsMatch(r, ResolvedAddresses(r, g, refs), ip) <==> InAddresses(g, refs, ip)
  {
    if !IsAny(refs) {
      var l := AddressesOf(g, refs);
      NormalForm(AddressTexts(r, l));
      var texts := Normal(AddressTexts(r, l));
      forall x ensures x in texts <==> exists a :: a in l && r.address(a.form) == x {
        AddressTextsMembers(r, l, x);
      }
      NotAny(texts);
      forall a ensures a in l <==> exists ref :: ref in refs && a in Expanded(g, ref) {
        AddressesOfMembers(g, refs, a);
      }
      if a :| a in l && AddrContains(a.form, ip) {
        assert r.address(a.form) in texts && TextHasAddress(r, r.address(a.form), ip);
      }
    }
  }

  lemma NotAny(texts: seq<string>)
    ensures ANY !in texts ==> texts != [ANY]
  {
  }

  /** Resolved services mean what the references mean. */
  lemma ServicesKeepMeaning(r: Renderer, g: Graph<ServiceSpec>, refs: seq<Name>, proto: string, port: U32)
    requires Faithful(r)
    ensures ServiceTextsMatch(r, ResolvedServices(r, g, refs), proto, port) <==> InServices(g, refs, proto, port)
  {
    if !IsAny(refs) {
      var l := ServicesOf(g, refs);
      NormalForm(ServiceTexts(r, l));
      var texts := Normal(ServiceTexts(r, l));
      forall x ensures x in texts <==> exists s :: s in l && r.service(s.protocols) == x {
        ServiceTextsMembers(r, l, x);
      }
      NotAny(texts);
      forall s ensures s in l <==> exists ref :: ref in refs && s in Expanded(g, ref) {
        ServicesOfMembers(g, refs, s);
      }
      if s :| s in l && ServiceMatches(s, proto, port) {
        assert ServiceSpec(s.protocols) == s;
        assert r.service(s.protocols) in texts && TextHasService(r, r.service(s.protocols), proto, port);
      }
    }
  }

  /** The entry of an enabled rule takes exactly the flows the rule matches. */
  lemma EntryKeepsMeaning(r: Renderer, t: Tree, x: Rule, f: Flow)
    requires Faithful(r) && IsEnabled(x.enabled)
    ensures EntryTakes(r, EntryOf(r, t, x), f) <==> Matches(t, x, f)
    ensures EntryIsDnat(EntryOf(r, t, x)) <==> IsDnat(x)
  {
    AddressesKeepMeaning(r, AddressGraph(t), x.source, f.src);
    AddressesKeepMeaning(r, AddressGraph(t), x.destination, f.dst);
    ServicesKeepMeaning(r, ServiceGraph(t), x.service, f.proto, f.dport);
  }

  function EntryOfSome(r: Renderer, t: Tree, x: Option<Rule>): Option<Entry> {
    if x.Some? then Some(EntryOf(r, t, x.value)) else None
  }

  /** First match over the compiled entries is first match over the rules, with
      and without the rules that translate the destination. */
  lemma {:induction false} FirstEntryKeepsMeaning(r: Renderer, t: Tree, rules: seq<Rule>, f: Flow)
    requires Faithful(r)
    ensures FirstEntry(r, EntriesFor(r, t, rules), f, true) == EntryOfSome(r, t, FirstPolicy(t, rules, f))
    ensures FirstEntry(r, EntriesFor(r, t, rules), f, false) == EntryOfSome(r, t, FirstMatch(t, rules, f))
  {
    if rules != [] {
      FirstEntryKeepsMeaning(r, t, rules[1..], f);
      if IsEnabled(rules[0].enabled) {
        EntryKeepsMeaning(r, t, rules[0], f);
        assert EntriesFor(r, t, rules)[1..] == EntriesFor(r, t, rules[1..]);
      } else {
        assert EntriesFor(r, t, rules) == EntriesFor(r, t, rules[1..]);
      }
    }
  }

  lemma {:induction false} PairsWithMembers(f: Name, to: seq<Name>, p: (Name, Name))
    ensures p in PairsWith(f, to) <==> p.0 == f && p.1 in to && p.0 != p.1
  {
    if to != [] { PairsWithMembers(f, to[1..], p); }
  }

  /** The pairs of a RuleSet are the pairs it governs, without an Interface
      paired with itself. */
  lemma {:induction false} PairsOfMembers(from: seq<Name>, to: seq<Name>, p: (Name, Name))
    ensures p in PairsOf(from, to) <==> p.0 in from && p.1 in to && p.0 != p.1
  {
    if from != [] {
      PairsWithMembers(from[0], to, p);
      PairsOfMembers(from[1..], to, p);
    }
  }

  /** The compiled RuleSet found for a pair is the one that governs it. */
  lemma {:induction false} PairKeepsMeaning(r: Renderer, t: Tree, l: seq<RuleSet>, inIf: Name, outIf: Name)
    requires inIf != outIf
    ensures FirstForPair(CompiledRuleSets(r, t, l), inIf, outIf) ==
      match Governing(t, l, inIf, outIf)
      case Some(rs) => Some(CompiledOf(r, t, rs))
      case None => None
  {
    if l != [] {
      PairsOfMembers(Side(t, l[0].spec.from), Side(t, l[0].spec.to), (inIf, outIf));
      PairKeepsMeaning(r, t, l[1..], inIf, outIf);
      assert CompiledRuleSets(r, t, l)[1..] == CompiledRuleSets(r, t, l[1..]);
    }
  }

  /** What the data plane can read from its section about a flow that leaves by
      another Interface: the name of the RuleSet and the first entry in it. */
  ghost function Lookup(r: Renderer, d: Dataplane, inIf: Name, outIf: Name,
                        f: Flow): Option<(Name, Option<(Name, Action)>)> {
    match FirstForPair(d.ruleSets, inIf, outIf)
    case None => None
    case Some(c) =>
      match FirstEntry(r, c.rules, f, true)
      case None => Some((c.name, None))
      case Some(e) => Some((c.name, Some((e.rule, e.action))))
  }

  /** The second phase of the classifier decides what the section says. */
  ghost predicate Agrees(r: Renderer, d: Dataplane, t: Tree, f: Flow) {
    var v := RoutedVerdict(t, f);
    match Lookup(r, d, f.inIf, RouteOf(t, V4(f.dst)), f)
    case Some((name, Some((policy, action)))) =>
      v.ruleSet == name && v.policy == policy && v.action == action && v.reason == ByPolicy
    case Some((name, None)) => v.ruleSet == name && v.policy == "" && v.action == Drop && v.reason == DefaultDeny
    case None => v.ruleSet == "" && v.policy == "" && (v.reason == NoRuleSet || v.reason == IntraZoneTraffic)
  }

  /** Compilation preserves meaning, for every configuration and every flow that
      leaves by another Interface. */
  lemma CompilationKeepsMeaning(r: Renderer, t: Tree, f: Flow)
    requires Faithful(r) && RouteOf(t, V4(f.dst)) != "" && RouteOf(t, V4(f.dst)) != f.inIf
    ensures Agrees(r, PlanOf(r, t).dataplane, t, f)
  {
    var outIf := RouteOf(t, V4(f.dst));
    PairKeepsMeaning(r, t, t.ruleSets, f.inIf, outIf);
    var gov := Governing(t, t.ruleSets, f.inIf, outIf);
    if gov.Some? {
      FirstEntryKeepsMeaning(r, t, gov.value.spec.rules, f);
    }
  }

  // ---- the other sections -----------------------------------------------------------------

  const NO_SYSTEM := SystemSpec(0, None, None, None, "", "", [], false, "")

  function Sys(t: Tree): SystemSpec { if t.system == [] then NO_SYSTEM else t.system[0].spec }

  const HTTPS_PORT: nat := 443

  function HttpsPort(s: SystemSpec): nat { if s.httpsPort == 0 then HTTPS_PORT else s.httpsPort }

  function LinkOf(o: Object<InterfaceSpec>): Link {
    Link(o.meta.name, o.spec.(ipv6 := None), IsEnabled(o.spec.enabled))
  }

  function LinksOf(l: seq<Object<InterfaceSpec>>): seq<Link> {
    if l == [] then [] else [LinkOf(l[0])] + LinksOf(l[1..])
  }

  function Specs<S>(l: seq<Object<S>>): seq<S> {
    if l == [] then [] else [l[0].spec] + Specs(l[1..])
  }

  /** The Interfaces that a list of references serves. */
  function Served(t: Tree, refs: seq<Name>): set<Name> {
    if refs == [] then {} else (set n | n in Side(t, refs[0])) + Served(t, refs[1..])
  }

  function DnsServed(t: Tree): Option<set<Name>> {
    match Sys(t).dns
    case Some(d) => Some(Served(t, d.1))
    case None => None
  }

  function NtpServed(t: Tree): Option<set<Name>> {
    match Sys(t).ntp
    case Some(n) => if n.0 then Some(Served(t, n.2)) else None
    case None => None
  }

  function DhcpServed(l: seq<DhcpServerSpec>): set<Name> {
    set s | s in l && s.enabled :: s.iface
  }

  predicate On(s: Option<set<Name>>, n: Name) { s.Some? && n in s.value }

  function Accesses(l: seq<string>, port: nat): seq<Access> {
    if l == [] then [] else [if l[0] == "https" then Https(port) else Service(l[0])] + Accesses(l[1..], port)
  }

  /** What an Interface lets in: its own list, and what the firewall serves on it. */
  function LocalInOf(o: Object<InterfaceSpec>, port: nat, dhcp: set<Name>, dns: Option<set<Name>>,
                     ntp: Option<set<Name>>): seq<Access> {
    var (n, l) := (o.meta.name, o.spec.allowAccess);
    Accesses(l, port)
    + (if n in dhcp && "dhcp" !in l then [ImplicitDhcp] else [])
    + (if On(dns, n) && "dns" !in l then [ImplicitDns] else [])
    + (if On(ntp, n) && "ntp" !in l then [ImplicitNtp] else [])
  }

  function LocalIns(l: seq<Object<InterfaceSpec>>, port: nat, dhcp: set<Name>, dns: Option<set<Name>>,
                    ntp: Option<set<Name>>): map<Name, seq<Access>> {
    if l == [] then map[]
    else
      var o := l[|l| - 1];
      LocalIns(l[..|l| - 1], port, dhcp, dns, ntp)[o.meta.name := LocalInOf(o, port, dhcp, dns, ntp)]
  }

  function IntraZones(l: seq<Object<ZoneSpec>>): map<Name, IntraZone> {
    if l == [] then map[]
    else
      var z := l[|l| - 1];
      IntraZones(l[..|l| - 1])[z.meta.name := if z.spec.intraZoneTraffic == Unset then Deny else z.spec.intraZoneTraffic]
  }

  function InterfaceAddresses(l: seq<Object<InterfaceSpec>>): map<Name, seq<Prefix>> {
    if l == [] then map[]
    else
      var o := l[|l| - 1];
      InterfaceAddresses(l[..|l| - 1])[o.meta.name := StaticAddresses(o.spec)]
  }

  function Trusted(r: Renderer, t: Tree): seq<string> {
    match Sys(t).trustedHosts
    case Some(hosts) => AddressTexts(r, AddressesOf(AddressGraph(t), hosts))
    case None => []
  }

  function EnabledFeeds(l: seq<(string, bool)>): seq<string> {
    if l == [] then [] else (if l[0].1 then [l[0].0] else []) + EnabledFeeds(l[1..])
  }

  function Feeds(s: SystemSpec): seq<string> { if s.feedsOn then EnabledFeeds(s.feeds) else [] }

  function PlanOf(r: Renderer, t: Tree): Plan {
    var s := Sys(t);
    Plan(
      Network(LinksOf(t.interfaces), Specs(t.routes)),
      Dataplane(CompiledRuleSets(r, t, t.ruleSets),
                LocalIns(t.interfaces, HttpsPort(s), DhcpServed(Specs(t.dhcp)), DnsServed(t), NtpServed(t)),
                IntraZones(t.zones), Trusted(r, t), HttpsPort(s), s.session, s.logging, Feeds(s),
                InterfaceAddresses(t.interfaces)),
      Specs(t.dhcp),
      Dns(s.dns, s.ntp, DnsServed(t), NtpServed(t), InterfaceAddresses(t.interfaces)))
  }

  // ---- what no section sees -----------------------------------------------------------------

  const NO_META := Meta("", "", "", "", "", map[])

  function JustName(m: Meta): Meta { NO_META.(name := m.name) }

  function EraseRules(l: seq<Rule>): seq<Rule> {
    if l == [] then [] else [EraseRule(l[0])] + EraseRules(l[1..])
  }

  function EraseRuleSets(l: seq<RuleSet>): seq<RuleSet> {
    if l == [] then []
    else
      var s := l[0].spec;
      [Object(JustName(l[0].meta), s.(rules := EraseRules(s.rules)))] + EraseRuleSets(l[1..])
  }

  function EraseInterfaces(l: seq<Object<InterfaceSpec>>): seq<Object<InterfaceSpec>> {
    if l == [] then [] else [Object(JustName(l[0].meta), l[0].spec.(ipv6 := None))] + EraseInterfaces(l[1..])
  }

  function EraseAddresses(l: seq<Object<AddressSpec>>): seq<Object<AddressSpec>> {
    if l == [] then [] else [Object(JustName(l[0].meta), l[0].spec.(iface := ""))] + EraseAddresses(l[1..])
  }

  /** Only the names of the metadata. */
  function EraseMeta<S>(l: seq<Object<S>>): seq<Object<S>> {
    if l == [] then [] else [Object(JustName(l[0].meta), l[0].spec)] + EraseMeta(l[1..])
  }

  /** Not even the names. */
  function EraseNames<S>(l: seq<Object<S>>): seq<Object<S>> {
    if l == [] then [] else [Object(NO_META, l[0].spec)] + EraseNames(l[1..])
  }

  /** A configuration without what no section sees: all metadata but the names
      that are referred to, Colors, Users, identifiers, comments and schedules
      of rules, the IPv6 settings of Interfaces, the Interface of an Address,
      and the part of the System that no driver is given. */
  function Erase(t: Tree): Tree {
    t.(system := [Object(NO_META, Sys(t).(other := ""))], colors := [], users := [],
       interfaces := EraseInterfaces(t.interfaces), zones := EraseMeta(t.zones),
       routes := EraseNames(t.routes), dhcp := EraseNames(t.dhcp),
       addresses := EraseAddresses(t.addresses), addressGroups := EraseMeta(t.addressGroups),
       services := EraseMeta(t.services), serviceGroups := EraseMeta(t.serviceGroups),
       ruleSets := EraseRuleSets(t.ruleSets))
  }

  lemma {:induction false} EraseMetaIndex<S>(l: seq<Object<S>>)
    ensures Index(EraseMeta(l)) == Index(l)
    ensures forall n :: Find(EraseMeta(l), n) == Find(l, n)
  {
    if l != [] {
      EraseMetaIndex(l[1..]);
      assert EraseMeta(l)[1..] == EraseMeta(l[1..]);
    }
  }

  lemma {:induction false} EraseNamesSpecs<S>(l: seq<Object<S>>)
    ensures Specs(EraseNames(l)) == Specs(l)
  {
    if l != [] {
      EraseNamesSpecs(l[1..]);
      assert EraseNames(l)[1..] == EraseNames(l[1..]);
    }
  }

  lemma {:induction false} EraseInterfacesFind(l: seq<Object<InterfaceSpec>>, n: Name)
    ensures Find(EraseInterfaces(l), n).Some? <==> Find(l, n).Some?
  {
    if l != [] {
      EraseInterfacesFind(l[1..], n);
      assert EraseInterfaces(l)[1..] == EraseInterfaces(l[1..]);
    }
  }

  /** The same objects but for the Interface an Address belongs to. */
  ghost predicate SameForms(g: Graph<AddressSpec>, h: Graph<AddressSpec>) {
    && g.groups == h.groups && g.leaves.Keys == h.leaves.Keys
    && forall n :: n in g.leaves ==> g.leaves[n].form == h.leaves[n].form
  }

  lemma {:induction false} EraseAddressesIndex(l: seq<Object<AddressSpec>>)
    ensures Index(EraseAddresses(l)).Keys == Index(l).Keys
    ensures forall n :: n in Index(l) ==> Index(EraseAddresses(l))[n].form == Index(l)[n].form
  {
    if l != [] {
      EraseAddressesIndex(l[1..]);
      assert EraseAddresses(l)[1..] == EraseAddresses(l[1..]);
    }
  }

  lemma {:induction false} SameWalk(g: Graph<AddressSpec>, h: Graph<AddressSpec>, todo: seq<Name>, seen: set<Name>)
    requires SameForms(g, h)
    ensures Walk(g, todo, seen) == Walk(h, todo, seen)
    decreases |g.groups.Keys - seen|, |todo|
  {
    if todo != [] {
      var n := todo[0];
      if n in seen {
        SameWalk(g, h, todo[1..], seen);
      } else {
        var seen1 := seen + {n};
        SubsetCard(g.groups.Keys - seen1, g.groups.Keys - seen);
        if n !in g.leaves && n in g.groups {
          assert n in g.groups.Keys - seen;
          var inner := Walk(g, g.groups[n], seen1);
          SubsetCard(g.groups.Keys - inner.seen, g.groups.Keys - seen1);
          SameWalk(g, h, g.groups[n], seen1);
          SameWalk(g, h, todo[1..], inner.seen);
        } else {
          SameWalk(g, h, todo[1..], seen1);
        }
      }
    }
  }

  lemma {:induction false} SameTexts(r: Renderer, g: Graph<AddressSpec>, h: Graph<AddressSpec>, names: seq<Name>)
    requires SameForms(g, h)
    ensures AddressTexts(r, Resolve(g, names)) == AddressTexts(r, Resolve(h, names))
  {
    if names != [] { SameTexts(r, g, h, names[1..]); }
  }

  lemma {:induction false} AddressTextsAppend(r: Renderer, a: seq<AddressSpec>, b: seq<AddressSpec>)
    ensures AddressTexts(r, a + b) == AddressTexts(r, a) + AddressTexts(r, b)
  {
    if a == [] {
      assert a + b == b;
    } else {
      assert a + b == [a[0]] + (a[1..] + b);
      AddressTextsAppend(r, a[1..], b);
    }
  }

  lemma {:induction false} SameReferences(r: Renderer, g: Graph<AddressSpec>, h: Graph<AddressSpec>, refs: seq<Name>)
    requires SameForms(g, h)
    ensures AddressTexts(r, AddressesOf(g, refs)) == AddressTexts(r, AddressesOf(h, refs))
  {
    if refs != [] {
      SameReferences(r, g, h, refs[1..]);
      SameWalk(g, h, [refs[0]], {});
      SameTexts(r, g, h, Leaves(g, refs[0]));
      AddressTextsAppend(r, Expanded(g, refs[0]), AddressesOf(g, refs[1..]));
      AddressTextsAppend(r, Expanded(h, refs[0]), AddressesOf(h, refs[1..]));
    }
  }

  /** Two configurations in which references mean the same. */
  ghost predicate SameReading(t: Tree, u: Tree) {
    && SameForms(AddressGraph(t), AddressGraph(u))
    && ServiceGraph(t) == ServiceGraph(u)
    && forall n :: Side(t, n) == Side(u, n)
  }

  lemma EraseReading(t: Tree)
    ensures SameReading(t, Erase(t))
  {
    EraseAddressesIndex(t.addresses);
    EraseMetaIndex(t.addressGroups);
    EraseMetaIndex(t.services);
    EraseMetaIndex(t.serviceGroups);
    EraseMetaIndex(t.zones);
    forall n ensures Side(t, n) == Side(Erase(t), n) {
      EraseInterfacesFind(t.interfaces, n);
    }
  }

  lemma {:induction false} EraseEntries(r: Renderer, t: Tree, u: Tree, l: seq<Rule>)
    requires SameReading(t, u)
    ensures EntriesFor(r, t, l) == EntriesFor(r, u, EraseRules(l))
  {
    if l != [] {
      EraseEntries(r, t, u, l[1..]);
      assert EraseRules(l)[1..] == EraseRules(l[1..]);
      EraseEntry(r, t, u, l[0]);
    }
  }

  function EraseRule(x: Rule): Rule { x.(uuid := "", comment := "", schedule := "") }

  lemma EraseEntry(r: Renderer, t: Tree, u: Tree, x: Rule)
    requires SameReading(t, u)
    ensures EntryOf(r, t, x) == EntryOf(r, u, EraseRule(x))
  {
    SameResolved(r, AddressGraph(t), AddressGraph(u), x.source);
    SameResolved(r, AddressGraph(t), AddressGraph(u), x.destination);
    EraseNat(r, t, u, x.translate);
  }

  lemma SameResolved(r: Renderer, g: Graph<AddressSpec>, h: Graph<AddressSpec>, refs: seq<Name>)
    requires SameForms(g, h)
    ensures ResolvedAddresses(r, g, refs) == ResolvedAddresses(r, h, refs)
  {
    SameReferences(r, g, h, refs);
  }

  lemma EraseNat(r: Renderer, t: Tree, u: Tree, n: Option<Nat>)
    requires SameReading(t, u)
    ensures NatOf(r, t, n) == NatOf(r, u, n)
  {
    if n.Some? { SameResolved(r, AddressGraph(t), AddressGraph(u), [n.value.translateIpTo]); }
  }

  lemma {:induction false} EraseCompiled(r: Renderer, t: Tree, u: Tree, l: seq<RuleSet>)
    requires SameReading(t, u)
    ensures CompiledRuleSets(r, t, l) == CompiledRuleSets(r, u, EraseRuleSets(l))
  {
    if l != [] {
      EraseCompiled(r, t, u, l[1..]);
      assert EraseRuleSets(l)[1..] == EraseRuleSets(l[1..]);
      EraseEntries(r, t, u, l[0].spec.rules);
    }
  }

  lemma {:induction false} EraseLinks(l: seq<Object<InterfaceSpec>>)
    ensures LinksOf(EraseInterfaces(l)) == LinksOf(l)
  {
    if l != [] {
      EraseLinks(l[1..]);
      assert EraseInterfaces(l)[1..] == EraseInterfaces(l[1..]);
    }
  }

  lemma {:induction false} EraseInterfacesAt(l: seq<Object<InterfaceSpec>>, k: nat)
    requires k <= |l|
    ensures |EraseInterfaces(l)| == |l|
    ensures EraseInterfaces(l)[..k] == EraseInterfaces(l[..k])
    ensures k < |l| ==> EraseInterfaces(l)[k] == Object(JustName(l[k].meta), l[k].spec.(ipv6 := None))
  {
    if l != [] {
      if k == 0 {
        EraseInterfacesAt(l[1..], 0);
      } else {
        EraseInterfacesAt(l[1..], k - 1);
        assert l[..k][1..] == l[1..][..k - 1];
        assert EraseInterfaces(l)[..k] == [EraseInterfaces(l)[0]] + EraseInterfaces(l[1..])[..k - 1];
      }
    }
  }

  lemma {:induction false} EraseMetaAt<S>(l: seq<Object<S>>, k: nat)
    requires k <= |l|
    ensures |EraseMeta(l)| == |l|
    ensures EraseMeta(l)[..k] == EraseMeta(l[..k])
    ensures k < |l| ==> EraseMeta(l)[k] == Object(JustName(l[k].meta), l[k].spec)
  {
    if l != [] {
      if k == 0 {
        EraseMetaAt(l[1..], 0);
      } else {
        EraseMetaAt(l[1..], k - 1);
        assert l[..k][1..] == l[1..][..k - 1];
        assert EraseMeta(l)[..k] == [EraseMeta(l)[0]] + EraseMeta(l[1..])[..k - 1];
      }
    }
  }

  lemma {:induction false} EraseLocalIns(l: seq<Object<InterfaceSpec>>, port: nat, dhcp: set<Name>,
                                         dns: Option<set<Name>>, ntp: Option<set<Name>>)
    ensures LocalIns(EraseInterfaces(l), port, dhcp, dns, ntp) == LocalIns(l, port, dhcp, dns, ntp)
  {
    if l != [] {
      EraseInterfacesAt(l, |l| - 1);
      EraseLocalIns(l[..|l| - 1], port, dhcp, dns, ntp);
      EraseLocalIn(l[|l| - 1], port, dhcp, dns, ntp);
    }
  }

  lemma EraseLocalIn(o: Object<InterfaceSpec>, port: nat, dhcp: set<Name>, dns: Option<set<Name>>,
                     ntp: Option<set<Name>>)
    ensures LocalInOf(Object(JustName(o.meta), o.spec.(ipv6 := None)), port, dhcp, dns, ntp) ==
      LocalInOf(o, port, dhcp, dns, ntp)
  {
  }

  lemma {:induction false} EraseInterfaceAddresses(l: seq<Object<InterfaceSpec>>)
    ensures InterfaceAddresses(EraseInterfaces(l)) == InterfaceAddresses(l)
  {
    if l != [] {
      EraseInterfacesAt(l, |l| - 1);
      EraseInterfaceAddresses(l[..|l| - 1]);
    }
  }

  lemma {:induction false} EraseZones(l: seq<Object<ZoneSpec>>)
    ensures IntraZones(EraseMeta(l)) == IntraZones(l)
  {
    if l != [] {
      EraseMetaAt(l, |l| - 1);
      EraseZones(l[..|l| - 1]);
    }
  }

  lemma {:induction false} SameServed(t: Tree, u: Tree, refs: seq<Name>)
    requires forall n :: Side(t, n) == Side(u, n)
    ensures Served(t, refs) == Served(u, refs)
  {
    if refs != [] { SameServed(t, u, refs[1..]); }
  }

  lemma EraseServed(t: Tree)
    ensures DnsServed(Erase(t)) == DnsServed(t) && NtpServed(Erase(t)) == NtpServed(t)
  {
    EraseReading(t);
    if Sys(t).dns.Some? { SameServed(t, Erase(t), Sys(t).dns.value.1); }
    if Sys(t).ntp.Some? { SameServed(t, Erase(t), Sys(t).ntp.value.2); }
  }

  /** What is erased never reaches a section. */
  lemma EraseInvisible(r: Renderer, t: Tree)
    ensures PlanOf(r, Erase(t)) == PlanOf(r, t)
  {
    var u := Erase(t);
    EraseReading(t);
    EraseServed(t);
    EraseLinks(t.interfaces);
    EraseNamesSpecs(t.routes);
    EraseNamesSpecs(t.dhcp);
    EraseCompiled(r, t, u, t.ruleSets);
    EraseLocalIns(t.interfaces, HttpsPort(Sys(t)), DhcpServed(Specs(t.dhcp)), DnsServed(t), NtpServed(t));
    EraseInterfaceAddresses(t.interfaces);
    EraseZones(t.zones);
    if Sys(t).trustedHosts.Some? {
      SameReferences(r, AddressGraph(t), AddressGraph(u), Sys(t).trustedHosts.value);
    }
  }

  /** Commits that differ only in what is erased compile to the same plan: the
      second is a no-op. */
  lemma MetadataIsNoOp(r: Renderer, t: Tree, u: Tree)
    requires Erase(t) == Erase(u)
    ensures PlanOf(r, t) == PlanOf(r, u)
  {
    EraseInvisible(r, t);
    EraseInvisible(r, u);
  }

  // ---- the compiler as it is programmed ---------------------------------------------------

  method ResolveAddresses(r: Renderer, g: Graph<AddressSpec>, refs: seq<Name>) returns (texts: seq<string>)
    ensures texts == ResolvedAddresses(r, g, refs)
  {
    if IsAny(refs) {
      return [ANY];
    }
    texts := CollectAddressTexts(r, g, refs);
    texts := Normal(texts);
  }

  method RenderAddress(r: Renderer, found: seq<AddressSpec>) returns (texts: seq<string>)
    ensures texts == AddressTexts(r, found)
  {
    texts := [];
    for k := 0 to |found|
      invariant texts + AddressTexts(r, found[k..]) == AddressTexts(r, found)
    {
      assert found[k..][0] == found[k] && found[k..][1..] == found[k + 1..];
      texts := texts + [r.address(found[k].form)];
    }
    assert found[|found|..] == [];
  }

  /** The texts of the addresses of all references. */
  method CollectAddressTexts(r: Renderer, g: Graph<AddressSpec>, refs: seq<Name>) returns (texts: seq<string>)
    ensures texts == AddressTexts(r, AddressesOf(g, refs))
  {
    texts := [];
    for i := 0 to |refs|
      invariant texts + AddressTexts(r, AddressesOf(g, refs[i..])) == AddressTexts(r, AddressesOf(g, refs))
    {
      assert refs[i..][0] == refs[i] && refs[i..][1..] == refs[i + 1..];
      var found := Expand.Expand(g, refs[i]);
      AddressTextsAppend(r, found, AddressesOf(g, refs[i + 1..]));
      var more := RenderAddress(r, found);
      ghost var rest := AddressTexts(r, AddressesOf(g, refs[i + 1..]));
      assert texts + more + rest == texts + (more + rest);
      texts := texts + more;
    }
    assert refs[|refs|..] == [];
  }

  lemma {:induction false} ServiceTextsAppend(r: Renderer, a: seq<ServiceSpec>, b: seq<ServiceSpec>)
    ensures ServiceTexts(r, a + b) == ServiceTexts(r, a) + ServiceTexts(r, b)
  {
    if a == [] {
      assert a + b == b;
    } else {
      assert a + b == [a[0]] + (a[1..] + b);
      ServiceTextsAppend(r, a[1..], b);
    }
  }

  method RenderService(r: Renderer, found: seq<ServiceSpec>) returns (texts: seq<string>)
    ensures texts == ServiceTexts(r, found)
  {
    texts := [];
    for k := 0 to |found|
      invariant texts + ServiceTexts(r, found[k..]) == ServiceTexts(r, found)
    {
      assert found[k..][0] == found[k] && found[k..][1..] == found[k + 1..];
      texts := texts + [r.service(found[k].protocols)];
    }
    assert found[|found|..] == [];
  }

  method ResolveServices(r: Renderer, g: Graph<ServiceSpec>, refs: seq<Name>) returns (texts: seq<string>)
    ensures texts == ResolvedServices(r, g, refs)
  {
    if IsAny(refs) {
      return [ANY];
    }
    texts := CollectServiceTexts(r, g, refs);
    texts := Normal(texts);
  }

  method CollectServiceTexts(r: Renderer, g: Graph<ServiceSpec>, refs: seq<Name>) returns (texts: seq<string>)
    ensures texts == ServiceTexts(r, ServicesOf(g, refs))
  {
    texts := [];
    for i := 0 to |refs|
      invariant texts + ServiceTexts(r, ServicesOf(g, refs[i..])) == ServiceTexts(r, ServicesOf(g, refs))
    {
      assert refs[i..][0] == refs[i] && refs[i..][1..] == refs[i + 1..];
      var found := Expand.Expand(g, refs[i]);
      ServiceTextsAppend(r, found, ServicesOf(g, refs[i + 1..]));
      var more := RenderService(r, found);
      ghost var rest := ServiceTexts(r, ServicesOf(g, refs[i + 1..]));
      assert texts + more + rest == texts + (more + rest);
      texts := texts + more;
    }
    assert refs[|refs|..] == [];
  }

  method BuildPairs(from: seq<Name>, to: seq<Name>) returns (pairs: seq<(Name, Name)>)
    ensures pairs == PairsOf(from, to)
  {
    pairs := [];
    for i := 0 to |from|
      invariant pairs + PairsOf(from[i..], to) == PairsOf(from, to)
    {
      assert from[i..][0] == from[i] && from[i..][1..] == from[i + 1..];
      var more := BuildPairsWith(from[i], to);
      Assoc(pairs, more, PairsOf(from[i + 1..], to));
      pairs := pairs + more;
    }
    assert from[|from|..] == [];
  }

  method BuildPairsWith(f: Name, to: seq<Name>) returns (pairs: seq<(Name, Name)>)
    ensures pairs == PairsWith(f, to)
  {
    pairs := [];
    for k := 0 to |to|
      invariant pairs + PairsWith(f, to[k..]) == PairsWith(f, to)
    {
      assert to[k..][0] == to[k] && to[k..][1..] == to[k + 1..];
      Assoc(pairs, if f != to[k] then [(f, to[k])] else [], PairsWith(f, to[k + 1..]));
      if f != to[k] {
        pairs := pairs + [(f, to[k])];
      }
    }
    assert to[|to|..] == [];
  }

  method BuildNat(r: Renderer, t: Tree, n: Option<Nat>) returns (e: Option<EntryNat>)
    ensures e == NatOf(r, t, n)
  {
    e := if n.Some? then Some(Named(n.value)) else None;
    if n.Some? && n.value.kind == Dnat && n.value.translateIpTo != "" {
      var addresses := ResolveAddresses(r, AddressGraph(t), [n.value.translateIpTo]);
      var services := ResolveServices(r, ServiceGraph(t), [n.value.translateServiceTo]);
      e := Some(Resolved(addresses, services));
    }
  }

  /** The entries a data plane needs for one rule, for each pair of the RuleSet. */
  function MatchesOf(e: Entry, width: nat): nat {
    |e.source| * |e.destination| * |e.service| * (if width == 0 then 1 else width)
  }

  function DnatEntries(e: Entry): nat { if EntryIsDnat(e) then |e.destination| * |e.service| else 0 }

  function MatchCount(l: seq<Entry>, width: nat): nat {
    if l == [] then 0 else MatchesOf(l[0], width) + MatchCount(l[1..], width)
  }

  function DnatCount(l: seq<Entry>): nat {
    if l == [] then 0 else DnatEntries(l[0]) + DnatCount(l[1..])
  }

  lemma {:induction false} CountsSnoc(l: seq<Entry>, e: Entry, width: nat)
    ensures MatchCount(l + [e], width) == MatchCount(l, width) + MatchesOf(e, width)
    ensures DnatCount(l + [e]) == DnatCount(l) + DnatEntries(e)
  {
    if l == [] {
      assert [e][1..] == [] && l + [e] == [e];
    } else {
      assert (l + [e])[1..] == l[1..] + [e];
      CountsSnoc(l[1..], e, width);
    }
  }

  /** The entries of a RuleSet, with the counts of enabled and disabled rules
      and of what the entries expand to. */
  method BuildEntries(r: Renderer, t: Tree, rules: seq<Rule>, width: nat)
    returns (entries: seq<Entry>, policies: nat, disabled: nat, matches: nat, dnats: nat)
    ensures entries == EntriesFor(r, t, rules)
    ensures policies == |entries| && policies + disabled == |rules|
    ensures matches == MatchCount(entries, width) && dnats == DnatCount(entries)
  {
    entries, policies, disabled, matches, dnats := [], 0, 0, 0, 0;
    for i := 0 to |rules|
      invariant entries + EntriesFor(r, t, rules[i..]) == EntriesFor(r, t, rules)
      invariant policies == |entries| && policies + disabled == i
      invariant matches == MatchCount(entries, width) && dnats == DnatCount(entries)
    {
      var x := rules[i];
      assert rules[i..][0] == rules[i] && rules[i..][1..] == rules[i + 1..];
      if !IsEnabled(x.enabled) {
        disabled := disabled + 1;
      } else {
        policies := policies + 1;
        var e := BuildEntry(r, t, x);
        CountsSnoc(entries, e, width);
        matches, dnats := matches + MatchesOf(e, width), dnats + DnatEntries(e);
        entries := entries + [e];
      }
    }
    assert rules[|rules|..] == [];
  }

  method BuildEntry(r: Renderer, t: Tree, x: Rule) returns (e: Entry)
    ensures e == EntryOf(r, t, x)
  {
    var translate := BuildNat(r, t, x.translate);
    var source := ResolveAddresses(r, AddressGraph(t), x.source);
    var destination := ResolveAddresses(r, AddressGraph(t), x.destination);
    var service := ResolveServices(r, ServiceGraph(t), x.service);
    e := Entry(x.name, x.action, x.log, translate, source, destination, service);
  }

  /** All rules of all RuleSets. */
  function RuleCount(l: seq<RuleSet>): nat {
    if l == [] then 0 else |l[0].spec.rules| + RuleCount(l[1..])
  }

  datatype Counters = Counters(pairs: nat, policies: nat, disabled: nat, matches: nat, dnats: nat)

  /** One RuleSet more. */
  function Plus(n: Counters, c: Compiled, disabled: nat): Counters {
    Counters(n.pairs + |c.pairs|, n.policies + |c.rules|, n.disabled + disabled,
             n.matches + MatchCount(c.rules, |c.pairs|), n.dnats + DnatCount(c.rules))
  }

  /** What the counters say about the section, the disabled rules apart. */
  function Counted(l: seq<Compiled>): Counters {
    if l == [] then Counters(0, 0, 0, 0, 0) else Plus(Counted(l[..|l| - 1]), l[|l| - 1], 0)
  }

  lemma CountedSnoc(l: seq<Compiled>, c: Compiled)
    ensures Counted(l + [c]) == Plus(Counted(l), c, 0)
  {
    assert (l + [c])[..|l|] == l;
  }

  method BuildRuleSets(r: Renderer, t: Tree) returns (dp: seq<Compiled>, n: Counters)
    ensures dp == CompiledRuleSets(r, t, t.ruleSets)
    ensures n.(disabled := 0) == Counted(dp) && n.policies + n.disabled == RuleCount(t.ruleSets)
  {
    dp, n := [], Counters(0, 0, 0, 0, 0);
    var l := t.ruleSets;
    for i := 0 to |l|
      invariant dp + CompiledRuleSets(r, t, l[i..]) == CompiledRuleSets(r, t, l)
      invariant n.(disabled := 0) == Counted(dp) && n.policies + n.disabled + RuleCount(l[i..]) == RuleCount(l)
    {
      assert l[i..][0] == l[i] && l[i..][1..] == l[i + 1..];
      var c;
      c, n := BuildRuleSet(r, t, l[i], n);
      CountedSnoc(dp, c);
      Assoc(dp, [c], CompiledRuleSets(r, t, l[i + 1..]));
      dp := dp + [c];
    }
    assert l[|l|..] == [];
  }

  method BuildRuleSet(r: Renderer, t: Tree, rs: RuleSet, n0: Counters) returns (c: Compiled, n: Counters)
    ensures c == CompiledOf(r, t, rs)
    ensures n.(disabled := 0) == Plus(n0.(disabled := 0), c, 0)
    ensures n.policies + n.disabled == n0.policies + n0.disabled + |rs.spec.rules|
  {
    var pairs := BuildPairs(Side(t, rs.spec.from), Side(t, rs.spec.to));
    var entries, policies, disabled, matches, dnats := BuildEntries(r, t, rs.spec.rules, |pairs|);
    c := Compiled(rs.meta.name, pairs, entries);
    n := Counters(n0.pairs + |pairs|, n0.policies + policies, n0.disabled + disabled,
                  n0.matches + matches, n0.dnats + dnats);
  }

  method BuildNetwork(t: Tree) returns (n: Network)
    ensures n == Network(LinksOf(t.interfaces), Specs(t.routes))
  {
    var links: seq<Link> := [];
    for i := 0 to |t.interfaces|
      invariant links + LinksOf(t.interfaces[i..]) == LinksOf(t.interfaces)
    {
      var o := t.interfaces[i];
      assert t.interfaces[i..][0] == o && t.interfaces[i..][1..] == t.interfaces[i + 1..];
      var s := o.spec.(ipv6 := None);
      links := links + [Link(o.meta.name, s, IsEnabled(s.enabled))];
    }
    assert t.interfaces[|t.interfaces|..] == [];
    var routes := CollectSpecs(t.routes);
    n := Network(links, routes);
  }

  method CollectSpecs<S>(l: seq<Object<S>>) returns (specs: seq<S>)
    ensures specs == Specs(l)
  {
    specs := [];
    for i := 0 to |l|
      invariant specs + Specs(l[i..]) == Specs(l)
    {
      assert l[i..][0] == l[i] && l[i..][1..] == l[i + 1..];
      specs := specs + [l[i].spec];
    }
    assert l[|l|..] == [];
  }

  method CollectServed(t: Tree, refs: seq<Name>) returns (on: set<Name>)
    ensures on == Served(t, refs)
  {
    on := {};
    for i := 0 to |refs|
      invariant on + Served(t, refs[i..]) == Served(t, refs)
    {
      assert refs[i..][0] == refs[i] && refs[i..][1..] == refs[i + 1..];
      var side := CollectNames(Side(t, refs[i]));
      on := on + side;
    }
    assert refs[|refs|..] == [];
  }

  method CollectNames(l: seq<Name>) returns (names: set<Name>)
    ensures names == set n | n in l
  {
    names := {};
    for k := 0 to |l|
      invariant names == set n | n in l[..k]
    {
      assert l[..k + 1] == l[..k] + [l[k]];
      names := names + {l[k]};
    }
    assert l[..|l|] == l;
  }

  /** Where the firewall itself serves DNS and NTP. */
  method CollectServices(t: Tree) returns (dnsOn: Option<set<Name>>, ntpOn: Option<set<Name>>)
    ensures dnsOn == DnsServed(t) && ntpOn == NtpServed(t)
  {
    var s := Sys(t);
    dnsOn, ntpOn := None, None;
    if s.dns.Some? {
      var on := CollectServed(t, s.dns.value.1);
      dnsOn := Some(on);
    }
    if s.ntp.Some? && s.ntp.value.0 {
      var on := CollectServed(t, s.ntp.value.2);
      ntpOn := Some(on);
    }
  }

  method CollectDhcp(l: seq<DhcpServerSpec>) returns (on: set<Name>)
    ensures on == DhcpServed(l)
  {
    on := {};
    for i := 0 to |l|
      invariant on == DhcpServed(l[..i])
    {
      assert l[..i + 1] == l[..i] + [l[i]];
      if l[i].enabled {
        on := on + {l[i].iface};
      }
    }
    assert l[..|l|] == l;
  }

  method BuildAccess(o: Object<InterfaceSpec>, port: nat, dhcp: set<Name>, dns: Option<set<Name>>,
                     ntp: Option<set<Name>>)
    returns (acc: seq<Access>)
    ensures acc == LocalInOf(o, port, dhcp, dns, ntp)
  {
    acc := [];
    var l := o.spec.allowAccess;
    for i := 0 to |l|
      invariant acc + Accesses(l[i..], port) == Accesses(l, port)
    {
      assert l[i..][0] == l[i] && l[i..][1..] == l[i + 1..];
      var a := if l[i] == "https" then Https(port) else Service(l[i]);
      Assoc(acc, [a], Accesses(l[i + 1..], port));
      acc := acc + [a];
    }
    assert l[|l|..] == [];
    if o.meta.name in dhcp && "dhcp" !in l {
      acc := acc + [ImplicitDhcp];
    }
    if On(dns, o.meta.name) && "dns" !in l {
      acc := acc + [ImplicitDns];
    }
    if On(ntp, o.meta.name) && "ntp" !in l {
      acc := acc + [ImplicitNtp];
    }
  }

  /** The maps by Interface: what each lets in, and its addresses. */
  method BuildMaps(l: seq<Object<InterfaceSpec>>, port: nat, dhcp: set<Name>, dns: Option<set<Name>>,
                   ntp: Option<set<Name>>)
    returns (localIn: map<Name, seq<Access>>, addresses: map<Name, seq<Prefix>>)
    ensures localIn == LocalIns(l, port, dhcp, dns, ntp) && addresses == InterfaceAddresses(l)
  {
    localIn, addresses := map[], map[];
    for i := 0 to |l|
      invariant localIn == LocalIns(l[..i], port, dhcp, dns, ntp) && addresses == InterfaceAddresses(l[..i])
    {
      assert l[..i + 1][..i] == l[..i];
      var acc := BuildAccess(l[i], port, dhcp, dns, ntp);
      localIn := localIn[l[i].meta.name := acc];
      addresses := addresses[l[i].meta.name := StaticAddresses(l[i].spec)];
    }
    assert l[..|l|] == l;
  }

  method BuildIntraZones(l: seq<Object<ZoneSpec>>) returns (m: map<Name, IntraZone>)
    ensures m == IntraZones(l)
  {
    m := map[];
    for i := 0 to |l|
      invariant m == IntraZones(l[..i])
    {
      assert l[..i + 1][..i] == l[..i];
      var v := l[i].spec.intraZoneTraffic;
      if v == Unset {
        v := Deny;
      }
      m := m[l[i].meta.name := v];
    }
    assert l[..|l|] == l;
  }

  method CollectFeeds(s: SystemSpec) returns (feeds: seq<string>)
    ensures feeds == Feeds(s)
  {
    feeds := [];
    if s.feedsOn {
      for i := 0 to |s.feeds|
        invariant feeds + EnabledFeeds(s.feeds[i..]) == EnabledFeeds(s.feeds)
      {
        assert s.feeds[i..][0] == s.feeds[i] && s.feeds[i..][1..] == s.feeds[i + 1..];
        Assoc(feeds, if s.feeds[i].1 then [s.feeds[i].0] else [], EnabledFeeds(s.feeds[i + 1..]));
        if s.feeds[i].1 {
          feeds := feeds + [s.feeds[i].0];
        }
      }
      assert s.feeds[|s.feeds|..] == [];
    }
  }

  method CollectTrusted(r: Renderer, t: Tree) returns (trusted: seq<string>)
    ensures trusted == Trusted(r, t)
  {
    trusted := [];
    if Sys(t).trustedHosts.Some? {
      trusted := CollectAddressTexts(r, AddressGraph(t), Sys(t).trustedHosts.value);
    }
  }

  /** The compiler. No rule is lost: each is counted as a policy or as disabled,
      and the other counters say what the section expands to. */
  method Compile(r: Renderer, t: Tree) returns (p: Plan, n: Counters)
    ensures p == PlanOf(r, t)
    ensures n.(disabled := 0) == Counted(p.dataplane.ruleSets) && n.policies + n.disabled == RuleCount(t.ruleSets)
  {
    var s := Sys(t);
    var network := BuildNetwork(t);
    var dhcp := CollectSpecs(t.dhcp);
    var dhcpOn := CollectDhcp(dhcp);
    var dnsOn, ntpOn := CollectServices(t);
    var localIn, addresses := BuildMaps(t.interfaces, HttpsPort(s), dhcpOn, dnsOn, ntpOn);
    var trusted := CollectTrusted(r, t);
    var dp, counters := BuildRuleSets(r, t);
    var intraZone := BuildIntraZones(t.zones);
    var feeds := CollectFeeds(s);
    p := Plan(network,
              Dataplane(dp, localIn, intraZone, trusted, HttpsPort(s), s.session, s.logging, feeds, addresses),
              dhcp, Dns(s.dns, s.ntp, dnsOn, ntpOn, addresses));
    n := counters;
  }
}
