/** What equal sections say about two configurations, and what they do not: the
    Reconciler touches no driver when the sections of a commit are those that
    are applied. */
module EqualPlans {
  import opened Prelude
  import opened Ipv4
  import opened Model
  import opened Expand
  import opened Matching
  import opened Routing
  import opened Classify
  import C = Compile

  lemma {:induction false} SameLinks(a: seq<Object<InterfaceSpec>>, b: seq<Object<InterfaceSpec>>, dst: Ip)
    requires C.LinksOf(a) == C.LinksOf(b)
    ensures Connected(a, dst) == Connected(b, dst)
  {
    assert |C.LinksOf(a)| == |a| && |C.LinksOf(b)| == |b| by {
      LinkCount(a);
      LinkCount(b);
    }
    if a != [] {
      assert C.LinksOf(a)[0] == C.LinkOf(a[0]) && C.LinksOf(b)[0] == C.LinkOf(b[0]);
      assert C.LinksOf(a)[1..] == C.LinksOf(a[1..]) && C.LinksOf(b)[1..] == C.LinksOf(b[1..]);
      SameLinks(a[1..], b[1..], dst);
      SameLink(a[0], b[0]);
    }
  }

  lemma {:induction false} LinkCount(l: seq<Object<InterfaceSpec>>)
    ensures |C.LinksOf(l)| == |l|
  {
    if l != [] { LinkCount(l[1..]); }
  }

  lemma SameLink(o: Object<InterfaceSpec>, p: Object<InterfaceSpec>)
    requires C.LinkOf(o) == C.LinkOf(p)
    ensures o.meta.name == p.meta.name && StaticAddresses(o.spec) == StaticAddresses(p.spec)
    ensures IsEnabled(o.spec.enabled) == IsEnabled(p.spec.enabled)
  {
  }

  lemma {:induction false} SameSpecs(a: seq<Object<StaticRouteSpec>>, b: seq<Object<StaticRouteSpec>>, dst: Ip)
    requires C.Specs(a) == C.Specs(b)
    ensures Routing.Static(a, dst) == Routing.Static(b, dst)
  {
    assert |C.Specs(a)| == |a| && |C.Specs(b)| == |b| by {
      SpecCount(a);
      SpecCount(b);
    }
    if a != [] {
      assert C.Specs(a)[0] == a[0].spec && C.Specs(b)[0] == b[0].spec;
      assert C.Specs(a)[1..] == C.Specs(a[1..]) && C.Specs(b)[1..] == C.Specs(b[1..]);
      SameSpecs(a[1..], b[1..], dst);
    }
  }

  lemma {:induction false} SpecCount(l: seq<Object<StaticRouteSpec>>)
    ensures |C.Specs(l)| == |l|
  {
    if l != [] { SpecCount(l[1..]); }
  }

  /** The network section decides every route. */
  lemma EqualRoutes(r: C.Renderer, t: Tree, u: Tree, dst: Ip)
    requires C.PlanOf(r, t) == C.PlanOf(r, u)
    ensures RouteOf(t, dst) == RouteOf(u, dst)
  {
    assert C.PlanOf(r, t).network == C.PlanOf(r, u).network;
    SameLinks(t.interfaces, u.interfaces, dst);
    SameSpecs(t.routes, u.routes, dst);
  }

  lemma {:induction false} SameInterfaceIp(a: seq<Object<InterfaceSpec>>, b: seq<Object<InterfaceSpec>>, n: Name)
    requires C.LinksOf(a) == C.LinksOf(b)
    ensures Find(a, n).Some? <==> Find(b, n).Some?
    ensures Find(a, n).Some? ==> StaticAddresses(Find(a, n).value) == StaticAddresses(Find(b, n).value)
  {
    LinkCount(a);
    LinkCount(b);
    if a != [] {
      assert C.LinksOf(a)[0] == C.LinkOf(a[0]) && C.LinksOf(b)[0] == C.LinkOf(b[0]);
      assert C.LinksOf(a)[1..] == C.LinksOf(a[1..]) && C.LinksOf(b)[1..] == C.LinksOf(b[1..]);
      SameInterfaceIp(a[1..], b[1..], n);
      SameLink(a[0], b[0]);
    }
  }

  /** The flow leaves by another Interface. */
  predicate Exits(t: Tree, f: Flow) {
    var outIf := RouteOf(t, V4(f.dst));
    outIf != "" && outIf != f.inIf
  }

  /** The flow leaves by another Interface, and no RuleSet governs its way. */
  predicate Ungoverned(r: C.Renderer, t: Tree, f: Flow) {
    Exits(t, f) && C.FirstForPair(C.PlanOf(r, t).dataplane.ruleSets, f.inIf, RouteOf(t, V4(f.dst))).None?
  }

  /** The pool an entry names for the source address, which stays a name in the
      section. */
  function PoolOf(e: C.Entry): Option<Name> {
    match e.translate
    case Some(Named(n)) =>
      if e.action == Accept && n.kind == Snat && n.translateIpTo != "" then Some(n.translateIpTo) else None
    case _ => None
  }

  /** The pool of the entry that decides a flow in the second phase. */
  ghost function Pool(r: C.Renderer, t: Tree, f: Flow): Option<Name> {
    if !Exits(t, f) then None
    else match C.FirstForPair(C.PlanOf(r, t).dataplane.ruleSets, f.inIf, RouteOf(t, V4(f.dst)))
      case None => None
      case Some(c) =>
        match C.FirstEntry(r, c.rules, f, true)
        case None => None
        case Some(e) => PoolOf(e)
  }

  /** What the sections leave open about the second phase: traffic inside a Zone
      where no RuleSet governs, and the address of a pool. */
  ghost predicate AgreeOnRouted(r: C.Renderer, t: Tree, u: Tree, f: Flow) {
    && (Ungoverned(r, t, f) ==>
        IntraZoneAllowed(t, f.inIf, RouteOf(t, V4(f.dst))) == IntraZoneAllowed(u, f.inIf, RouteOf(t, V4(f.dst))))
    && (Pool(r, t, f).Some? ==> FirstIp(t, Pool(r, t, f).value) == FirstIp(u, Pool(r, t, f).value))
  }

  /** Rules with the same entry give the same verdict, unless they take the
      source address from a pool. */
  lemma SameEntrySameSource(r: C.Renderer, t: Tree, u: Tree, x: Rule, y: Rule, outIf: Name)
    requires C.LinksOf(t.interfaces) == C.LinksOf(u.interfaces)
    requires !IsDnat(x) && !IsDnat(y) && C.EntryOf(r, t, x) == C.EntryOf(r, u, y)
    ensures x.name == y.name && x.action == y.action && x.translate == y.translate
    ensures SourceAfter(t, x, outIf) == SourceAfter(u, y, outIf) <==>
      (PoolOf(C.EntryOf(r, t, x)).Some? ==>
       FirstIp(t, PoolOf(C.EntryOf(r, t, x)).value) == FirstIp(u, PoolOf(C.EntryOf(r, t, x)).value))
  {
    SameInterfaceIp(t.interfaces, u.interfaces, outIf);
    assert C.NatOf(r, t, x.translate) == C.NatOf(r, u, y.translate);
  }

  /** Two configurations with the same sections give a flow the same verdict in
      the second phase if and only if they agree on what the sections leave
      open. */
  lemma EqualPlansRoute(r: C.Renderer, t: Tree, u: Tree, f: Flow)
    requires C.Faithful(r) && C.PlanOf(r, t) == C.PlanOf(r, u)
    ensures RoutedVerdict(t, f) == RoutedVerdict(u, f) <==> AgreeOnRouted(r, t, u, f)
  {
    EqualRoutes(r, t, u, V4(f.dst));
    RoutedCases(t, f);
    RoutedCases(u, f);
    if Exits(t, f) {
      SameGovernors(r, t, u, f, RouteOf(t, V4(f.dst)));
    }
  }

  /** The second phase, by the RuleSet that governs the way. */
  lemma RoutedCases(t: Tree, f: Flow)
    ensures var outIf := RouteOf(t, V4(f.dst));
      RoutedVerdict(t, f) ==
        if !Exits(t, f) then DropFor(NoRuleSet, outIf, "")
        else match Governing(t, t.ruleSets, f.inIf, outIf)
          case Some(g) => Routed(t, f, g, outIf)
          case None => OutsideRuleSets(outIf, IntraZoneAllowed(t, f.inIf, outIf))
  {
  }

  function OutsideRuleSets(outIf: Name, allowed: bool): Verdict {
    if allowed then Verdict(Accept, IntraZoneTraffic, outIf, "", "", None, None, None)
    else DropFor(NoRuleSet, outIf, "")
  }

  function CompiledOfSome(r: C.Renderer, t: Tree, g: Option<RuleSet>): Option<C.Compiled> {
    if g.Some? then Some(C.CompiledOf(r, t, g.value)) else None
  }

  /** Both ways are governed or neither is; if they are, the verdicts differ by
      the pool only. */
  ghost predicate CompiledAlike(r: C.Renderer, t: Tree, u: Tree, f: Flow, outIf: Name, g: Option<RuleSet>,
                                h: Option<RuleSet>)
  {
    && (g.Some? <==> h.Some?)
    && (g.Some? ==> (Routed(t, f, g.value, outIf) == Routed(u, f, h.value, outIf) <==> SamePool(r, t, u, g.value, f)))
  }

  /** The RuleSets that govern a way are compiled alike. */
  lemma SameGovernors(r: C.Renderer, t: Tree, u: Tree, f: Flow, outIf: Name)
    requires C.Faithful(r) && C.PlanOf(r, t) == C.PlanOf(r, u) && outIf != "" && outIf != f.inIf
    ensures C.FirstForPair(C.PlanOf(r, t).dataplane.ruleSets, f.inIf, outIf) ==
      CompiledOfSome(r, t, Governing(t, t.ruleSets, f.inIf, outIf))
    ensures CompiledAlike(r, t, u, f, outIf, Governing(t, t.ruleSets, f.inIf, outIf),
                          Governing(u, u.ruleSets, f.inIf, outIf))
  {
    C.PairKeepsMeaning(r, t, t.ruleSets, f.inIf, outIf);
    C.PairKeepsMeaning(r, u, u.ruleSets, f.inIf, outIf);
    SameRuleSets(r, t, u);
    var g, h := Governing(t, t.ruleSets, f.inIf, outIf), Governing(u, u.ruleSets, f.inIf, outIf);
    if g.Some? {
      SameGoverned(r, t, u, f, g.value, h.value, outIf);
    }
  }

  lemma SameRuleSets(r: C.Renderer, t: Tree, u: Tree)
    requires C.PlanOf(r, t) == C.PlanOf(r, u)
    ensures C.CompiledRuleSets(r, t, t.ruleSets) == C.CompiledRuleSets(r, u, u.ruleSets)
    ensures C.LinksOf(t.interfaces) == C.LinksOf(u.interfaces)
  {
    assert C.PlanOf(r, t).dataplane == C.PlanOf(r, u).dataplane;
    assert C.PlanOf(r, t).network == C.PlanOf(r, u).network;
  }

  /** The outcome in RuleSets that are compiled alike. */
  lemma SameGoverned(r: C.Renderer, t: Tree, u: Tree, f: Flow, g: RuleSet, h: RuleSet, outIf: Name)
    requires C.Faithful(r) && C.LinksOf(t.interfaces) == C.LinksOf(u.interfaces) && outIf != "" && outIf != f.inIf
    requires C.CompiledOf(r, t, g) == C.CompiledOf(r, u, h)
    ensures Routed(t, f, g, outIf) == Routed(u, f, h, outIf) <==> SamePool(r, t, u, g, f)
  {
    C.FirstEntryKeepsMeaning(r, t, g.spec.rules, f);
    C.FirstEntryKeepsMeaning(r, u, h.spec.rules, f);
    FirstPolicySound(t, g.spec.rules, f);
    FirstPolicySound(u, h.spec.rules, f);
    var x, y := FirstPolicy(t, g.spec.rules, f), FirstPolicy(u, h.spec.rules, f);
    if x.Some? {
      SameEntrySameSource(r, t, u, x.value, y.value, outIf);
    }
  }

  /** The verdict of the second phase in the RuleSet that governs the way. */
  function Routed(t: Tree, f: Flow, g: RuleSet, outIf: Name): Verdict {
    var first := FirstPolicy(t, g.spec.rules, f);
    RoutedOutcome(f.inIf, outIf, Some(g), false, first,
                  if first.Some? then SourceAfter(t, first.value, outIf) else None)
  }

  ghost predicate SamePool(r: C.Renderer, t: Tree, u: Tree, g: RuleSet, f: Flow) {
    match C.FirstEntry(r, C.CompiledOf(r, t, g).rules, f, true)
    case None => true
    case Some(e) => PoolOf(e).Some? ==> FirstIp(t, PoolOf(e).value) == FirstIp(u, PoolOf(e).value)
  }
}
