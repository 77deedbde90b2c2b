/** The verdict a configuration gives a flow, in terms of the configuration
    alone, and that the classifier gives it. */
module Verdicts {
  import opened Prelude
  import opened Ipv4
  import opened Model
  import opened Routing
  import opened Classify
  import opened Clean
  import opened Guarantees
  import opened Readings
  import E = EqualPlans
  import F = Facts

  // ---- the first rule that takes a flow ---------------------------------------------------------

  /** Rule i takes the flow and no rule before it does; rules that translate
      the destination may not count. */
  ghost predicate FirstTaker(t: Tree, rules: seq<Rule>, f: Flow, skip: bool, i: int) {
    && 0 <= i < |rules| && TakerCounts(t, rules[i], f, skip)
    && forall j :: 0 <= j < i ==> !TakerCounts(t, rules[j], f, skip)
  }

  ghost predicate TakerCounts(t: Tree, x: Rule, f: Flow, skip: bool) {
    !(skip && F.TranslatesDst(x)) && RuleTakes(t, x, f)
  }

  // ---- translated flows -------------------------------------------------------------------------

  /** A rule translates a flow that enters on the incoming side, if its target
      has an address. */
  ghost predicate Translating(t: Tree, f: Flow, rs: RuleSet, x: Rule) {
    && rs in t.ruleSets && F.OnSide(t, rs.spec.from, f.inIf) && x in rs.spec.rules
    && F.TranslatesDst(x) && RuleTakes(t, x, f)
    && exists ip :: F.StartsUnder(t, x.translate.value.translateIpTo, ip)
  }

  /** The service has a single port. */
  ghost predicate PortOfService(t: Tree, n: Name, port: U32) {
    exists o :: o in t.services && o.meta.name == n && |o.spec.protocols| == 1 &&
      o.spec.protocols[0].port.Some? && port == o.spec.protocols[0].port.value.lo
  }

  ghost predicate PortAfter(t: Tree, service: Name, before: U32, after: U32) {
    if service != "" && exists p :: PortOfService(t, service, p) then PortOfService(t, service, after)
    else after == before
  }

  /** The translated flow is sent to its target. It must leave the way its
      RuleSet governs, and its rule must be the first to take it there. */
  ghost predicate RightTranslated(t: Tree, f: Flow, rs: RuleSet, x: Rule, v: Verdict) {
    exists ip, port :: TargetFits(t, f, x, ip, port) && F.LeavesBy(t, ip, v.outIf) && Sent(t, f, rs, x, (ip, port), v)
  }

  ghost predicate Sent(t: Tree, f: Flow, rs: RuleSet, x: Rule, to: (Ip, U32), v: Verdict) {
    var name := rs.meta.name;
    if GovernedBy(t, f.inIf, v.outIf, name) then TakenFirst(t, f, rs, x, to, v)
    else v == Verdict(Drop, DnatRouteMismatch, v.outIf, name, "", None, Some(to), None)
  }

  ghost predicate TakenFirst(t: Tree, f: Flow, rs: RuleSet, x: Rule, to: (Ip, U32), v: Verdict) {
    exists i ::
      FirstTaker(t, rs.spec.rules, f, false, i) && v == AfterTranslation(v.outIf, rs.meta.name, x, rs.spec.rules[i], to)
  }

  ghost predicate TargetFits(t: Tree, f: Flow, x: Rule, ip: Ip, port: U32)
  {
    && F.TranslatesDst(x) && F.StartsUnder(t, x.translate.value.translateIpTo, ip)
    && PortAfter(t, x.translate.value.translateServiceTo, f.dport, port)
  }

  ghost predicate GovernedBy(t: Tree, inIf: Name, outIf: Name, name: Name) {
    exists g :: F.IsGovernor(t, g, inIf, outIf) && g.meta.name == name
  }

  function AfterTranslation(outIf: Name, ruleSet: Name, x: Rule, e: Rule, to: (Ip, U32)): Verdict {
    if e.name == x.name then Verdict(Accept, ByPolicy, outIf, ruleSet, e.name, x.translate, Some(to), None)
    else if e.action == Drop then Verdict(Drop, ByPolicy, outIf, ruleSet, e.name, None, None, None)
    else Verdict(Drop, ShadowedDnat, outIf, ruleSet, e.name, None, None, None)
  }

  // ---- routed flows -----------------------------------------------------------------------------

  /** The source address an accepted flow leaves with: one of the pool, or that
      of the Interface. */
  ghost predicate SourceFits(t: Tree, x: Rule, outIf: Name, src: Option<Ip>) {
    if x.action == Accept && F.TranslatesSrc(x) then
      var pool := x.translate.value.translateIpTo;
      if pool != "" then
        if src.Some? then F.StartsUnder(t, pool, src.value) else forall ip :: !F.StartsUnder(t, pool, ip)
      else
        if src.Some? then MainAddress(t, outIf, src.value) else forall ip :: !MainAddress(t, outIf, ip)
    else src == None
  }

  /** A flow that leaves by another Interface gets the action of the first rule
      that takes it in the RuleSet of its way, and is dropped if there is none.
      Without a RuleSet it is accepted only inside a Zone that allows it. */
  ghost predicate RightRouted(t: Tree, f: Flow, v: Verdict) {
    F.LeavesBy(t, V4(f.dst), v.outIf) &&
    if v.outIf == "" || v.outIf == f.inIf then v == Verdict(Drop, NoRuleSet, v.outIf, "", "", None, None, None)
    else if exists g :: F.IsGovernor(t, g, f.inIf, v.outIf) then RightInRuleSet(t, f, v)
    else RightOutside(t, f, v)
  }

  ghost predicate RightInRuleSet(t: Tree, f: Flow, v: Verdict) {
    exists g :: F.IsGovernor(t, g, f.inIf, v.outIf) && RightGoverned(t, f, g, v)
  }

  ghost predicate RightOutside(t: Tree, f: Flow, v: Verdict) {
    if F.ZoneAllows(t, f.inIf, v.outIf) then v == Verdict(Accept, IntraZoneTraffic, v.outIf, "", "", None, None, None)
    else v == Verdict(Drop, NoRuleSet, v.outIf, "", "", None, None, None)
  }

  ghost predicate RightGoverned(t: Tree, f: Flow, g: RuleSet, v: Verdict) {
    if exists i :: FirstTaker(t, g.spec.rules, f, true, i) then
      exists i :: FirstTaker(t, g.spec.rules, f, true, i) && RightPolicy(t, g.meta.name, g.spec.rules[i], v)
    else v == Verdict(Drop, DefaultDeny, v.outIf, g.meta.name, "", None, None, None)
  }

  ghost predicate RightPolicy(t: Tree, ruleSet: Name, x: Rule, v: Verdict) {
    && (v.action, v.reason, v.ruleSet, v.policy, v.xdst) == (x.action, ByPolicy, ruleSet, x.name, None)
    && v.translate == (if x.action == Accept && F.TranslatesSrc(x) then x.translate else None)
    && SourceFits(t, x, v.outIf, v.xsrc)
  }

  /** The right verdict. */
  ghost predicate Right(t: Tree, f: Flow, v: Verdict) {
    if exists rs, x :: Translating(t, f, rs, x) then
      exists rs, x :: Translating(t, f, rs, x) && RightTranslated(t, f, rs, x, v)
    else RightRouted(t, f, v)
  }

  // ---- the classifier is right ------------------------------------------------------------------

  /** A search for the first taker has this outcome. */
  ghost predicate Finds(t: Tree, rules: seq<Rule>, f: Flow, skip: bool, e: Option<Rule>) {
    if e.Some? then exists i :: FirstTaker(t, rules, f, skip, i) && e.value == rules[i]
    else forall i :: 0 <= i < |rules| ==> !TakerCounts(t, rules[i], f, skip)
  }

  lemma {:induction false} FirstMatchRead(t: Tree, rules: seq<Rule>, f: Flow, skip: bool)
    requires UniqueNames(t)
    ensures Finds(t, rules, f, skip, if skip then FirstPolicy(t, rules, f) else FirstMatch(t, rules, f))
  {
    if rules != [] {
      MatchesRead(t, rules[0], f);
      if TakerCounts(t, rules[0], f, skip) {
        assert FirstTaker(t, rules, f, skip, 0);
      } else {
        FirstMatchRead(t, rules[1..], f, skip);
        FindsLater(t, rules, f, skip, if skip then FirstPolicy(t, rules[1..], f) else FirstMatch(t, rules[1..], f));
      }
    }
  }

  lemma {:induction false} FindsLater(t: Tree, rules: seq<Rule>, f: Flow, skip: bool, e: Option<Rule>)
    requires rules != [] && !TakerCounts(t, rules[0], f, skip) && Finds(t, rules[1..], f, skip, e)
    ensures Finds(t, rules, f, skip, e)
  {
    forall j | 0 <= j < |rules| - 1 ensures rules[1..][j] == rules[j + 1] {
    }
    if e.Some? {
      var i :| FirstTaker(t, rules[1..], f, skip, i) && e.value == rules[1..][i];
      forall j | 0 <= j < i + 1 ensures !TakerCounts(t, rules[j], f, skip) {
        assert j > 0 ==> !TakerCounts(t, rules[1..][j - 1], f, skip);
      }
      assert FirstTaker(t, rules, f, skip, i + 1);
    } else {
      forall i | 0 <= i < |rules| ensures !TakerCounts(t, rules[i], f, skip) {
        assert i > 0 ==> !TakerCounts(t, rules[1..][i - 1], f, skip);
      }
    }
  }

  lemma {:induction false} TranslatingRead(t: Tree, f: Flow, rs: RuleSet, x: Rule)
    requires UniqueNames(t)
    ensures Translating(t, f, rs, x) <==> rs in t.ruleSets && DnatHit(t, rs, x, f)
  {
    SideRead(t, rs.spec.from, f.inIf);
    MatchesRead(t, x, f);
    if x.translate.Some? { FirstIpRead(t, x.translate.value.translateIpTo); }
  }

  lemma {:induction false} PortRead(t: Tree, n: Nat, dport: U32)
    requires UniqueNames(t)
    ensures PortAfter(t, n.translateServiceTo, dport, TranslatedPort(t, n, dport))
  {
    CleanNames(t);
    FindSound(t.services, n.translateServiceTo);
  }

  lemma {:induction false} SourceRead(t: Tree, x: Rule, outIf: Name)
    requires UniqueNames(t)
    ensures SourceFits(t, x, outIf, SourceAfter(t, x, outIf))
  {
    InterfaceIpRead(t, outIf);
    if x.translate.Some? { FirstIpRead(t, x.translate.value.translateIpTo); }
  }

  lemma {:induction false} TranslatedIsRight(t: Tree, f: Flow, rs: RuleSet, x: Rule)
    requires CleanTree(t) && rs in t.ruleSets && DnatHit(t, rs, x, f)
    ensures RightTranslated(t, f, rs, x, DnatVerdict(t, rs, x, f))
  {
    var n := x.translate.value;
    var (ip, port) := (FirstIp(t, n.translateIpTo).value, TranslatedPort(t, n, f.dport));
    var outIf := RouteOf(t, ip);
    FirstIpRead(t, n.translateIpTo);
    PortRead(t, n, f.dport);
    RouteRead(t, ip);
    SentRead(t, f, rs, x, outIf, (ip, port));
    assert TargetFits(t, f, x, ip, port);
  }

  lemma {:induction false} SentRead(t: Tree, f: Flow, rs: RuleSet, x: Rule, outIf: Name, to: (Ip, U32))
    requires CleanTree(t) && rs in t.ruleSets && DnatHit(t, rs, x, f)
    ensures var v := DnatOutcome(rs, x, outIf, to, Governing(t, t.ruleSets, f.inIf, outIf), FirstMatch(t, rs.spec.rules, f));
      v.outIf == outIf && Sent(t, f, rs, x, to, v)
  {
    GovernedRead(t, f.inIf, outIf, rs);
    FirstMatchRead(t, rs.spec.rules, f, false);
    var k :| 0 <= k < |rs.spec.rules| && rs.spec.rules[k] == x;
    FirstMatchIndex(t, rs.spec.rules, f, k);
    TakenRead(t, f, rs, x, outIf, to, Governing(t, t.ruleSets, f.inIf, outIf), FirstMatch(t, rs.spec.rules, f));
  }

  lemma {:induction false} TakenRead(t: Tree, f: Flow, rs: RuleSet, x: Rule, outIf: Name, to: (Ip, U32), gov: Option<RuleSet>,
                  first: Option<Rule>)
    requires GovernedBy(t, f.inIf, outIf, rs.meta.name) <==> gov.Some? && gov.value.meta.name == rs.meta.name
    requires first.Some? && Finds(t, rs.spec.rules, f, false, first)
    ensures var v := DnatOutcome(rs, x, outIf, to, gov, first); v.outIf == outIf && Sent(t, f, rs, x, to, v)
  {
    var i :| FirstTaker(t, rs.spec.rules, f, false, i) && first.value == rs.spec.rules[i];
  }

  lemma {:induction false} GovernedRead(t: Tree, inIf: Name, outIf: Name, rs: RuleSet)
    requires CleanTree(t) && rs in t.ruleSets
    ensures var g := Governing(t, t.ruleSets, inIf, outIf);
      GovernedBy(t, inIf, outIf, rs.meta.name) <==> g.Some? && g.value.meta.name == rs.meta.name
  {
    GovernorRead(t, inIf, outIf);
    if g :| F.IsGovernor(t, g, inIf, outIf) && g.meta.name == rs.meta.name {
      SameGovernor(t, inIf, outIf, g);
    }
  }

  lemma {:induction false} SameGovernor(t: Tree, inIf: Name, outIf: Name, g: RuleSet)
    requires CleanTree(t) && F.IsGovernor(t, g, inIf, outIf)
    ensures Governing(t, t.ruleSets, inIf, outIf) == Some(g)
  {
    GovernorRead(t, inIf, outIf);
    GoverningSound(t, t.ruleSets, inIf, outIf);
    var h := Governing(t, t.ruleSets, inIf, outIf).value;
    SideRead(t, g.spec.from, inIf);
    SideRead(t, g.spec.to, outIf);
    GoverningUnique(t, inIf, outIf, g, h);
  }

  lemma {:induction false} RoutedIsRight(t: Tree, f: Flow)
    requires CleanTree(t)
    ensures RightRouted(t, f, RoutedVerdict(t, f))
  {
    var outIf := RouteOf(t, V4(f.dst));
    RouteRead(t, V4(f.dst));
    GovernorRead(t, f.inIf, outIf);
    E.RoutedCases(t, f);
    if E.Exits(t, f) {
      match Governing(t, t.ruleSets, f.inIf, outIf)
      case Some(g) => GovernedIsRight(t, f, g, outIf);
      case None => ZoneAllowsRead(t, f.inIf, outIf);
    }
  }

  lemma {:induction false} GovernedIsRight(t: Tree, f: Flow, g: RuleSet, outIf: Name)
    requires CleanTree(t) && outIf != "" && outIf != f.inIf
    ensures RightGoverned(t, f, g, E.Routed(t, f, g, outIf)) && E.Routed(t, f, g, outIf).outIf == outIf
  {
    FirstMatchRead(t, g.spec.rules, f, true);
    var first := FirstPolicy(t, g.spec.rules, f);
    if first.Some? {
      SourceRead(t, first.value, outIf);
      PolicyIsRight(t, f, g, outIf, first.value, SourceAfter(t, first.value, outIf));
    }
  }

  lemma {:induction false} PolicyIsRight(t: Tree, f: Flow, g: RuleSet, outIf: Name, x: Rule, src: Option<Ip>)
    requires outIf != "" && outIf != f.inIf && SourceFits(t, x, outIf, src)
    requires Finds(t, g.spec.rules, f, true, Some(x))
    ensures RightGoverned(t, f, g, RoutedOutcome(f.inIf, outIf, Some(g), false, Some(x), src))
  {
    var i :| FirstTaker(t, g.spec.rules, f, true, i) && x == g.spec.rules[i];
    assert RightPolicy(t, g.meta.name, g.spec.rules[i], RoutedOutcome(f.inIf, outIf, Some(g), false, Some(x), src));
  }

  /** On a clean configuration the classifier gives every flow the right
      verdict. */
  lemma {:induction false} DecideIsRight(t: Tree, f: Flow)
    requires CleanTree(t)
    ensures Right(t, f, Decide(t, f))
  {
    FirstDnatTranslates(t, t.ruleSets, f);
    forall rs, x ensures Translating(t, f, rs, x) <==> rs in t.ruleSets && DnatHit(t, rs, x, f) {
      TranslatingRead(t, f, rs, x);
    }
    match FirstDnat(t, t.ruleSets, f)
    case Some(p) => TranslatedIsRight(t, f, p.0, p.1);
    case None => RoutedIsRight(t, f);
  }

  // ---- there is one right verdict ---------------------------------------------------------------

  /** Targets and pools name Addresses, not groups of them. */
  ghost predicate DirectTargets(t: Tree) {
    forall rs, x :: rs in t.ruleSets && x in rs.spec.rules && x.translate.Some? ==>
      !F.Named(t.addressGroups, x.translate.value.translateIpTo)
  }

  lemma {:induction false} OneStart(t: Tree, ref: Name, a: Ip, b: Ip)
    requires UniqueNames(t) && !F.Named(t.addressGroups, ref) && F.StartsUnder(t, ref, a) && F.StartsUnder(t, ref, b)
    ensures a == b
  {
    var o :| F.Means(t.addresses, t.addressGroups, ref, o) && F.FormStarts(o.spec.form, a);
    var q :| F.Means(t.addresses, t.addressGroups, ref, q) && F.FormStarts(q.spec.form, b);
    MeansItself(t.addresses, t.addressGroups, ref, o);
    MeansItself(t.addresses, t.addressGroups, ref, q);
    UniqueObjects(t);
    OneForm(o.spec.form, a, b);
  }

  lemma {:induction false} OneForm(form: AddressForm, a: Ip, b: Ip)
    requires F.FormStarts(form, a) && F.FormStarts(form, b)
    ensures a == b
  {
  }

  lemma {:induction false} MeansItself<S>(l: seq<Object<S>>, groups: seq<Object<GroupSpec>>, ref: Name, o: Object<S>)
    requires !F.Named(groups, ref) && F.Means(l, groups, ref, o)
    ensures o.meta.name == ref
  {
    var p :| F.LeadsTo(groups, p, ref, o.meta.name);
    assert |p| > 1 ==> F.HasMember(groups, p[0], p[1]);
  }

  lemma {:induction false} OneWay(t: Tree, dst: Ip, m: Name, n: Name)
    requires CleanTree(t) && F.LeavesBy(t, dst, m) && F.LeavesBy(t, dst, n)
    ensures m == n
  {
    if dst.V4? && exists w :: F.IsWay(t, dst.n, w) {
      var v :| F.Unbeaten(t, dst.n, v) && v.iface == m;
      var w :| F.Unbeaten(t, dst.n, w) && w.iface == n;
      var (c, d) := (CandidateOf(v), CandidateOf(w));
      WaysPositive(t, dst.n, v);
      WaysPositive(t, dst.n, w);
      CandidatesRead(t, dst.n, c);
      CandidatesRead(t, dst.n, d);
      BetterRead(c, d);
      BetterRead(d, c);
      EqualRankSame(t, dst, c, d);
    }
  }

  lemma {:induction false} OnePort(t: Tree, service: Name, before: U32, a: U32, b: U32)
    requires UniqueNames(t) && PortAfter(t, service, before, a) && PortAfter(t, service, before, b)
    ensures a == b
  {
    CleanNames(t);
  }

  lemma {:induction false} OneMain(t: Tree, n: Name, a: Ip, b: Ip)
    requires UniqueNames(t) && MainAddress(t, n, a) && MainAddress(t, n, b)
    ensures a == b
  {
    CleanNames(t);
  }

  lemma {:induction false} OneTaker(t: Tree, rules: seq<Rule>, f: Flow, skip: bool, i: int, j: int)
    requires FirstTaker(t, rules, f, skip, i) && FirstTaker(t, rules, f, skip, j)
    ensures i == j
  {
  }

  lemma {:induction false} OneTranslating(t: Tree, f: Flow, rs: RuleSet, x: Rule, rs': RuleSet, x': Rule)
    requires CleanTree(t) && Translating(t, f, rs, x) && Translating(t, f, rs', x')
    ensures rs == rs' && x == x'
  {
    TranslatingRead(t, f, rs, x);
    TranslatingRead(t, f, rs', x');
    TranslatesTakesPart(t, x, f);
    TranslatesTakesPart(t, x', f);
    DnatUnique(t, f, rs, x, rs', x');
  }

  lemma {:induction false} OneTranslated(t: Tree, f: Flow, rs: RuleSet, x: Rule, v: Verdict, w: Verdict)
    requires CleanTree(t) && DirectTargets(t) && Translating(t, f, rs, x)
    requires RightTranslated(t, f, rs, x, v) && RightTranslated(t, f, rs, x, w)
    ensures v == w
  {
    var ip, port :| TargetFits(t, f, x, ip, port) && F.LeavesBy(t, ip, v.outIf) && Sent(t, f, rs, x, (ip, port), v);
    var ip', port' :| TargetFits(t, f, x, ip', port') && F.LeavesBy(t, ip', w.outIf) && Sent(t, f, rs, x, (ip', port'), w);
    OneStart(t, x.translate.value.translateIpTo, ip, ip');
    OnePort(t, x.translate.value.translateServiceTo, f.dport, port, port');
    OneWay(t, ip, v.outIf, w.outIf);
    OneSent(t, f, rs, x, (ip, port), v, w);
  }

  lemma {:induction false} OneSent(t: Tree, f: Flow, rs: RuleSet, x: Rule, to: (Ip, U32), v: Verdict, w: Verdict)
    requires Sent(t, f, rs, x, to, v) && Sent(t, f, rs, x, to, w) && v.outIf == w.outIf
    ensures v == w
  {
    var rules := rs.spec.rules;
    if GovernedBy(t, f.inIf, v.outIf, rs.meta.name) {
      var i :| FirstTaker(t, rules, f, false, i) && v == AfterTranslation(v.outIf, rs.meta.name, x, rules[i], to);
      var j :| FirstTaker(t, rules, f, false, j) && w == AfterTranslation(w.outIf, rs.meta.name, x, rules[j], to);
      OneTaker(t, rules, f, false, i, j);
    }
  }

  lemma {:induction false} OneRouted(t: Tree, f: Flow, v: Verdict, w: Verdict)
    requires CleanTree(t) && DirectTargets(t) && RightRouted(t, f, v) && RightRouted(t, f, w)
    ensures v == w
  {
    OneWay(t, V4(f.dst), v.outIf, w.outIf);
    if v.outIf != "" && v.outIf != f.inIf && exists g :: F.IsGovernor(t, g, f.inIf, v.outIf) {
      var g :| F.IsGovernor(t, g, f.inIf, v.outIf) && RightGoverned(t, f, g, v);
      var h :| F.IsGovernor(t, h, f.inIf, w.outIf) && RightGoverned(t, f, h, w);
      SameGovernor(t, f.inIf, v.outIf, g);
      SameGovernor(t, f.inIf, v.outIf, h);
      OneGoverned(t, f, g, v, w);
    }
  }

  lemma {:induction false} OneGoverned(t: Tree, f: Flow, g: RuleSet, v: Verdict, w: Verdict)
    requires UniqueNames(t) && DirectTargets(t) && g in t.ruleSets && v.outIf == w.outIf
    requires RightGoverned(t, f, g, v) && RightGoverned(t, f, g, w)
    ensures v == w
  {
    var rules := g.spec.rules;
    if exists i :: FirstTaker(t, rules, f, true, i) {
      var i :| FirstTaker(t, rules, f, true, i) && RightPolicy(t, g.meta.name, rules[i], v);
      var j :| FirstTaker(t, rules, f, true, j) && RightPolicy(t, g.meta.name, rules[j], w);
      OneTaker(t, rules, f, true, i, j);
      OneSource(t, g, rules[i], v.outIf, v.xsrc, w.xsrc);
    }
  }

  lemma {:induction false} OneSource(t: Tree, g: RuleSet, x: Rule, outIf: Name, a: Option<Ip>, b: Option<Ip>)
    requires UniqueNames(t) && DirectTargets(t) && g in t.ruleSets && x in g.spec.rules
    requires SourceFits(t, x, outIf, a) && SourceFits(t, x, outIf, b)
    ensures a == b
  {
    if a.Some? && b.Some? {
      if x.translate.value.translateIpTo != "" {
        OneStart(t, x.translate.value.translateIpTo, a.value, b.value);
      } else {
        OneMain(t, outIf, a.value, b.value);
      }
    }
  }

  lemma {:induction false} OneRight(t: Tree, f: Flow, v: Verdict, w: Verdict)
    requires CleanTree(t) && DirectTargets(t) && Right(t, f, v) && Right(t, f, w)
    ensures v == w
  {
    if exists rs, x :: Translating(t, f, rs, x) {
      var rs, x :| Translating(t, f, rs, x) && RightTranslated(t, f, rs, x, v);
      var rs', x' :| Translating(t, f, rs', x') && RightTranslated(t, f, rs', x', w);
      OneTranslating(t, f, rs, x, rs', x');
      OneTranslated(t, f, rs, x, v, w);
    } else {
      OneRouted(t, f, v, w);
    }
  }

  /** The classifier gives a flow a verdict if and only if it is the right one. */
  lemma {:induction false} DecideIffRight(t: Tree, f: Flow, v: Verdict)
    requires CleanTree(t) && DirectTargets(t)
    ensures Right(t, f, v) <==> v == Decide(t, f)
  {
    DecideIsRight(t, f);
    if Right(t, f, v) { OneRight(t, f, v, Decide(t, f)); }
  }
}
