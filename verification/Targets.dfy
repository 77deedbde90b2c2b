/** What equal sections say about the targets of translations: they name the
    same addresses and the same services. */
module Targets {
  import opened Prelude
  import opened Ipv4
  import opened Model
  import opened Expand
  import opened Matching
  import opened Routing
  import opened Classify
  import opened Clean
  import opened Guarantees
  import opened EqualVerdicts
  import R = Readings
  import F = Facts
  import C = Compile
  import EqualPlans

  /** The rule translates the flow, as in Verdicts, with or without an address
      for its target. */
  ghost predicate Retargeting(t: Tree, f: Flow, rs: RuleSet, x: Rule) {
    && rs in t.ruleSets && F.OnSide(t, rs.spec.from, f.inIf) && x in rs.spec.rules
    && F.TranslatesDst(x) && x.translate.value.translateIpTo != "" && R.RuleTakes(t, x, f)
  }

  ghost predicate SameAddresses(t: Tree, a: Name, u: Tree, b: Name) {
    forall ip: U32 :: F.RefsHold(t, [a], ip) <==> F.RefsHold(u, [b], ip)
  }

  ghost predicate SameServices(t: Tree, a: Name, u: Tree, b: Name) {
    forall proto: string, port: U32 :: F.RefsServe(t, [a], proto, port) <==> F.RefsServe(u, [b], proto, port)
  }

  lemma {:induction false} EntryOfTaker(r: C.Renderer, t: Tree, f: Flow, rs: RuleSet, x: Rule)
    requires C.Faithful(r) && Proper(t) && Retargeting(t, f, rs, x)
    ensures TakerOf(r, C.PlanOf(r, t).dataplane.ruleSets, f) ==
      Some(Taker(C.CompiledOf(r, t, rs), C.EntryOf(r, t, x)))
  {
    R.SideRead(t, rs.spec.from, f.inIf);
    R.MatchesRead(t, x, f);
    TakerFound(r, t, t.ruleSets, f, rs, x);
  }

  /** The texts of a target tell what it names. */
  lemma {:induction false} TextsTell(r: C.Renderer, t: Tree, u: Tree, a: Name, b: Name)
    requires C.Faithful(r) && UniqueNames(t) && UniqueNames(u)
    requires C.ResolvedAddresses(r, AddressGraph(t), [a]) == C.ResolvedAddresses(r, AddressGraph(u), [b])
    ensures SameAddresses(t, a, u, b)
  {
    forall ip: U32 ensures F.RefsHold(t, [a], ip) <==> F.RefsHold(u, [b], ip) {
      C.AddressesKeepMeaning(r, AddressGraph(t), [a], ip);
      C.AddressesKeepMeaning(r, AddressGraph(u), [b], ip);
      R.AddressesRead(t, [a], ip);
      R.AddressesRead(u, [b], ip);
    }
  }

  lemma {:induction false} ServiceTextsTell(r: C.Renderer, t: Tree, u: Tree, a: Name, b: Name)
    requires C.Faithful(r) && UniqueNames(t) && UniqueNames(u)
    requires C.ResolvedServices(r, ServiceGraph(t), [a]) == C.ResolvedServices(r, ServiceGraph(u), [b])
    ensures SameServices(t, a, u, b)
  {
    forall proto: string, port: U32 ensures F.RefsServe(t, [a], proto, port) <==> F.RefsServe(u, [b], proto, port) {
      C.ServicesKeepMeaning(r, ServiceGraph(t), [a], proto, port);
      C.ServicesKeepMeaning(r, ServiceGraph(u), [b], proto, port);
      R.ServicesRead(t, [a], proto, port);
      R.ServicesRead(u, [b], proto, port);
    }
  }

  /** Where two proper configurations have the same sections and a translation
      takes a flow in both, the targets name the same addresses and the same
      services: a change of a target never leaves the sections as they are. */
  lemma {:induction false} TargetsNameAlike(r: C.Renderer, t: Tree, u: Tree, f: Flow, rs: RuleSet, x: Rule,
                                            ss: RuleSet, y: Rule)
    requires C.Faithful(r) && Proper(t) && Proper(u) && C.PlanOf(r, t) == C.PlanOf(r, u)
    requires Retargeting(t, f, rs, x) && Retargeting(u, f, ss, y)
    ensures SameAddresses(t, x.translate.value.translateIpTo, u, y.translate.value.translateIpTo)
    ensures SameServices(t, x.translate.value.translateServiceTo, u, y.translate.value.translateServiceTo)
  {
    EntryOfTaker(r, t, f, rs, x);
    EntryOfTaker(r, u, f, ss, y);
    var (m, n) := (x.translate.value, y.translate.value);
    assert C.NatOf(r, t, x.translate) == C.NatOf(r, u, y.translate);
    TextsTell(r, t, u, m.translateIpTo, n.translateIpTo);
    ServiceTextsTell(r, t, u, m.translateServiceTo, n.translateServiceTo);
  }

  // ---- targets that are hosts -------------------------------------------------------------------

  /** A target is one host: whatever it means is this address. */
  ghost predicate IsHost(t: Tree, ref: Name, ip: U32) {
    && ref != "any" && (exists o :: F.Means(t.addresses, t.addressGroups, ref, o))
    && forall o: Object<AddressSpec> :: F.Means(t.addresses, t.addressGroups, ref, o) ==>
        o.spec.form == Subnet(Prefix(ip, 32))
  }

  ghost predicate HostTarget(t: Tree, x: Rule, ip: U32) {
    x.translate.Some? && IsHost(t, x.translate.value.translateIpTo, ip)
  }

  lemma {:induction false} HostHolds(t: Tree, ref: Name, ip: U32, y: U32)
    requires IsHost(t, ref, ip)
    ensures F.RefsHold(t, [ref], y) <==> y == ip
  {
    assert F.InBlock(Prefix(ip, 32), y) <==> y == ip by {
      assert Pow2(0) == 1;
      assert F.InNth(ip, 1, ip);
    }
    assert F.RefsHold(t, [ref], y) <==> F.HoldsUnder(t, ref, y) by {
      assert [ref][0] == ref;
    }
  }

  lemma {:induction false} HostFirst(t: Tree, ref: Name, ip: U32)
    requires UniqueNames(t) && IsHost(t, ref, ip)
    ensures FirstIp(t, ref) == Some(V4(ip))
  {
    R.FirstIpRead(t, ref);
    var o :| F.Means(t.addresses, t.addressGroups, ref, o);
    assert F.StartsUnder(t, ref, V4(ip)) by { assert F.FormStarts(o.spec.form, V4(ip)); }
  }

  /** Two hosts that the same sections stand for are the same, and so is what
      the translations send the flow to. */
  lemma {:induction false} HostsAlike(r: C.Renderer, t: Tree, u: Tree, f: Flow, rs: RuleSet, x: Rule, i: U32,
                                      ss: RuleSet, y: Rule, j: U32)
    requires C.Faithful(r) && Proper(t) && Proper(u) && C.PlanOf(r, t) == C.PlanOf(r, u)
    requires Retargeting(t, f, rs, x) && Retargeting(u, f, ss, y)
    requires HostTarget(t, x, i) && HostTarget(u, y, j)
    ensures i == j
    ensures TargetOf(t, f).Some? && TargetOf(t, f).value.ip == V4(i)
    ensures TargetOf(u, f).Some? && TargetOf(u, f).value.ip == V4(i)
  {
    TargetsNameAlike(r, t, u, f, rs, x, ss, y);
    HostHolds(t, x.translate.value.translateIpTo, i, i);
    HostHolds(u, y.translate.value.translateIpTo, j, i);
    HostTargetOf(t, f, rs, x, i);
    HostTargetOf(u, f, ss, y, j);
  }

  lemma {:induction false} HostTargetOf(t: Tree, f: Flow, rs: RuleSet, x: Rule, i: U32)
    requires CleanTree(t) && Retargeting(t, f, rs, x) && HostTarget(t, x, i)
    ensures TargetOf(t, f).Some? && TargetOf(t, f).value.ip == V4(i)
  {
    HostFirst(t, x.translate.value.translateIpTo, i);
    assert DnatHit(t, rs, x, f) by {
      R.SideRead(t, rs.spec.from, f.inIf);
      R.MatchesRead(t, x, f);
    }
    FirstDnatTranslates(t, t.ruleSets, f);
    var p := FirstDnat(t, t.ruleSets, f).value;
    TranslatesTakesPart(t, x, f);
    TranslatesTakesPart(t, p.1, f);
    DnatUnique(t, f, rs, x, p.0, p.1);
  }

  /** With hosts for targets, verdicts on a translated flow can differ in the
      port and the names of the target only. */
  lemma {:induction false} HostsDecide(r: C.Renderer, t: Tree, u: Tree, f: Flow, rs: RuleSet, x: Rule, i: U32,
                                       ss: RuleSet, y: Rule, j: U32)
    requires C.Faithful(r) && Proper(t) && Proper(u) && C.PlanOf(r, t) == C.PlanOf(r, u)
    requires Retargeting(t, f, rs, x) && Retargeting(u, f, ss, y)
    requires HostTarget(t, x, i) && HostTarget(u, y, j)
    ensures Decide(t, f).(translate := None, xdst := None) == Decide(u, f).(translate := None, xdst := None)
    ensures Decide(t, f).xdst.Some? && Decide(u, f).xdst.Some? ==> Decide(t, f).xdst.value.0 == Decide(u, f).xdst.value.0
  {
    HostsAlike(r, t, u, f, rs, x, i, ss, y, j);
    var (a, b) := (TargetOf(t, f).value, TargetOf(u, f).value);
    var k, _, _ := TranslationRead(r, t, f);
    var l, _, _ := TranslationRead(r, u, f);
    EqualPlans.EqualRoutes(r, t, u, a.ip);
    OutcomesAlike(r, C.PlanOf(r, t).dataplane, f, k, RouteOf(t, a.ip), a, b);
  }

  lemma {:induction false} OutcomesAlike(r: C.Renderer, d: C.Dataplane, f: Flow, k: Taker, o: Name, a: Target, b: Target)
    requires a.ip == b.ip
    ensures Translated(r, d, f, k, o, a).(translate := None, xdst := None) ==
      Translated(r, d, f, k, o, b).(translate := None, xdst := None)
    ensures var (v, w) := (Translated(r, d, f, k, o, a), Translated(r, d, f, k, o, b));
      v.xdst.Some? && w.xdst.Some? ==> v.xdst.value.0 == w.xdst.value.0
  {
  }
}
