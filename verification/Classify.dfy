/** The reference classifier: the verdict of the forwarding path for a new
    flow. Translation of the destination is decided first, on the original
    addresses; then the route; then the first match in the RuleSet that governs
    the pair of Interfaces. */
module Classify {
  import opened Prelude
  import opened Ipv4
  import opened Model
  import opened Expand
  import opened Matching
  import opened Routing

  type Port = n: U32 | n <= MAX_PORT

  datatype Flow = Flow(inIf: Name, src: U32, dst: U32, proto: string, dport: Port)

  datatype Reason = ByPolicy | NoRuleSet | DefaultDeny | IntraZoneTraffic | DnatRouteMismatch | ShadowedDnat

  datatype Verdict = Verdict(action: Action, reason: Reason, outIf: Name, ruleSet: Name, policy: Name,
                             translate: Option<Nat>, xdst: Option<(Ip, U32)>, xsrc: Option<Ip>)

  type RuleSet = Object<RuleSetSpec>

  predicate Matches(t: Tree, r: Rule, f: Flow) {
    && IsEnabled(r.enabled)
    && InAddresses(AddressGraph(t), r.source, f.src)
    && InAddresses(AddressGraph(t), r.destination, f.dst)
    && InServices(ServiceGraph(t), r.service, f.proto, f.dport)
  }

  predicate Governs(t: Tree, rs: RuleSet, inIf: Name, outIf: Name) {
    inIf in Side(t, rs.spec.from) && outIf in Side(t, rs.spec.to)
  }

  /** The first RuleSet that governs an ordered pair of Interfaces. */
  function Governing(t: Tree, l: seq<RuleSet>, inIf: Name, outIf: Name): Option<RuleSet> {
    if l == [] then None
    else if Governs(t, l[0], inIf, outIf) then Some(l[0])
    else Governing(t, l[1..], inIf, outIf)
  }

  /** The first subnet or range of a list gives its first address. */
  function FirstIpIn(l: seq<AddressSpec>): Option<Ip> {
    if l == [] then None
    else match l[0].form
      case Subnet(p) => Some(V4(p.addr))
      case Subnet6(n, x, _) => Some(V6(n, x))
      case Range(s, _) => Some(s)
      case _ => FirstIpIn(l[1..])
  }

  function FirstIp(t: Tree, ref: Name): Option<Ip> { FirstIpIn(Expanded(AddressGraph(t), ref)) }

  function InterfaceIp(t: Tree, name: Name): Option<Ip> {
    match Find(t.interfaces, name)
    case Some(s) => if StaticAddresses(s) == [] then None else Some(V4(StaticAddresses(s)[0].addr))
    case None => None
  }

  // ---- first matches ------------------------------------------------------------

  /** A translation rule that takes a flow: it matches and its target has an
      address. */
  predicate Translates(t: Tree, r: Rule, f: Flow) {
    IsDnat(r) && Matches(t, r, f) && FirstIp(t, r.translate.value.translateIpTo).Some?
  }

  function FirstTranslation(t: Tree, rules: seq<Rule>, f: Flow): Option<Rule> {
    if rules == [] then None
    else if Translates(t, rules[0], f) then Some(rules[0])
    else FirstTranslation(t, rules[1..], f)
  }

  /** The first translation over the RuleSets whose incoming side has the
      Interface of the flow. */
  function FirstDnat(t: Tree, l: seq<RuleSet>, f: Flow): Option<(RuleSet, Rule)> {
    if l == [] then None
    else if f.inIf in Side(t, l[0].spec.from) && FirstTranslation(t, l[0].spec.rules, f).Some? then
      Some((l[0], FirstTranslation(t, l[0].spec.rules, f).value))
    else FirstDnat(t, l[1..], f)
  }

  function FirstMatch(t: Tree, rules: seq<Rule>, f: Flow): Option<Rule> {
    if rules == [] then None
    else if Matches(t, rules[0], f) then Some(rules[0])
    else FirstMatch(t, rules[1..], f)
  }

  /** The first match in the second phase, where translation rules are skipped. */
  function FirstPolicy(t: Tree, rules: seq<Rule>, f: Flow): Option<Rule> {
    if rules == [] then None
    else if !IsDnat(rules[0]) && Matches(t, rules[0], f) then Some(rules[0])
    else FirstPolicy(t, rules[1..], f)
  }

  // ---- verdicts -----------------------------------------------------------------

  /** The destination port after translation. */
  function TranslatedPort(t: Tree, n: Nat, dport: U32): U32 {
    if n.translateServiceTo == "" then dport
    else match Find(t.services, n.translateServiceTo)
      case Some(s) =>
        if |s.protocols| == 1 && s.protocols[0].port.Some? then s.protocols[0].port.value.lo else dport
      case None => dport
  }

  function DropFor(reason: Reason, outIf: Name, ruleSet: Name): Verdict {
    Verdict(Drop, reason, outIf, ruleSet, "", None, None, None)
  }

  /** The verdict once a translation rule of a RuleSet has taken the flow:
      where it goes, who governs that way, and which rule matches first. */
  function DnatOutcome(rs: RuleSet, r: Rule, outIf: Name, xdst: (Ip, U32),
                       gov: Option<RuleSet>, first: Option<Rule>): Verdict
  {
    if gov.None? || gov.value.meta.name != rs.meta.name then
      DropFor(DnatRouteMismatch, outIf, rs.meta.name).(xdst := Some(xdst))
    else
      match first
      case None => DropFor(ShadowedDnat, outIf, rs.meta.name)
      case Some(e) =>
        if e.name == r.name then
          Verdict(Accept, ByPolicy, outIf, rs.meta.name, e.name, r.translate, Some(xdst), None)
        else
          DropFor(if e.action == Drop then ByPolicy else ShadowedDnat, outIf, rs.meta.name).(policy := e.name)
  }

  function DnatVerdict(t: Tree, rs: RuleSet, r: Rule, f: Flow): Verdict
    requires Translates(t, r, f)
  {
    var n := r.translate.value;
    var to := FirstIp(t, n.translateIpTo).value;
    var outIf := RouteOf(t, to);
    DnatOutcome(rs, r, outIf, (to, TranslatedPort(t, n, f.dport)),
                Governing(t, t.ruleSets, f.inIf, outIf), FirstMatch(t, rs.spec.rules, f))
  }

  /** The source address an accepting rule translates to. */
  function SourceAfter(t: Tree, r: Rule, outIf: Name): Option<Ip> {
    if !(r.action == Accept && r.translate.Some? && r.translate.value.kind == Snat) then None
    else if r.translate.value.translateIpTo != "" then FirstIp(t, r.translate.value.translateIpTo)
    else InterfaceIp(t, outIf)
  }

  predicate IntraZoneAllowed(t: Tree, inIf: Name, outIf: Name) {
    var z := ZoneOf(t.zones, inIf);
    && z != "" && z == ZoneOf(t.zones, outIf)
    && Find(t.zones, z).Some? && Find(t.zones, z).value.intraZoneTraffic == Allow
  }

  /** The verdict of the second phase: the way out, who governs it, the first
      rule that matches there and the source address it gives. */
  function RoutedOutcome(inIf: Name, outIf: Name, gov: Option<RuleSet>, intraZone: bool,
                         first: Option<Rule>, xsrc: Option<Ip>): Verdict
  {
    if outIf == "" || outIf == inIf then DropFor(NoRuleSet, outIf, "")
    else match gov
      case None =>
        if intraZone then Verdict(Accept, IntraZoneTraffic, outIf, "", "", None, None, None)
        else DropFor(NoRuleSet, outIf, "")
      case Some(rs) =>
        match first
        case None => DropFor(DefaultDeny, outIf, rs.meta.name)
        case Some(r) =>
          Verdict(r.action, ByPolicy, outIf, rs.meta.name, r.name,
                  if r.action == Accept && r.translate.Some? && r.translate.value.kind == Snat
                  then r.translate else None,
                  None, xsrc)
  }

  /** The verdict when no translation rule takes the flow. */
  function RoutedVerdict(t: Tree, f: Flow): Verdict {
    var outIf := RouteOf(t, V4(f.dst));
    var gov := Governing(t, t.ruleSets, f.inIf, outIf);
    var first := if gov.Some? then FirstPolicy(t, gov.value.spec.rules, f) else None;
    RoutedOutcome(f.inIf, outIf, gov, IntraZoneAllowed(t, f.inIf, outIf), first,
                  if first.Some? then SourceAfter(t, first.value, outIf) else None)
  }

  /** The verdict of a flow. */
  function Decide(t: Tree, f: Flow): Verdict {
    FirstDnatTranslates(t, t.ruleSets, f);
    match FirstDnat(t, t.ruleSets, f)
    case Some((rs, r)) => DnatVerdict(t, rs, r, f)
    case None => RoutedVerdict(t, f)
  }

  // ---- facts about first matches --------------------------------------------------

  lemma {:induction false} FirstTranslationSound(t: Tree, rules: seq<Rule>, f: Flow)
    ensures match FirstTranslation(t, rules, f)
      case Some(r) => r in rules && Translates(t, r, f)
      case None => forall r :: r in rules ==> !Translates(t, r, f)
  {
    if rules != [] {
      FirstTranslationSound(t, rules[1..], f);
      assert forall r :: r in rules <==> r == rules[0] || r in rules[1..];
    }
  }

  /** A RuleSet and a rule that can take a flow in the first phase. */
  ghost predicate DnatHit(t: Tree, rs: RuleSet, r: Rule, f: Flow) {
    f.inIf in Side(t, rs.spec.from) && r in rs.spec.rules && Translates(t, r, f)
  }

  lemma {:induction false} FirstDnatTranslates(t: Tree, l: seq<RuleSet>, f: Flow)
    ensures match FirstDnat(t, l, f)
      case Some((rs, r)) => rs in l && DnatHit(t, rs, r, f)
      case None => forall rs, r :: rs in l ==> !DnatHit(t, rs, r, f)
  {
    if l != [] {
      FirstTranslationSound(t, l[0].spec.rules, f);
      FirstDnatTranslates(t, l[1..], f);
      assert forall rs :: rs in l <==> rs == l[0] || rs in l[1..];
    }
  }

  lemma {:induction false} GoverningSound(t: Tree, l: seq<RuleSet>, inIf: Name, outIf: Name)
    ensures match Governing(t, l, inIf, outIf)
      case Some(rs) => rs in l && Governs(t, rs, inIf, outIf)
      case None => forall rs :: rs in l ==> !Governs(t, rs, inIf, outIf)
  {
    if l != [] {
      GoverningSound(t, l[1..], inIf, outIf);
      assert forall rs :: rs in l <==> rs == l[0] || rs in l[1..];
    }
  }

  /** The index of the first match: it matches and nothing before it does. */
  lemma {:induction false} FirstMatchIndex(t: Tree, rules: seq<Rule>, f: Flow, k: nat)
    requires k < |rules| && Matches(t, rules[k], f)
    ensures exists i :: 0 <= i <= k && FirstMatch(t, rules, f) == Some(rules[i]) && Matches(t, rules[i], f)
  {
    if !Matches(t, rules[0], f) {
      FirstMatchIndex(t, rules[1..], f, k - 1);
      var i :| 0 <= i <= k - 1 && FirstMatch(t, rules[1..], f) == Some(rules[1..][i]) && Matches(t, rules[1..][i], f);
      assert rules[i + 1] == rules[1..][i];
    }
  }

  lemma {:induction false} FirstPolicySound(t: Tree, rules: seq<Rule>, f: Flow)
    ensures match FirstPolicy(t, rules, f)
      case Some(r) => r in rules && !IsDnat(r) && Matches(t, r, f)
      case None => forall r :: r in rules ==> IsDnat(r) || !Matches(t, r, f)
  {
    if rules != [] {
      FirstPolicySound(t, rules[1..], f);
      assert forall r :: r in rules <==> r == rules[0] || r in rules[1..];
    }
  }

  // ---- the classifier as it is programmed -------------------------------------------

  method SearchGoverning(t: Tree, inIf: Name, outIf: Name) returns (r: Option<RuleSet>)
    ensures r == Governing(t, t.ruleSets, inIf, outIf)
  {
    for i := 0 to |t.ruleSets|
      invariant Governing(t, t.ruleSets[i..], inIf, outIf) == Governing(t, t.ruleSets, inIf, outIf)
    {
      assert t.ruleSets[i..][1..] == t.ruleSets[i + 1..];
      if Governs(t, t.ruleSets[i], inIf, outIf) {
        return Some(t.ruleSets[i]);
      }
    }
    r := None;
  }

  method Classify(t: Tree, f: Flow) returns (v: Verdict)
    ensures v == Decide(t, f)
  {
    for i := 0 to |t.ruleSets|
      invariant FirstDnat(t, t.ruleSets[i..], f) == FirstDnat(t, t.ruleSets, f)
    {
      var rs := t.ruleSets[i];
      assert t.ruleSets[i..][1..] == t.ruleSets[i + 1..];
      if f.inIf in Side(t, rs.spec.from) {
        var found: bool;
        found, v := TranslateWith(t, rs, f);
        if found {
          return;
        }
      }
    }
    v := ClassifyRouted(t, f);
  }

  /** The first phase inside one RuleSet. */
  method TranslateWith(t: Tree, rs: RuleSet, f: Flow) returns (found: bool, v: Verdict)
    ensures found <==> FirstTranslation(t, rs.spec.rules, f).Some?
    ensures found ==> Translates(t, FirstTranslation(t, rs.spec.rules, f).value, f)
    ensures found ==> v == DnatVerdict(t, rs, FirstTranslation(t, rs.spec.rules, f).value, f)
  {
    v := DropFor(NoRuleSet, "", "");
    var rules := rs.spec.rules;
    for k := 0 to |rules|
      invariant FirstTranslation(t, rules[k..], f) == FirstTranslation(t, rules, f)
    {
      var r := rules[k];
      assert rules[k..][1..] == rules[k + 1..];
      if IsDnat(r) && Matches(t, r, f) {
        var n := r.translate.value;
        var to := FirstIp(t, n.translateIpTo);
        if to.Some? {
          var port := TranslatedPort(t, n, f.dport);
          var outIf := Route(t, to.value);
          v := DropFor(NoRuleSet, outIf, "").(xdst := Some((to.value, port)));
          var gov := SearchGoverning(t, f.inIf, outIf);
          if gov.None? || gov.value.meta.name != rs.meta.name {
            v := v.(action := Drop, reason := DnatRouteMismatch, ruleSet := rs.meta.name);
            return true, v;
          }
          v := v.(ruleSet := rs.meta.name);
          var e := SearchMatch(t, rules, f, k);
          v := v.(policy := e.name);
          if e.name == r.name {
            v := v.(action := Accept, reason := ByPolicy, translate := Some(n));
          } else if e.action == Drop {
            v := v.(action := Drop, reason := ByPolicy, xdst := None);
          } else {
            v := v.(action := Drop, reason := ShadowedDnat, xdst := None);
          }
          return true, v;
        }
      }
    }
    found := false;
  }

  /** The search for the rule that matches first. It always ends: the rule at
      k, for which it is made, matches. */
  method SearchMatch(t: Tree, rules: seq<Rule>, f: Flow, k: nat) returns (e: Rule)
    requires k < |rules| && Matches(t, rules[k], f)
    ensures FirstMatch(t, rules, f) == Some(e)
  {
    var j := 0;
    while !Matches(t, rules[j], f)
      invariant j <= k && FirstMatch(t, rules[j..], f) == FirstMatch(t, rules, f)
      decreases k - j
    {
      assert rules[j..][1..] == rules[j + 1..];
      j := j + 1;
    }
    e := rules[j];
  }

  /** The second phase. */
  method ClassifyRouted(t: Tree, f: Flow) returns (v: Verdict)
    ensures v == RoutedVerdict(t, f)
  {
    var outIf := Route(t, V4(f.dst));
    v := DropFor(NoRuleSet, outIf, "");
    if outIf == "" || outIf == f.inIf {
      return;
    }
    var gov := SearchGoverning(t, f.inIf, outIf);
    if gov.None? {
      if IntraZoneAllowed(t, f.inIf, outIf) {
        v := v.(action := Accept, reason := IntraZoneTraffic);
      }
      return;
    }
    v := v.(ruleSet := gov.value.meta.name);
    var rules := gov.value.spec.rules;
    for k := 0 to |rules|
      invariant FirstPolicy(t, rules[k..], f) == FirstPolicy(t, rules, f)
    {
      var r := rules[k];
      assert rules[k..][1..] == rules[k + 1..];
      if !IsDnat(r) && Matches(t, r, f) {
        v := v.(policy := r.name, action := r.action, reason := ByPolicy);
        if r.action == Accept && r.translate.Some? && r.translate.value.kind == Snat {
          v := v.(translate := r.translate);
          if r.translate.value.translateIpTo != "" {
            v := v.(xsrc := FirstIp(t, r.translate.value.translateIpTo));
          } else {
            v := v.(xsrc := InterfaceIp(t, outIf));
          }
        }
        return;
      }
    }
    v := v.(action := Drop, reason := DefaultDeny);
  }
}
