/** Exactly when two clean configurations with the same sections give a flow the
    same verdict, both phases of the classifier together. */
module EqualVerdicts {
  import opened Prelude
  import opened Ipv4
  import opened Model
  import opened Matching
  import opened Routing
  import opened Classify
  import opened Clean
  import opened Guarantees
  import opened EqualPlans
  import C = Compile

  /** Every Zone has a member, as the schema demands. */
  ghost predicate ZonesNotEmpty(t: Tree) { forall z :: z in t.zones ==> z.spec.interfaces != [] }

  /** What an accepted configuration that meets the schema is. */
  ghost predicate Proper(t: Tree) { CleanTree(t) && ZonesNotEmpty(t) }

  // ---- the translation a flow meets, read from the section -----------------------------------

  /** A flow enters a RuleSet by its Interface. */
  predicate Enters(c: C.Compiled, inIf: Name) { exists p :: p in c.pairs && p.0 == inIf }

  predicate Retargets(e: C.Entry) { e.translate.Some? && e.translate.value.Resolved? }

  /** The first entry with a target that takes a flow. */
  ghost function FirstRetarget(r: C.Renderer, l: seq<C.Entry>, f: Flow): Option<C.Entry> {
    if l == [] then None
    else if Retargets(l[0]) && C.EntryTakes(r, l[0], f) then Some(l[0])
    else FirstRetarget(r, l[1..], f)
  }

  /** A compiled RuleSet and the entry in it that translates a flow. */
  datatype Taker = Taker(c: C.Compiled, e: C.Entry)

  ghost function TakerOf(r: C.Renderer, l: seq<C.Compiled>, f: Flow): Option<Taker> {
    if l == [] then None
    else if Enters(l[0], f.inIf) && FirstRetarget(r, l[0].rules, f).Some? then
      Some(Taker(l[0], FirstRetarget(r, l[0].rules, f).value))
    else TakerOf(r, l[1..], f)
  }

  // ---- the same in the configuration ---------------------------------------------------------

  /** A rule that could translate a flow, if its target has an address. */
  predicate Takes(t: Tree, x: Rule, f: Flow) { TakesPart(x) && Matches(t, x, f) }

  function FirstTaking(t: Tree, rules: seq<Rule>, f: Flow): Option<Rule> {
    if rules == [] then None
    else if Takes(t, rules[0], f) then Some(rules[0])
    else FirstTaking(t, rules[1..], f)
  }

  lemma {:induction false} FirstTakingSound(t: Tree, rules: seq<Rule>, f: Flow)
    ensures match FirstTaking(t, rules, f)
      case Some(x) => x in rules && Takes(t, x, f)
      case None => forall x :: x in rules ==> !Takes(t, x, f)
  {
    if rules != [] {
      FirstTakingSound(t, rules[1..], f);
      assert forall x :: x in rules <==> x == rules[0] || x in rules[1..];
    }
  }

  lemma {:induction false} RetargetKeepsMeaning(r: C.Renderer, t: Tree, rules: seq<Rule>, f: Flow)
    requires C.Faithful(r)
    ensures FirstRetarget(r, C.EntriesFor(r, t, rules), f) == C.EntryOfSome(r, t, FirstTaking(t, rules, f))
  {
    if rules != [] {
      RetargetKeepsMeaning(r, t, rules[1..], f);
      if IsEnabled(rules[0].enabled) {
        C.EntryKeepsMeaning(r, t, rules[0], f);
        assert C.EntriesFor(r, t, rules)[1..] == C.EntriesFor(r, t, rules[1..]);
      } else {
        assert C.EntriesFor(r, t, rules) == C.EntriesFor(r, t, rules[1..]);
      }
    }
  }

  lemma SideNotEmpty(t: Tree, side: Name)
    requires ZonesNotEmpty(t) && InNetwork(t, side)
    ensures Side(t, side) != []
  {
    FindSound(t.zones, side);
  }

  /** A flow enters a compiled RuleSet where it enters the RuleSet: the other
      side has a member, and it is not the Interface itself. */
  lemma EntersKeepsMeaning(r: C.Renderer, t: Tree, rs: RuleSet, inIf: Name)
    requires Proper(t) && rs in t.ruleSets
    ensures Enters(C.CompiledOf(r, t, rs), inIf) <==> inIf in Side(t, rs.spec.from)
  {
    var (from, to) := (Side(t, rs.spec.from), Side(t, rs.spec.to));
    forall p ensures p in C.PairsOf(from, to) <==> p.0 in from && p.1 in to && p.0 != p.1 {
      C.PairsOfMembers(from, to, p);
    }
    ToSideNotEmpty(t, rs);
    if inIf in from {
      NoSelfGoverning(t, rs, inIf);
      assert to[0] in to && (inIf, to[0]) in C.PairsOf(from, to);
    }
  }

  lemma ToSideNotEmpty(t: Tree, rs: RuleSet)
    requires Proper(t) && rs in t.ruleSets
    ensures Side(t, rs.spec.to) != []
  {
    var i :| 0 <= i < |t.ruleSets| && t.ruleSets[i] == rs;
    SideNotEmpty(t, t.ruleSets[i].spec.to);
  }

  /** On a clean configuration the rule that translates a flow is found in the
      section. */
  lemma {:induction false} TakerFound(r: C.Renderer, t: Tree, l: seq<RuleSet>, f: Flow, rs: RuleSet, x: Rule)
    requires C.Faithful(r) && Proper(t) && (forall o :: o in l ==> o in t.ruleSets)
    requires rs in l && f.inIf in Side(t, rs.spec.from) && x in rs.spec.rules && Takes(t, x, f)
    ensures TakerOf(r, C.CompiledRuleSets(r, t, l), f) == Some(Taker(C.CompiledOf(r, t, rs), C.EntryOf(r, t, x)))
  {
    var o := l[0];
    EntersKeepsMeaning(r, t, o, f.inIf);
    RetargetKeepsMeaning(r, t, o.spec.rules, f);
    FirstTakingSound(t, o.spec.rules, f);
    var y := FirstTaking(t, o.spec.rules, f);
    assert C.CompiledRuleSets(r, t, l)[0] == C.CompiledOf(r, t, o);
    assert C.CompiledRuleSets(r, t, l)[1..] == C.CompiledRuleSets(r, t, l[1..]);
    if f.inIf in Side(t, o.spec.from) && y.Some? {
      DnatUnique(t, f, o, y.value, rs, x);
    } else {
      TakerFound(r, t, l[1..], f, rs, x);
    }
  }

  // ---- what the sections say of a translated flow ----------------------------------------------

  /** What becomes of a flow that a translation has taken, by where it goes. */
  datatype Way = Mismatched | Accepted | Dropped | Hidden

  /** Read from the section: the way may be governed by another RuleSet or none,
      the entry may be the first that takes the flow, or another one is. */
  ghost function WayOf(r: C.Renderer, d: C.Dataplane, f: Flow, k: Taker, outIf: Name): Way {
    var g := C.FirstForPair(d.ruleSets, f.inIf, outIf);
    if g.None? || g.value.name != k.c.name then Mismatched
    else match C.FirstEntry(r, k.c.rules, f, false)
      case None => Hidden
      case Some(e) =>
        if e.rule == k.e.rule then Accepted
        else if e.action == Drop && !C.EntryIsDnat(e) then Dropped
        else Hidden
  }

  /** What a target is resolved to, with the names it is written in. */
  datatype Target = Target(ip: Ip, port: U32, written: Option<Nat>)

  /** The target of the translation that takes a flow, if one does. */
  function TargetOf(t: Tree, f: Flow): Option<Target> {
    FirstDnatTranslates(t, t.ruleSets, f);
    match FirstDnat(t, t.ruleSets, f)
    case None => None
    case Some((_, x)) => Some(TargetBy(t, x, f))
  }

  function TargetBy(t: Tree, x: Rule, f: Flow): Target
    requires Translates(t, x, f)
  {
    var n := x.translate.value;
    Target(FirstIp(t, n.translateIpTo).value, TranslatedPort(t, n, f.dport), x.translate)
  }

  /** The verdict as the section and the target determine it. */
  ghost function Translated(r: C.Renderer, d: C.Dataplane, f: Flow, k: Taker, outIf: Name, a: Target): Verdict {
    match WayOf(r, d, f, k, outIf)
    case Mismatched => DropFor(DnatRouteMismatch, outIf, k.c.name).(xdst := Some((a.ip, a.port)))
    case Accepted => Verdict(Accept, ByPolicy, outIf, k.c.name, k.e.rule, a.written, Some((a.ip, a.port)), None)
    case _ => Taken(k, outIf, C.FirstEntry(r, k.c.rules, f, false))
  }

  /** The verdict when another entry comes first. */
  function Taken(k: Taker, outIf: Name, e: Option<C.Entry>): Verdict {
    match e
    case None => DropFor(ShadowedDnat, outIf, k.c.name)
    case Some(e) =>
      DropFor(if e.action == Drop then ByPolicy else ShadowedDnat, outIf, k.c.name).(policy := e.rule)
  }

  /** The names of who governs, read from the section, on the diagonal too. */
  lemma GovernorRead(r: C.Renderer, t: Tree, inIf: Name, outIf: Name)
    requires CleanTree(t)
    ensures C.FirstForPair(C.CompiledRuleSets(r, t, t.ruleSets), inIf, outIf) ==
      CompiledOfSome(r, t, Governing(t, t.ruleSets, inIf, outIf))
  {
    if inIf != outIf {
      C.PairKeepsMeaning(r, t, t.ruleSets, inIf, outIf);
    } else {
      NoDiagonal(r, t, t.ruleSets, inIf);
      GoverningSound(t, t.ruleSets, inIf, inIf);
      forall rs | rs in t.ruleSets ensures !Governs(t, rs, inIf, inIf) {
        NoSelfGoverning(t, rs, inIf);
      }
    }
  }

  lemma {:induction false} NoDiagonal(r: C.Renderer, t: Tree, l: seq<RuleSet>, n: Name)
    ensures C.FirstForPair(C.CompiledRuleSets(r, t, l), n, n).None?
  {
    if l != [] {
      C.PairsOfMembers(Side(t, l[0].spec.from), Side(t, l[0].spec.to), (n, n));
      NoDiagonal(r, t, l[1..], n);
      assert C.CompiledRuleSets(r, t, l)[1..] == C.CompiledRuleSets(r, t, l[1..]);
    }
  }

  /** One outcome of the first phase. */
  lemma OutcomeRead(r: C.Renderer, t: Tree, d: C.Dataplane, f: Flow, rs: RuleSet, x: Rule, outIf: Name, a: Target,
                    gov: Option<RuleSet>, first: Option<Rule>)
    requires C.FirstForPair(d.ruleSets, f.inIf, outIf) == CompiledOfSome(r, t, gov)
    requires C.FirstEntry(r, C.CompiledOf(r, t, rs).rules, f, false) == C.EntryOfSome(r, t, first)
    requires a.written == x.translate
    ensures DnatOutcome(rs, x, outIf, (a.ip, a.port), gov, first) ==
      Translated(r, d, f, Taker(C.CompiledOf(r, t, rs), C.EntryOf(r, t, x)), outIf, a)
  {
  }

  ghost predicate IsSource(r: C.Renderer, t: Tree, f: Flow, rs: RuleSet, x: Rule, k: Taker) {
    rs in t.ruleSets && x in rs.spec.rules && k == Taker(C.CompiledOf(r, t, rs), C.EntryOf(r, t, x))
  }

  /** The first phase, read from the section and the target. */
  ghost predicate ReadAs(r: C.Renderer, t: Tree, f: Flow, k: Taker, a: Target) {
    Decide(t, f) == Translated(r, C.PlanOf(r, t).dataplane, f, k, RouteOf(t, a.ip), a)
  }

  lemma TranslationRead(r: C.Renderer, t: Tree, f: Flow) returns (k: Taker, rs: RuleSet, x: Rule)
    requires C.Faithful(r) && Proper(t) && TargetOf(t, f).Some?
    ensures TakerOf(r, C.PlanOf(r, t).dataplane.ruleSets, f) == Some(k) && IsSource(r, t, f, rs, x, k)
    ensures ReadAs(r, t, f, k, TargetOf(t, f).value)
  {
    rs, x := Hit(t, f);
    TranslatesTakesPart(t, x, f);
    TakerFound(r, t, t.ruleSets, f, rs, x);
    k := Taker(C.CompiledOf(r, t, rs), C.EntryOf(r, t, x));
    var a := TargetOf(t, f).value;
    var outIf := RouteOf(t, a.ip);
    GovernorRead(r, t, f.inIf, outIf);
    C.FirstEntryKeepsMeaning(r, t, rs.spec.rules, f);
    OutcomeRead(r, t, C.PlanOf(r, t).dataplane, f, rs, x, outIf, a,
                Governing(t, t.ruleSets, f.inIf, outIf), FirstMatch(t, rs.spec.rules, f));
  }

  lemma Hit(t: Tree, f: Flow) returns (rs: RuleSet, x: Rule)
    requires TargetOf(t, f).Some?
    ensures rs in t.ruleSets && DnatHit(t, rs, x, f) && Decide(t, f) == DnatVerdict(t, rs, x, f)
    ensures TargetOf(t, f) == Some(TargetBy(t, x, f))
  {
    FirstDnatTranslates(t, t.ruleSets, f);
    var p := FirstDnat(t, t.ruleSets, f).value;
    rs, x := p.0, p.1;
  }

  // ---- two configurations ----------------------------------------------------------------------

  /** What two targets must share, by what becomes of the flow. */
  ghost predicate SameTargets(r: C.Renderer, d: C.Dataplane, f: Flow, k: Taker, o: Name, a: Target, p: Name, b: Target) {
    o == p &&
    match WayOf(r, d, f, k, o)
    case Mismatched => (a.ip, a.port) == (b.ip, b.port)
    case Accepted => a == b
    case _ => true
  }

  lemma TranslatedAlike(r: C.Renderer, d: C.Dataplane, f: Flow, k: Taker, o: Name, a: Target, p: Name, b: Target)
    ensures Translated(r, d, f, k, o, a) == Translated(r, d, f, k, p, b) <==> SameTargets(r, d, f, k, o, a, p, b)
  {
    TranslatedOut(r, d, f, k, o, a);
    TranslatedOut(r, d, f, k, p, b);
  }

  lemma TranslatedOut(r: C.Renderer, d: C.Dataplane, f: Flow, k: Taker, o: Name, a: Target)
    ensures Translated(r, d, f, k, o, a).outIf == o
  {
  }

  /** The drop of a flow by an entry, as either phase reports it. */
  function DroppedBy(outIf: Name, ruleSet: Name, policy: Name): Verdict {
    DropFor(ByPolicy, outIf, ruleSet).(policy := policy)
  }

  /** The entry that decides the second phase on a way drops the flow. */
  ghost predicate DropsRouted(r: C.Renderer, d: C.Dataplane, f: Flow, outIf: Name, ruleSet: Name, policy: Name) {
    outIf != "" && outIf != f.inIf &&
    var g := C.FirstForPair(d.ruleSets, f.inIf, outIf);
    g.Some? && g.value.name == ruleSet && EntryDrops(C.FirstEntry(r, g.value.rules, f, true), policy)
  }

  predicate EntryDrops(e: Option<C.Entry>, policy: Name) {
    e.Some? && e.value.action == Drop && e.value.rule == policy
  }

  lemma RoutedDrops(r: C.Renderer, u: Tree, f: Flow, outIf: Name, ruleSet: Name, policy: Name)
    requires C.Faithful(r)
    ensures RoutedVerdict(u, f) == DroppedBy(outIf, ruleSet, policy) <==>
      outIf == RouteOf(u, V4(f.dst)) && DropsRouted(r, C.PlanOf(r, u).dataplane, f, outIf, ruleSet, policy)
  {
    RoutedCases(u, f);
    var way := RouteOf(u, V4(f.dst));
    if Exits(u, f) {
      C.PairKeepsMeaning(r, u, u.ruleSets, f.inIf, way);
      var g := Governing(u, u.ruleSets, f.inIf, way);
      if g.Some? {
        C.FirstEntryKeepsMeaning(r, u, g.value.spec.rules, f);
      }
    }
  }

  /** What the second phase never reports. */
  lemma RoutedReasons(u: Tree, f: Flow)
    ensures RoutedVerdict(u, f).xdst == None
    ensures RoutedVerdict(u, f).reason != DnatRouteMismatch && RoutedVerdict(u, f).reason != ShadowedDnat
  {
  }

  lemma {:induction false} SkipNone(r: C.Renderer, l: seq<C.Entry>, f: Flow)
    requires C.FirstEntry(r, l, f, false).Some? && !C.EntryIsDnat(C.FirstEntry(r, l, f, false).value)
    ensures C.FirstEntry(r, l, f, true) == C.FirstEntry(r, l, f, false)
  {
    if !C.EntryTakes(r, l[0], f) { SkipNone(r, l[1..], f); }
  }

  /** The entry that comes first drops the flow in the second phase if and only
      if it drops it and does not translate: names inside a RuleSet differ. */
  lemma FirstDrops(r: C.Renderer, t: Tree, f: Flow, rs: RuleSet, e: C.Entry)
    requires C.Faithful(r) && CleanTree(t) && rs in t.ruleSets
    requires C.FirstEntry(r, C.EntriesFor(r, t, rs.spec.rules), f, false) == Some(e)
    ensures EntryDrops(C.FirstEntry(r, C.EntriesFor(r, t, rs.spec.rules), f, true), e.rule) <==>
      e.action == Drop && !C.EntryIsDnat(e)
  {
    var rules := rs.spec.rules;
    if !C.EntryIsDnat(e) {
      SkipNone(r, C.EntriesFor(r, t, rules), f);
    } else {
      C.FirstEntryKeepsMeaning(r, t, rules, f);
      var x := FirstMatch(t, rules, f).value;
      FirstMatchSound(t, rules, f);
      C.EntryKeepsMeaning(r, t, x, f);
      FirstPolicySound(t, rules, f);
      OtherName(t, rs, x, FirstPolicy(t, rules, f));
    }
  }

  lemma {:induction false} FirstMatchSound(t: Tree, rules: seq<Rule>, f: Flow)
    requires FirstMatch(t, rules, f).Some?
    ensures FirstMatch(t, rules, f).value in rules && Matches(t, FirstMatch(t, rules, f).value, f)
  {
    if !Matches(t, rules[0], f) { FirstMatchSound(t, rules[1..], f); }
  }

  lemma OtherName(t: Tree, rs: RuleSet, x: Rule, y: Option<Rule>)
    requires RuleNamesUnique(t) && rs in t.ruleSets && x in rs.spec.rules && IsDnat(x)
    requires y.Some? ==> y.value in rs.spec.rules && !IsDnat(y.value)
    ensures y.Some? ==> y.value.name != x.name
  {
    RulesByName(t, rs);
  }

  /** The compiled RuleSet of a name. */
  lemma GovernorByName(r: C.Renderer, t: Tree, inIf: Name, outIf: Name, rs: RuleSet)
    requires CleanTree(t) && rs in t.ruleSets
    ensures var g := C.FirstForPair(C.CompiledRuleSets(r, t, t.ruleSets), inIf, outIf);
      g.Some? ==> outIf != "" && outIf != inIf && (g.value.name == rs.meta.name ==> g.value == C.CompiledOf(r, t, rs))
  {
    GovernorRead(r, t, inIf, outIf);
    GoverningSound(t, t.ruleSets, inIf, outIf);
    var g := Governing(t, t.ruleSets, inIf, outIf);
    if g.Some? {
      SideNamesNotEmpty(t, g.value.spec.to);
      if inIf == outIf {
        NoDiagonal(r, t, t.ruleSets, inIf);
      }
      if g.value.meta.name == rs.meta.name {
        RuleSetsByName(t, g.value, rs);
      }
    }
  }

  /** A flow that only the first configuration translates gets the same verdict
      if and only if another entry, which does not translate, drops it on the
      way that both take. */
  lemma TranslatedOnce(r: C.Renderer, t: Tree, u: Tree, f: Flow, k: Taker, rs: RuleSet, x: Rule, o: Name, a: Target)
    requires C.Faithful(r) && CleanTree(t) && C.PlanOf(r, t) == C.PlanOf(r, u) && IsSource(r, t, f, rs, x, k)
    ensures Translated(r, C.PlanOf(r, t).dataplane, f, k, o, a) == RoutedVerdict(u, f) <==>
      WayOf(r, C.PlanOf(r, t).dataplane, f, k, o) == Dropped && o == RouteOf(u, V4(f.dst))
  {
    var d := C.PlanOf(r, t).dataplane;
    RoutedReasons(u, f);
    TranslatedDrops(r, d, f, k, o, a, RoutedVerdict(u, f));
    var e := C.FirstEntry(r, k.c.rules, f, false);
    if e.Some? && e.value.action == Drop {
      DroppedOnce(r, t, u, f, k, rs, x, o, e.value);
    } else {
      OnlyDropsDrop(r, d, f, k, o);
    }
  }

  lemma OnlyDropsDrop(r: C.Renderer, d: C.Dataplane, f: Flow, k: Taker, o: Name)
    ensures var e := C.FirstEntry(r, k.c.rules, f, false);
      WayOf(r, d, f, k, o) == Dropped ==> e.Some? && e.value.action == Drop
  {
  }

  /** A verdict of the second phase can only be one of the drops of the first. */
  lemma TranslatedDrops(r: C.Renderer, d: C.Dataplane, f: Flow, k: Taker, o: Name, a: Target, v: Verdict)
    requires v.xdst == None && v.reason != DnatRouteMismatch && v.reason != ShadowedDnat
    ensures var e := C.FirstEntry(r, k.c.rules, f, false);
      Translated(r, d, f, k, o, a) == v <==>
        (WayOf(r, d, f, k, o).Dropped? || WayOf(r, d, f, k, o).Hidden?) && e.Some? && e.value.action == Drop &&
        v == DroppedBy(o, k.c.name, e.value.rule)
  {
  }

  lemma DroppedOnce(r: C.Renderer, t: Tree, u: Tree, f: Flow, k: Taker, rs: RuleSet, x: Rule, o: Name, e: C.Entry)
    requires C.Faithful(r) && CleanTree(t) && C.PlanOf(r, t) == C.PlanOf(r, u) && IsSource(r, t, f, rs, x, k)
    requires C.FirstEntry(r, k.c.rules, f, false) == Some(e) && e.action == Drop
    ensures var way := WayOf(r, C.PlanOf(r, t).dataplane, f, k, o);
      (way.Dropped? || way.Hidden?) && RoutedVerdict(u, f) == DroppedBy(o, k.c.name, e.rule) <==>
        way == Dropped && o == RouteOf(u, V4(f.dst))
  {
    GovernorByName(r, t, f.inIf, o, rs);
    RoutedDrops(r, u, f, o, k.c.name, e.rule);
    FirstDrops(r, t, f, rs, e);
    WaysThatDrop(r, C.PlanOf(r, t).dataplane, f, k, o, e);
  }

  lemma WaysThatDrop(r: C.Renderer, d: C.Dataplane, f: Flow, k: Taker, o: Name, e: C.Entry)
    requires C.FirstEntry(r, k.c.rules, f, false) == Some(e) && e.action == Drop
    requires EntryDrops(C.FirstEntry(r, k.c.rules, f, true), e.rule) <==> !C.EntryIsDnat(e)
    requires var g := C.FirstForPair(d.ruleSets, f.inIf, o);
      g.Some? ==> o != "" && o != f.inIf && (g.value.name == k.c.name ==> g.value == k.c)
    ensures var way := WayOf(r, d, f, k, o);
      (way.Dropped? || way.Hidden?) && DropsRouted(r, d, f, o, k.c.name, e.rule) <==> way == Dropped
  {
  }

  /** A target leads a flow to where another entry drops it, the way it would
      take by itself. */
  ghost predicate DropsEitherWay(r: C.Renderer, t: Tree, f: Flow, a: Target) {
    var d := C.PlanOf(r, t).dataplane;
    var k := TakerOf(r, d.ruleSets, f);
    && k.Some? && RouteOf(t, a.ip) == RouteOf(t, V4(f.dst))
    && WayOf(r, d, f, k.value, RouteOf(t, a.ip)) == Dropped
  }

  /** Two targets of the same entry that come to the same verdict. */
  ghost predicate AgreeOnTargets(r: C.Renderer, t: Tree, f: Flow, a: Target, b: Target) {
    var d := C.PlanOf(r, t).dataplane;
    var k := TakerOf(r, d.ruleSets, f);
    k.Some? && SameTargets(r, d, f, k.value, RouteOf(t, a.ip), a, RouteOf(t, b.ip), b)
  }

  /** What two configurations with the same sections must agree on for a flow:
      the targets of translations, or else what the second phase leaves open. */
  ghost predicate Agree(r: C.Renderer, t: Tree, u: Tree, f: Flow) {
    var (a, b) := (TargetOf(t, f), TargetOf(u, f));
    if a.Some? && b.Some? then AgreeOnTargets(r, t, f, a.value, b.value)
    else if a.Some? then DropsEitherWay(r, t, f, a.value)
    else if b.Some? then DropsEitherWay(r, t, f, b.value)
    else AgreeOnRouted(r, t, u, f)
  }

  /** The verdicts of two clean configurations with the same sections are equal,
      for each flow, if and only if they agree on what no section holds. */
  lemma EqualPlansDecide(r: C.Renderer, t: Tree, u: Tree, f: Flow)
    requires C.Faithful(r) && Proper(t) && Proper(u) && C.PlanOf(r, t) == C.PlanOf(r, u)
    ensures Decide(t, f) == Decide(u, f) <==> Agree(r, t, u, f)
  {
    var (a, b) := (TargetOf(t, f), TargetOf(u, f));
    if a.Some? && b.Some? {
      BothTranslate(r, t, u, f);
    } else if a.Some? {
      OneTranslates(r, t, u, f);
    } else if b.Some? {
      OneTranslates(r, u, t, f);
      EqualRoutes(r, t, u, b.value.ip);
      EqualRoutes(r, t, u, V4(f.dst));
    } else {
      EqualPlansRoute(r, t, u, f);
    }
  }

  lemma BothTranslate(r: C.Renderer, t: Tree, u: Tree, f: Flow)
    requires C.Faithful(r) && Proper(t) && Proper(u) && C.PlanOf(r, t) == C.PlanOf(r, u)
    requires TargetOf(t, f).Some? && TargetOf(u, f).Some?
    ensures Decide(t, f) == Decide(u, f) <==> AgreeOnTargets(r, t, f, TargetOf(t, f).value, TargetOf(u, f).value)
  {
    var (a, b) := (TargetOf(t, f).value, TargetOf(u, f).value);
    var k, _, _ := TranslationRead(r, t, f);
    var l, _, _ := TranslationRead(r, u, f);
    EqualRoutes(r, t, u, b.ip);
    TranslatedAlike(r, C.PlanOf(r, t).dataplane, f, k, RouteOf(t, a.ip), a, RouteOf(t, b.ip), b);
  }

  lemma OneTranslates(r: C.Renderer, t: Tree, u: Tree, f: Flow)
    requires C.Faithful(r) && Proper(t) && Proper(u) && C.PlanOf(r, t) == C.PlanOf(r, u)
    requires TargetOf(t, f).Some? && TargetOf(u, f).None?
    ensures Decide(t, f) == Decide(u, f) <==> DropsEitherWay(r, t, f, TargetOf(t, f).value)
  {
    var a := TargetOf(t, f).value;
    var k, rs, x := TranslationRead(r, t, f);
    EqualRoutes(r, t, u, V4(f.dst));
    TranslatedOnce(r, t, u, f, k, rs, x, RouteOf(t, a.ip), a);
  }
}
