/** What the repository holds, read as configurations: the validator of this
    model fits the repository, and every commit is a clean configuration. */
module Commits {
  import opened Prelude
  import opened Findings
  import opened Model
  import opened Clean
  import opened Classify
  import opened Identifiers
  import S = Store
  import V = Validator
  import G = Guarantees

  type Files = S.Files
  type Path = S.Path

  /** How the bodies of files are read. A body has neither the name nor the
      identifiers of its object. */
  datatype Reader = Reader(
    meta: string -> Meta, text: string -> string, system: string -> SystemSpec,
    iface: string -> InterfaceSpec, zone: string -> ZoneSpec, route: string -> StaticRouteSpec,
    dhcp: string -> DhcpServerSpec, address: string -> AddressSpec, group: string -> GroupSpec,
    service: string -> ServiceSpec, ruleSet: string -> RuleSetSpec)

  function MetaOf(r: Reader, p: Path, o: S.Obj): Meta { r.meta(o.body).(name := p.name, uuid := o.uuid) }

  /** The objects of one kind, in the order of the listing. */
  function Objects<T>(r: Reader, m: Files, paths: seq<Path>, kind: string, parse: string -> T): seq<Object<T>> {
    if paths == [] then []
    else
      var p := paths[0];
      (if p in m && p.kind == kind then [Object(MetaOf(r, p, m[p]), parse(m[p].body))] else [])
      + Objects(r, m, paths[1..], kind, parse)
  }

  /** Rules with their identifiers. */
  function Identified(rules: seq<Rule>, ids: seq<(Name, string)>): seq<Rule> {
    seq(|rules|, i requires 0 <= i < |rules| => if i < |ids| then rules[i].(uuid := ids[i].1) else rules[i])
  }

  function RuleSetIn(r: Reader, p: Path, o: S.Obj): RuleSet {
    var s := r.ruleSet(o.body);
    Object(MetaOf(r, p, o), s.(rules := Identified(s.rules, o.rules)))
  }

  function RuleSets(r: Reader, m: Files, paths: seq<Path>): seq<RuleSet> {
    if paths == [] then []
    else
      var p := paths[0];
      (if p in m && p.kind == "RuleSet" then [RuleSetIn(r, p, m[p])] else []) + RuleSets(r, m, paths[1..])
  }

  /** The configuration of a tree of files. */
  function Read(r: Reader, m: Files, l: seq<Path>): Tree {
    Tree(Objects(r, m, l, "System", r.system), Objects(r, m, l, "Color", r.text),
         Objects(r, m, l, "Interface", r.iface), Objects(r, m, l, "Zone", r.zone),
         Objects(r, m, l, "StaticRoute", r.route), Objects(r, m, l, "DhcpServer", r.dhcp),
         Objects(r, m, l, "Address", r.address), Objects(r, m, l, "AddressGroup", r.group),
         Objects(r, m, l, "Service", r.service), Objects(r, m, l, "ServiceGroup", r.group),
         RuleSets(r, m, l), Objects(r, m, l, "User", r.text))
  }

  function TreeOf(s: S.Schema, r: Reader, m: Files): Tree { Read(r, m, s.list(m)) }

  /** Objects are listed by kind and name, whatever they contain. */
  ghost predicate ListsByPath(s: S.Schema) { forall m: Files, n: Files :: m.Keys == n.Keys ==> s.list(m) == s.list(n) }

  /** The findings about a tree of files: those about the shape of identifiers,
      and those of the validator about its configuration. */
  ghost predicate Judged(s: S.Schema, r: Reader, m: Files, fs: seq<Finding>) {
    exists shapes, rest :: fs == shapes + rest && ShapesJudged(s, m, shapes) && V.Judged(TreeOf(s, r, m), rest)
  }

  ghost predicate ShapesJudged(s: S.Schema, m: Files, shapes: seq<Finding>) {
    Graded(shapes) && (ErrorRules(shapes) == {} <==> S.AllFit(s, m))
  }

  /** A repository whose validator is the one of this model. */
  ghost predicate Standard(s: S.Schema, r: Reader) {
    ListsByPath(s) && S.Enumerates(s) && forall m :: Judged(s, r, m, s.validate(m))
  }

  // ---- what is read ---------------------------------------------------------------------------

  /** An object is what the file at a path holds. */
  ghost predicate Filed<T>(r: Reader, m: Files, kind: string, parse: string -> T, p: Path, o: Object<T>) {
    && p in m && p.kind == kind && o.spec == parse(m[p].body)
    && o.meta == r.meta(m[p].body).(name := p.name, uuid := m[p].uuid)
  }

  ghost predicate AllFiled<T(!new)>(r: Reader, m: Files, kind: string, parse: string -> T, l: seq<Object<T>>) {
    forall o :: o in l <==> exists p :: Filed(r, m, kind, parse, p, o)
  }

  /** The rules of a RuleSet get their identifiers by position. */
  ghost predicate FiledRules(r: Reader, m: Files, p: Path, o: RuleSet) {
    && p in m && p.kind == "RuleSet"
    && o.meta == r.meta(m[p].body).(name := p.name, uuid := m[p].uuid)
    && o.spec.(rules := []) == r.ruleSet(m[p].body).(rules := [])
    && |o.spec.rules| == |r.ruleSet(m[p].body).rules|
    && forall i :: 0 <= i < |o.spec.rules| ==> FiledRule(r.ruleSet(m[p].body).rules[i], m[p].rules, i, o.spec.rules[i])
  }

  predicate FiledRule(x: Rule, ids: seq<(Name, string)>, i: nat, y: Rule) {
    if i < |ids| then y == x.(uuid := ids[i].1) else y == x
  }

  /** The configuration of a tree has exactly the objects of its files. */
  ghost predicate HoldsFiles(r: Reader, m: Files, t: Tree) {
    && AllFiled(r, m, "System", r.system, t.system) && AllFiled(r, m, "Color", r.text, t.colors)
    && AllFiled(r, m, "Interface", r.iface, t.interfaces) && AllFiled(r, m, "Zone", r.zone, t.zones)
    && AllFiled(r, m, "StaticRoute", r.route, t.routes) && AllFiled(r, m, "DhcpServer", r.dhcp, t.dhcp)
    && AllFiled(r, m, "Address", r.address, t.addresses) && AllFiled(r, m, "AddressGroup", r.group, t.addressGroups)
    && AllFiled(r, m, "Service", r.service, t.services) && AllFiled(r, m, "ServiceGroup", r.group, t.serviceGroups)
    && AllFiled(r, m, "User", r.text, t.users)
    && forall o: RuleSet :: o in t.ruleSets <==> exists p :: FiledRules(r, m, p, o)
  }

  lemma {:induction false} ObjectsFiled<T>(r: Reader, m: Files, l: seq<Path>, kind: string, parse: string -> T,
                                           o: Object<T>)
    ensures o in Objects(r, m, l, kind, parse) <==> exists p :: p in l && Filed(r, m, kind, parse, p, o)
  {
    if l != [] {
      ObjectsFiled(r, m, l[1..], kind, parse, o);
      if l[0] in m && l[0].kind == kind {
        var x := Object(MetaOf(r, l[0], m[l[0]]), parse(m[l[0]].body));
        assert Filed(r, m, kind, parse, l[0], o) <==> o == x by { assert o == Object(o.meta, o.spec); }
        assert Objects(r, m, l, kind, parse) == [x] + Objects(r, m, l[1..], kind, parse);
      } else {
        assert Objects(r, m, l, kind, parse) == Objects(r, m, l[1..], kind, parse);
      }
      assert forall p :: p in l <==> p == l[0] || p in l[1..];
    }
  }

  lemma {:induction false} KindFiled<T(!new)>(r: Reader, m: Files, l: seq<Path>, kind: string, parse: string -> T)
    requires S.Lists(l, m)
    ensures AllFiled(r, m, kind, parse, Objects(r, m, l, kind, parse))
  {
    forall o ensures o in Objects(r, m, l, kind, parse) <==> exists p :: Filed(r, m, kind, parse, p, o) {
      ObjectsFiled(r, m, l, kind, parse, o);
    }
  }

  lemma {:induction false} RuleSetFiled(r: Reader, m: Files, p: Path, o: RuleSet)
    requires p in m && p.kind == "RuleSet"
    ensures FiledRules(r, m, p, o) <==> o == RuleSetIn(r, p, m[p])
  {
    var x := RuleSetIn(r, p, m[p]);
    if FiledRules(r, m, p, o) {
      assert o.spec.rules == x.spec.rules;
      assert o.spec == o.spec.(rules := []).(rules := x.spec.rules);
      assert x.spec == x.spec.(rules := []).(rules := x.spec.rules);
    }
  }

  lemma {:induction false} RuleSetsFiled(r: Reader, m: Files, l: seq<Path>, o: RuleSet)
    ensures o in RuleSets(r, m, l) <==> exists p :: p in l && FiledRules(r, m, p, o)
  {
    if l != [] {
      RuleSetsFiled(r, m, l[1..], o);
      if l[0] in m && l[0].kind == "RuleSet" { RuleSetFiled(r, m, l[0], o); }
      assert forall p :: p in l <==> p == l[0] || p in l[1..];
    }
  }

  lemma {:induction false} TreeHoldsFiles(s: S.Schema, r: Reader, m: Files)
    requires S.Enumerates(s)
    ensures HoldsFiles(r, m, TreeOf(s, r, m))
  {
    var l := s.list(m);
    KindFiled(r, m, l, "System", r.system);
    KindFiled(r, m, l, "Color", r.text);
    KindFiled(r, m, l, "Interface", r.iface);
    KindFiled(r, m, l, "Zone", r.zone);
    KindFiled(r, m, l, "StaticRoute", r.route);
    KindFiled(r, m, l, "DhcpServer", r.dhcp);
    KindFiled(r, m, l, "Address", r.address);
    KindFiled(r, m, l, "AddressGroup", r.group);
    KindFiled(r, m, l, "Service", r.service);
    KindFiled(r, m, l, "ServiceGroup", r.group);
    KindFiled(r, m, l, "User", r.text);
    forall o: RuleSet ensures o in RuleSets(r, m, l) <==> exists p :: FiledRules(r, m, p, o) {
      RuleSetsFiled(r, m, l, o);
    }
  }

  // ---- identifiers are not content ------------------------------------------------------------

  lemma {:induction false} ObjectsAlike<T>(r: Reader, m: Files, n: Files, l: seq<Path>, kind: string,
                                           parse: string -> T)
    requires S.SameButUuids(m, n)
    ensures Alike(Objects(r, m, l, kind, parse), Objects(r, n, l, kind, parse))
  {
    if l != [] {
      ObjectsAlike(r, m, n, l[1..], kind, parse);
      if l[0] in m { assert S.Strip(m[l[0]]) == S.Strip(n[l[0]]); }
    }
  }

  lemma RuleSetSame(r: Reader, p: Path, o: S.Obj, q: S.Obj)
    requires S.Strip(o) == S.Strip(q)
    ensures SameRuleSet(RuleSetIn(r, p, o), RuleSetIn(r, p, q))
  {
  }

  lemma {:induction false} RuleSetsSame(r: Reader, m: Files, n: Files, l: seq<Path>)
    requires S.SameButUuids(m, n)
    ensures SameRuleSets(RuleSets(r, m, l), RuleSets(r, n, l))
  {
    if l != [] {
      RuleSetsSame(r, m, n, l[1..]);
      if l[0] in m { RuleSetSame(r, l[0], m[l[0]], n[l[0]]); }
    }
  }

  /** Trees of files that differ in identifiers are configurations of the same
      content. */
  lemma SameRead(r: Reader, m: Files, n: Files, l: seq<Path>)
    requires S.SameButUuids(m, n)
    ensures SameContent(Read(r, m, l), Read(r, n, l))
  {
    ObjectsAlike(r, m, n, l, "System", r.system);
    ObjectsAlike(r, m, n, l, "Color", r.text);
    ObjectsAlike(r, m, n, l, "Interface", r.iface);
    ObjectsAlike(r, m, n, l, "Zone", r.zone);
    ObjectsAlike(r, m, n, l, "StaticRoute", r.route);
    ObjectsAlike(r, m, n, l, "DhcpServer", r.dhcp);
    ObjectsAlike(r, m, n, l, "Address", r.address);
    ObjectsAlike(r, m, n, l, "AddressGroup", r.group);
    ObjectsAlike(r, m, n, l, "Service", r.service);
    ObjectsAlike(r, m, n, l, "ServiceGroup", r.group);
    ObjectsAlike(r, m, n, l, "User", r.text);
    RuleSetsSame(r, m, n, l);
  }

  // ---- what the repository needs of its validator ----------------------------------------------

  lemma NoErrorsByRules(l: seq<Finding>)
    ensures S.Errors(l) == [] <==> ErrorRules(l) == {}
  {
    forall e ensures e in S.Errors(l) <==> e in l && e.severity == Error {
      S.ErrorsMembers(l, e);
    }
    assert S.Errors(l) != [] ==> S.Errors(l)[0] in S.Errors(l) && S.Errors(l)[0].rule in ErrorRules(l);
  }

  lemma JudgedMeans(s: S.Schema, r: Reader, m: Files)
    requires Judged(s, r, m, s.validate(m))
    ensures S.IsValid(s, m) <==> V.Accepted(TreeOf(s, r, m)) && S.AllFit(s, m)
    ensures Graded(s.validate(m))
  {
    var shapes, rest :| s.validate(m) == shapes + rest && ShapesJudged(s, m, shapes) && V.Judged(TreeOf(s, r, m), rest);
    RulesAppend(shapes, rest);
    NoErrorsByRules(s.validate(m));
  }

  /** The validator meets what the repository relies on: a tree of files is
      valid if and only if its configuration is accepted and its identifiers
      have their shape, each rule has one severity, and identifiers do not count
      otherwise. */
  lemma StandardIsCareful(s: S.Schema, r: Reader)
    requires Standard(s, r)
    ensures forall m :: S.IsValid(s, m) <==> V.Accepted(TreeOf(s, r, m)) && S.AllFit(s, m)
    ensures S.RulesApart(s) && S.IgnoresUuids(s)
  {
    forall m
      ensures S.IsValid(s, m) <==> V.Accepted(TreeOf(s, r, m)) && S.AllFit(s, m)
      ensures Graded(s.validate(m))
    {
      JudgedMeans(s, r, m);
    }
    forall m, n | S.SameButUuids(m, n) && S.AllFit(s, m) && S.AllFit(s, n)
      ensures S.IsValid(s, m) <==> S.IsValid(s, n)
    {
      SameRead(r, m, n, s.list(m));
      AcceptedByContent(TreeOf(s, r, m), TreeOf(s, r, n));
    }
  }

  // ---- every commit is clean ------------------------------------------------------------------

  ghost predicate Named(m: Files) { forall p :: p in m ==> p.name != "" }

  lemma {:induction false} ObjectsNamed<T>(r: Reader, m: Files, l: seq<Path>, kind: string, parse: string -> T)
    requires Named(m)
    ensures "" !in Names(Objects(r, m, l, kind, parse))
  {
    if l != [] {
      ObjectsNamed(r, m, l[1..], kind, parse);
      var rest := Objects(r, m, l[1..], kind, parse);
      assert forall i :: 0 <= i < |rest| ==> rest[i].meta.name == Names(rest)[i];
    }
  }

  lemma ReadNamed(r: Reader, m: Files, l: seq<Path>)
    requires Named(m)
    ensures NamesNotEmpty(Read(r, m, l))
  {
    ObjectsNamed(r, m, l, "Interface", r.iface);
    ObjectsNamed(r, m, l, "Zone", r.zone);
    ObjectsNamed(r, m, l, "Address", r.address);
    ObjectsNamed(r, m, l, "AddressGroup", r.group);
  }

  /** The operations a client can ask for name their objects, and what is fresh
      in them has its shape. */
  ghost predicate OpFits(s: S.Schema, op: S.Op) { OpNamed(op) && S.Fresh(s, op) }

  ghost predicate OpNamed(op: S.Op) {
    match op
    case Mutating(_, req, _) => req.path.name != ""
    case Importing(_, incoming, _) => Named(incoming)
    case Reverting(_) => true
  }

  ghost predicate AllNamed(h: seq<Files>) { forall i :: 0 <= i < |h| ==> Named(h[i]) }

  lemma NextNamed(s: S.Schema, h: seq<Files>, op: S.Op)
    requires h != [] && S.Enumerates(s) && AllNamed(h) && OpNamed(op)
    ensures AllNamed(S.Next(s, h, op))
  {
    var head := h[|h| - 1];
    var out := S.Outcome(s, h, op);
    match op
    case Mutating(base, req, newId) =>
      if out.Ok? {
        S.MutationOutcome(s, h, base, req, newId);
        forall p | p in out.value ensures p.name != "" {
          assert p != req.path ==> S.At(out.value, p) == S.At(head, p);
        }
      }
    case Importing(base, incoming, newId) =>
      if out.Ok? {
        S.ImportOutcome(s, h, base, incoming, newId);
        assert S.Replaces(s, incoming, newId, head, out.value);
      }
    case Reverting(rev) =>
  }

  lemma {:induction false} HistoryNamed(s: S.Schema, h: seq<Files>, ops: seq<S.Op>)
    requires h != [] && S.Enumerates(s) && AllNamed(h) && forall i :: 0 <= i < |ops| ==> OpNamed(ops[i])
    ensures AllNamed(S.History(s, h, ops))
    decreases |ops|
  {
    if ops != [] {
      NextNamed(s, h, ops[0]);
      HistoryNamed(s, S.Next(s, h, ops[0]), ops[1..]);
    }
  }

  /** From an accepted factory default, every commit that any run of mutations,
      imports and reverts reaches is accepted and clean. */
  lemma EveryCommitIsClean(s: S.Schema, r: Reader, factory: Files, ops: seq<S.Op>, i: nat)
    requires Standard(s, r) && Named(factory) && S.AllFit(s, factory) && V.Accepted(TreeOf(s, r, factory))
    requires forall k :: 0 <= k < |ops| ==> OpFits(s, ops[k])
    requires i < |S.History(s, [factory], ops)|
    ensures V.Accepted(TreeOf(s, r, S.History(s, [factory], ops)[i]))
    ensures CleanTree(TreeOf(s, r, S.History(s, [factory], ops)[i]))
  {
    StandardIsCareful(s, r);
    CommitIsValid(s, factory, ops, i);
    ValidIsClean(s, r, S.History(s, [factory], ops)[i]);
  }

  lemma CommitIsValid(s: S.Schema, factory: Files, ops: seq<S.Op>, i: nat)
    requires S.Enumerates(s) && S.RulesApart(s) && S.IgnoresUuids(s) && S.IsValid(s, factory) && Named(factory)
    requires forall k :: 0 <= k < |ops| ==> OpFits(s, ops[k])
    requires i < |S.History(s, [factory], ops)|
    ensures S.IsValid(s, S.History(s, [factory], ops)[i]) && Named(S.History(s, [factory], ops)[i])
  {
    S.HistoryIsCareful(s, [factory], ops);
    HistoryNamed(s, [factory], ops);
  }

  lemma ValidIsClean(s: S.Schema, r: Reader, m: Files)
    requires Standard(s, r) && S.IsValid(s, m) && Named(m)
    ensures V.Accepted(TreeOf(s, r, m)) && CleanTree(TreeOf(s, r, m))
  {
    StandardIsCareful(s, r);
    ReadNamed(r, m, s.list(m));
    V.AcceptedIsClean(TreeOf(s, r, m));
  }

  /** So no commit ever leaves a verdict to the order of its lists. */
  lemma CommitsAreUnambiguous(s: S.Schema, r: Reader, factory: Files, ops: seq<S.Op>, i: nat, u: Tree, f: Flow)
    requires Standard(s, r) && Named(factory) && S.AllFit(s, factory) && V.Accepted(TreeOf(s, r, factory))
    requires forall k :: 0 <= k < |ops| ==> OpFits(s, ops[k])
    requires i < |S.History(s, [factory], ops)| && G.Reordered(TreeOf(s, r, S.History(s, [factory], ops)[i]), u)
    ensures Decide(TreeOf(s, r, S.History(s, [factory], ops)[i]), f) == Decide(u, f)
  {
    EveryCommitIsClean(s, r, factory, ops, i);
    G.OrderIndependent(TreeOf(s, r, S.History(s, [factory], ops)[i]), u, f);
  }
}
