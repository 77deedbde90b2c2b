/** The parts together: the reconciler with the validator that decides what is
    accepted and the compiler that makes the sections. */
module Appliance {
  import opened Prelude
  import opened Model
  import opened Findings
  import opened Matching
  import opened Routing
  import opened Classify
  import opened Clean
  import opened Transaction
  import C = Compile
  import E = EqualPlans
  import J = Joined
  import P = Protocol
  import R = Reconciler
  import V = Validator

  datatype Section = NetworkSection(n: C.Network) | DataplaneSection(d: C.Dataplane)
                   | DhcpSection(l: seq<DhcpServerSpec>) | DnsSection(s: C.Dns)

  function SectionOf(p: C.Plan, d: Driver): Section {
    match d
    case NetworkDriver => NetworkSection(p.network)
    case DataplaneDriver => DataplaneSection(p.dataplane)
    case DhcpDriver => DhcpSection(p.dhcp)
    case DnsDriver => DnsSection(p.dns)
  }

  /** A reconciler that validates and compiles as the other modules do. */
  ghost predicate Standard(r: C.Renderer, w: R.Parts<Tree, Section>) { Validates(w) && Compiles(r, w) }

  ghost predicate Validates(w: R.Parts<Tree, Section>) { forall t :: w.valid(t) <==> V.Accepted(t) }

  ghost predicate Compiles(r: C.Renderer, w: R.Parts<Tree, Section>) {
    forall t, d :: w.section(t, d) == SectionOf(C.PlanOf(r, t), d)
  }

  /** What the reconciler computes about a configuration before it compares:
      whether it is accepted, and its sections. */
  method Check(t: Tree) returns (ok: bool)
    ensures ok <==> V.Accepted(t)
  {
    var checker := new V.Checker(t);
    checker.Validate();
    ok := ErrorRules(checker.out) == {};
  }

  method Sections(r: C.Renderer, t: Tree) returns (sections: map<Driver, Section>)
    ensures forall d :: d in sections && sections[d] == SectionOf(C.PlanOf(r, t), d)
  {
    var plan, _ := C.Compile(r, t);
    sections := Split(plan);
  }

  method Split(plan: C.Plan) returns (sections: map<Driver, Section>)
    ensures forall d :: d in sections && sections[d] == SectionOf(plan, d)
  {
    sections := map[];
    for i := 0 to |DRIVERS|
      invariant forall k :: 0 <= k < i ==> DRIVERS[k] in sections && sections[DRIVERS[k]] == SectionOf(plan, DRIVERS[k])
    {
      sections := sections[DRIVERS[i] := SectionOf(plan, DRIVERS[i])];
    }
    forall d ensures d in sections && sections[d] == SectionOf(plan, d) {
      R.EveryDriver(d);
    }
  }

  /** A commit that changes only what no section sees touches no driver and is
      applied, even if every driver is set to fail. */
  lemma MetadataCommitIsNoOp(r: C.Renderer, w: R.Parts<Tree, Section>, was: R.Running<Tree, Section>, c: R.CommitId,
                             faults: nat -> set<Driver>, a: R.Attempt, now: R.Running<Tree, Section>)
    requires Standard(r, w) && R.Truthful(w, was) && was.commit.Some?
    requires R.Attempted(w, was, c, faults, a, now)
    requires V.Accepted(w.repo(c)) && C.Erase(w.repo(c)) == C.Erase(was.tree.value)
    ensures a.result == R.NoOp && a.steps == [] && now.commit == Some(c)
  {
    C.MetadataIsNoOp(r, w.repo(c), was.tree.value);
    R.SameSectionsIsNoOp(w, was, c, faults, a, now);
  }

  lemma RunningIsClean(r: C.Renderer, w: R.Parts<Tree, Section>, run: R.Running<Tree, Section>)
    requires Standard(r, w) && R.Truthful(w, run) && run.commit.Some? && NamesNotEmpty(run.tree.value)
    ensures CleanTree(run.tree.value)
  {
    V.AcceptedIsClean(run.tree.value);
  }

  lemma RunningSection(r: C.Renderer, w: R.Parts<Tree, Section>, run: R.Running<Tree, Section>)
    requires Compiles(r, w) && R.Truthful(w, run) && run.commit.Some?
    ensures DataplaneDriver in run.sections
    ensures run.sections[DataplaneDriver] == DataplaneSection(C.PlanOf(r, run.tree.value).dataplane)
  {
  }

  /** What is running decides like the classifier: the section the data plane
      was given agrees, for every flow that leaves by another Interface, with
      the second phase on the configuration of the applied commit. */
  lemma RunningDecides(r: C.Renderer, w: R.Parts<Tree, Section>, run: R.Running<Tree, Section>, f: Flow)
    requires C.Faithful(r) && Compiles(r, w) && R.Truthful(w, run) && run.commit.Some?
    requires RouteOf(run.tree.value, V4(f.dst)) != "" && RouteOf(run.tree.value, V4(f.dst)) != f.inIf
    ensures DataplaneDriver in run.sections && run.sections[DataplaneDriver].DataplaneSection?
    ensures C.Agrees(r, run.sections[DataplaneDriver].d, run.tree.value, f)
  {
    RunningSection(r, w, run);
    C.CompilationKeepsMeaning(r, run.tree.value, f);
  }
  /** The whole way of a commit, over every run: at rest, if HEAD could be read,
      is accepted and met no fault at its last attempt, the section the data
      plane was given decides flows as the classifier does on HEAD. */
  lemma RestDecides(r: C.Renderer, w: R.Parts<Tree, Section>, id: J.Naming, js: seq<J.Joint<Tree, Section>>,
                    es: seq<P.Event>, f: Flow)
    requires C.Faithful(r) && Standard(r, w) && J.Runs(w, id, js, es)
    requires var s := js[|es|].p; P.Quiet(s) && !s.missed
    requires var j := js[|es|]; j.p.head in j.calm && j.calm[j.p.head] && V.Accepted(w.repo(id(j.p.head)))
    requires E.Exits(w.repo(id(js[|es|].p.head)), f)
    ensures js[|es|].p.rec.status == R.InSync
    ensures var sections := js[|es|].run.sections;
      DataplaneDriver in sections && sections[DataplaneDriver].DataplaneSection? &&
      C.Agrees(r, sections[DataplaneDriver].d, w.repo(id(js[|es|].p.head)), f)
  {
    J.RestIsInSync(w, id, js, es);
    J.RunJoins(w, id, js, es, |es|);
    RunningDecides(r, w, js[|es|].run, f);
  }
}
