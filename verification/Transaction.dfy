/** One transaction across the drivers: the stages in their fixed order, and
    the rollback of the committed stages in reverse when one fails. */
module Transaction {
  import opened Prelude

  datatype Driver = NetworkDriver | DataplaneDriver | DhcpDriver | DnsDriver

  datatype Op = Prepare | Commit | Rollback

  datatype Stage = Stage(driver: Driver, op: Op)

  datatype Step = Step(driver: Driver, op: Op, ok: bool)

  const DRIVERS := [NetworkDriver, DataplaneDriver, DhcpDriver, DnsDriver]

  /** The order of all stages. The network is committed twice: additions first,
      removals last. */
  const ALL_STAGES := [
    Stage(NetworkDriver, Prepare), Stage(DhcpDriver, Prepare), Stage(DnsDriver, Prepare),
    Stage(NetworkDriver, Commit),
    Stage(DataplaneDriver, Prepare), Stage(DataplaneDriver, Commit),
    Stage(DhcpDriver, Commit), Stage(DnsDriver, Commit),
    Stage(NetworkDriver, Commit)]

  /** The stages of the changed drivers, in order. */
  function Only(l: seq<Stage>, changed: set<Driver>): seq<Stage>
    decreases |l|, changed
  {
    if l == [] then []
    else (if l[0].driver in changed then [l[0]] else []) + Only(l[1..], changed)
  }

  function StagesOf(changed: set<Driver>): seq<Stage> { Only(ALL_STAGES, changed) }

  /** A stage fails when its driver is set to fail and it is a commit. */
  predicate Fails(s: Stage, fail: set<Driver>) { s.op == Commit && s.driver in fail }

  function Done(l: seq<Stage>): seq<Step> {
    if l == [] then [] else [Step(l[0].driver, l[0].op, true)] + Done(l[1..])
  }

  function Committed(l: seq<Stage>): seq<Driver> {
    if l == [] then [] else (if l[0].op == Commit then [l[0].driver] else []) + Committed(l[1..])
  }

  /** The rollbacks: one for each committed stage, last first. */
  function Rollbacks(committed: seq<Driver>): seq<Step> {
    if committed == [] then []
    else [Step(committed[|committed| - 1], Rollback, true)] + Rollbacks(committed[..|committed| - 1])
  }

  /** The steps when the stage at k fails. */
  function Undone(stages: seq<Stage>, k: nat): seq<Step>
    requires k < |stages|
  {
    Done(stages[..k]) + [Step(stages[k].driver, stages[k].op, false)] + Rollbacks(Committed(stages[..k]))
  }

  /** The first stage that fails, given which drivers are set to fail when each
      stage runs. */
  ghost predicate FailsFirst(stages: seq<Stage>, faults: nat -> set<Driver>, k: nat) {
    && k < |stages| && Fails(stages[k], faults(k))
    && forall j :: 0 <= j < k ==> !Fails(stages[j], faults(j))
  }

  /** How a run of stages ends: all are done, or those before the first that
      fails are undone. */
  ghost predicate Outcome(stages: seq<Stage>, faults: nat -> set<Driver>, steps: seq<Step>, failed: Option<Driver>) {
    match failed
    case None => steps == Done(stages) && forall k :: 0 <= k < |stages| ==> !Fails(stages[k], faults(k))
    case Some(d) =>
      exists k: nat :: FailsFirst(stages, faults, k) && d == stages[k].driver && steps == Undone(stages, k)
  }

  // ---- the transaction as it is programmed ----------------------------------------------

  function Each(drivers: seq<Driver>, op: Op): seq<Stage> {
    if drivers == [] then [] else [Stage(drivers[0], op)] + Each(drivers[1..], op)
  }

  lemma {:induction false} OnlyAppend(a: seq<Stage>, b: seq<Stage>, changed: set<Driver>)
    ensures Only(a + b, changed) == Only(a, changed) + Only(b, changed)
  {
    if a == [] {
      assert a + b == b;
    } else {
      assert (a + b)[0] == a[0] && (a + b)[1..] == a[1..] + b;
      OnlyAppend(a[1..], b, changed);
      Assoc(if a[0].driver in changed then [a[0]] else [], Only(a[1..], changed), Only(b, changed));
    }
  }

  method AddEach(stages: seq<Stage>, drivers: seq<Driver>, op: Op, changed: set<Driver>) returns (r: seq<Stage>)
    ensures r == stages + Only(Each(drivers, op), changed)
  {
    r := stages;
    for i := 0 to |drivers|
      invariant r + Only(Each(drivers[i..], op), changed) == stages + Only(Each(drivers, op), changed)
    {
      assert drivers[i..][0] == drivers[i] && drivers[i..][1..] == drivers[i + 1..];
      if drivers[i] in changed {
        r := r + [Stage(drivers[i], op)];
      }
    }
    assert drivers[|drivers|..] == [];
  }

  method BuildStages(changed: set<Driver>) returns (stages: seq<Stage>)
    ensures stages == StagesOf(changed)
  {
    stages := AddEach([], [NetworkDriver, DhcpDriver, DnsDriver], Prepare, changed);
    if NetworkDriver in changed {
      stages := stages + [Stage(NetworkDriver, Commit)];
    }
    if DataplaneDriver in changed {
      stages := stages + [Stage(DataplaneDriver, Prepare), Stage(DataplaneDriver, Commit)];
    }
    stages := AddEach(stages, [DhcpDriver, DnsDriver], Commit, changed);
    if NetworkDriver in changed {
      stages := stages + [Stage(NetworkDriver, Commit)];
    }
    StagesInParts(changed);
  }

  lemma StagesInParts(changed: set<Driver>)
    ensures StagesOf(changed) ==
      Only(Each([NetworkDriver, DhcpDriver, DnsDriver], Prepare), changed)
      + (if NetworkDriver in changed then [Stage(NetworkDriver, Commit)] else [])
      + (if DataplaneDriver in changed then [Stage(DataplaneDriver, Prepare), Stage(DataplaneDriver, Commit)] else [])
      + Only(Each([DhcpDriver, DnsDriver], Commit), changed)
      + (if NetworkDriver in changed then [Stage(NetworkDriver, Commit)] else [])
  {
    var a := [Stage(NetworkDriver, Prepare), Stage(DhcpDriver, Prepare), Stage(DnsDriver, Prepare)];
    var b := [Stage(NetworkDriver, Commit)];
    var c := [Stage(DataplaneDriver, Prepare), Stage(DataplaneDriver, Commit)];
    var d := [Stage(DhcpDriver, Commit), Stage(DnsDriver, Commit)];
    EachIs();
    assert ALL_STAGES == a + b + c + d + b;
    OnlyAppend(a, b, changed);
    OnlyAppend(a + b, c, changed);
    OnlyAppend(a + b + c, d, changed);
    OnlyAppend(a + b + c + d, b, changed);
    OnlyPair(c, changed);
    assert Only(b, changed) == if NetworkDriver in changed then b else [] by { assert b[1..] == []; }
  }

  lemma OnlyPair(c: seq<Stage>, changed: set<Driver>)
    requires |c| == 2 && c[0].driver == c[1].driver
    ensures Only(c, changed) == if c[0].driver in changed then c else []
  {
    assert c[1..][1..] == [];
    assert c == [c[0]] + c[1..] && c[1..] == [c[1]];
    assert Only(c[1..][1..], changed) == [];
    assert Only(c[1..], changed) == if c[1].driver in changed then [c[1]] else [];
  }

  lemma EachIs()
    ensures Each([NetworkDriver, DhcpDriver, DnsDriver], Prepare)
      == [Stage(NetworkDriver, Prepare), Stage(DhcpDriver, Prepare), Stage(DnsDriver, Prepare)]
    ensures Each([DhcpDriver, DnsDriver], Commit) == [Stage(DhcpDriver, Commit), Stage(DnsDriver, Commit)]
  {
  }

  lemma {:induction false} DoneSnoc(l: seq<Stage>, s: Stage)
    ensures Done(l + [s]) == Done(l) + [Step(s.driver, s.op, true)]
    ensures Committed(l + [s]) == Committed(l) + (if s.op == Commit then [s.driver] else [])
  {
    if l == [] {
      assert [s][1..] == [] && l + [s] == [s];
    } else {
      assert (l + [s])[1..] == l[1..] + [s];
      DoneSnoc(l[1..], s);
    }
  }

  /** The loop over the stages. While it runs, the drivers that are set to fail
      may change: faults gives them for each stage. */
  method RunStages(stages: seq<Stage>, faults: nat -> set<Driver>) returns (steps: seq<Step>, failed: Option<Driver>)
    ensures Outcome(stages, faults, steps, failed)
  {
    var committed: seq<Driver> := [];
    steps := [];
    for k := 0 to |stages|
      invariant steps == Done(stages[..k]) && committed == Committed(stages[..k])
      invariant forall j :: 0 <= j < k ==> !Fails(stages[j], faults(j))
    {
      var s := stages[k];
      assert stages[..k + 1] == stages[..k] + [s];
      DoneSnoc(stages[..k], s);
      if s.op == Commit && s.driver in faults(k) {
        steps := steps + [Step(s.driver, s.op, false)];
        var back := RollBack(committed);
        steps := steps + back;
        assert FailsFirst(stages, faults, k);
        return steps, Some(s.driver);
      }
      steps := steps + [Step(s.driver, s.op, true)];
      if s.op == Commit {
        committed := committed + [s.driver];
      }
    }
    assert stages[..|stages|] == stages;
    failed := None;
  }

  /** The transaction succeeds with all stages done, or undoes the stages before
      the first that fails. */
  method Apply(changed: set<Driver>, faults: nat -> set<Driver>) returns (steps: seq<Step>, failed: Option<Driver>)
    ensures Outcome(StagesOf(changed), faults, steps, failed)
  {
    var stages := BuildStages(changed);
    steps, failed := RunStages(stages, faults);
  }

  method RollBack(committed: seq<Driver>) returns (steps: seq<Step>)
    ensures steps == Rollbacks(committed)
  {
    steps := [];
    assert committed[..|committed|] == committed;
    for i := |committed| downto 0
      invariant steps + Rollbacks(committed[..i]) == Rollbacks(committed)
    {
      assert committed[..i + 1][..i] == committed[..i];
      steps := steps + [Step(committed[i], Rollback, true)];
    }
  }

  // ---- what the steps do to the drivers ---------------------------------------------------

  /** The state of every driver, and the snapshots in the order they were taken. */
  datatype World<S> = World(state: map<Driver, S>, taken: seq<(Driver, S)>)

  ghost predicate AllDrivers<S>(w: World<S>) { forall d :: d in w.state }

  /** A successful commit takes a snapshot and moves its driver to a new state; a
      rollback restores the last snapshot, which must be of its own driver;
      preparing and failing change nothing. */
  function Effect<S>(w: World<S>, step: Step, next: (Driver, S) -> S): Option<World<S>>
    requires AllDrivers(w)
  {
    var d := step.driver;
    match step.op
    case Prepare => Some(w)
    case Commit =>
      if !step.ok then Some(w)
      else Some(World(w.state[d := next(d, w.state[d])], w.taken + [(d, w.state[d])]))
    case Rollback =>
      if w.taken == [] || w.taken[|w.taken| - 1].0 != d then None
      else Some(World(w.state[d := w.taken[|w.taken| - 1].1], w.taken[..|w.taken| - 1]))
  }

  function Replay<S>(w: World<S>, steps: seq<Step>, next: (Driver, S) -> S): Option<World<S>>
    requires AllDrivers(w)
    decreases |steps|
  {
    if steps == [] then Some(w)
    else match Effect(w, steps[0], next)
      case None => None
      case Some(v) => Replay(v, steps[1..], next)
  }

  lemma {:induction false} ReplayAppend<S>(w: World<S>, a: seq<Step>, b: seq<Step>, next: (Driver, S) -> S)
    requires AllDrivers(w)
    ensures match Replay(w, a, next)
      case None => Replay(w, a + b, next) == None
      case Some(v) => AllDrivers(v) && Replay(w, a + b, next) == Replay(v, b, next)
    decreases |a|
  {
    if a == [] {
      assert a + b == b;
    } else {
      assert a + b == [a[0]] + (a[1..] + b);
      match Effect(w, a[0], next)
      case None =>
      case Some(v) => ReplayAppend(v, a[1..], b, next);
    }
  }

  /** Stages that were done and then rolled back leave the world as it was. */
  lemma {:induction false} UndoRestores<S>(w: World<S>, l: seq<Stage>, next: (Driver, S) -> S)
    requires AllDrivers(w)
    requires forall i :: 0 <= i < |l| ==> l[i].op != Rollback
    ensures Replay(w, Done(l), next).Some?
    ensures var v := Replay(w, Done(l), next).value;
      AllDrivers(v) && Replay(v, Rollbacks(Committed(l)), next) == Some(w)
    decreases |l|
  {
    if l != [] {
      var n := |l| - 1;
      var (front, s) := (l[..n], l[n]);
      assert l == front + [s];
      DoneSnoc(front, s);
      UndoRestores(w, front, next);
      ReplayAppend(w, Done(front), [Step(s.driver, s.op, true)], next);
      var u := Replay(w, Done(front), next).value;
      ReplayOne(u, Step(s.driver, s.op, true), next);
      UndoCommit(u, Committed(front), s.driver, next);
      assert Committed(l) == if s.op == Commit then Committed(front) + [s.driver] else Committed(front);
      assert Step(s.driver, s.op, true).op == s.op;
      assert Replay(w, Done(l), next) == Effect(u, Step(s.driver, s.op, true), next);
    }
  }

  /** Rolling back one commit undoes it, whatever is rolled back afterwards. */
  lemma UndoCommit<S>(u: World<S>, c: seq<Driver>, d: Driver, next: (Driver, S) -> S)
    requires AllDrivers(u)
    ensures Effect(u, Step(d, Commit, true), next).Some?
    ensures var v := Effect(u, Step(d, Commit, true), next).value;
      AllDrivers(v) && Replay(v, Rollbacks(c + [d]), next) == Replay(u, Rollbacks(c), next)
  {
    var v := Effect(u, Step(d, Commit, true), next).value;
    assert v.taken[..|v.taken| - 1] == u.taken;
    assert v.state[d := u.state[d]] == u.state;
    var undo := Step(d, Rollback, true);
    assert Effect(v, undo, next) == Some(u);
    assert (c + [d])[..|c|] == c;
    assert Rollbacks(c + [d]) == [undo] + Rollbacks(c);
    ReplayOne(v, undo, next);
    ReplayAppend(v, [undo], Rollbacks(c), next);
  }

  lemma ReplayOne<S>(w: World<S>, step: Step, next: (Driver, S) -> S)
    requires AllDrivers(w)
    ensures Replay(w, [step], next) == Effect(w, step, next)
  {
  }

  lemma {:induction false} OnlyMembers(l: seq<Stage>, changed: set<Driver>)
    ensures forall s :: s in Only(l, changed) <==> s in l && s.driver in changed
  {
    if l != [] {
      OnlyMembers(l[1..], changed);
      assert forall s :: s in l <==> s == l[0] || s in l[1..];
    }
  }

  lemma NoRollbackStage(changed: set<Driver>)
    ensures forall i :: 0 <= i < |StagesOf(changed)| ==> StagesOf(changed)[i].op != Rollback
  {
    OnlyMembers(ALL_STAGES, changed);
    forall i | 0 <= i < |StagesOf(changed)| ensures StagesOf(changed)[i].op != Rollback {
      assert StagesOf(changed)[i] in ALL_STAGES;
    }
  }

  /** A failed transaction restores every driver, whatever states the commits
      led to, and leaves no snapshot behind. */
  lemma FailureRestores<S>(w: World<S>, changed: set<Driver>, k: nat, next: (Driver, S) -> S)
    requires AllDrivers(w) && k < |StagesOf(changed)| && StagesOf(changed)[k].op == Commit
    ensures Replay(w, Undone(StagesOf(changed), k), next) == Some(w)
  {
    var l := StagesOf(changed);
    NoRollbackStage(changed);
    UndoRestores(w, l[..k], next);
    var failing := [Step(l[k].driver, l[k].op, false)];
    var v := Replay(w, Done(l[..k]), next).value;
    ReplayOne(v, failing[0], next);
    ReplayAppend(v, failing, Rollbacks(Committed(l[..k])), next);
    ReplayAppend(w, Done(l[..k]), failing + Rollbacks(Committed(l[..k])), next);
    assert Undone(l, k) == Done(l[..k]) + (failing + Rollbacks(Committed(l[..k])));
  }

  /** No step names a driver that has not changed. */
  lemma {:induction false} DoneDrivers(l: seq<Stage>)
    ensures forall s :: s in Done(l) ==> exists g :: g in l && g.driver == s.driver
    ensures forall d :: d in Committed(l) ==> exists g :: g in l && g.driver == d
  {
    if l != [] {
      DoneDrivers(l[1..]);
      assert forall g :: g in l <==> g == l[0] || g in l[1..];
    }
  }

  lemma {:induction false} RollbackDrivers(c: seq<Driver>)
    ensures forall s :: s in Rollbacks(c) ==> s.driver in c
  {
    if c != [] {
      RollbackDrivers(c[..|c| - 1]);
    }
  }

  /** An unchanged driver is never touched, in success or failure. */
  lemma UnchangedUntouched(changed: set<Driver>, k: nat)
    ensures forall s :: s in Done(StagesOf(changed)) ==> s.driver in changed
    ensures k < |StagesOf(changed)| ==> forall s :: s in Undone(StagesOf(changed), k) ==> s.driver in changed
  {
    var l := StagesOf(changed);
    OnlyMembers(ALL_STAGES, changed);
    DoneDrivers(l);
    if k < |l| {
      DoneDrivers(l[..k]);
      RollbackDrivers(Committed(l[..k]));
      assert l[k] in l;
    }
  }

  lemma {:induction false} OnlyCounts(l: seq<Stage>, changed: set<Driver>, s: Stage)
    ensures multiset(Only(l, changed))[s] == if s.driver in changed then multiset(l)[s] else 0
  {
    if l != [] {
      OnlyCounts(l[1..], changed, s);
      assert l == [l[0]] + l[1..];
    }
  }

  /** A success prepares every changed driver once and commits it once, the
      network twice, and does neither to a driver that has not changed. */
  lemma SuccessCommits(changed: set<Driver>, d: Driver)
    ensures multiset(StagesOf(changed))[Stage(d, Commit)] ==
      if d !in changed then 0 else if d == NetworkDriver then 2 else 1
    ensures multiset(StagesOf(changed))[Stage(d, Prepare)] == if d in changed then 1 else 0
  {
    OnlyCounts(ALL_STAGES, changed, Stage(d, Commit));
    OnlyCounts(ALL_STAGES, changed, Stage(d, Prepare));
    AllCommits(d);
    AllPrepares(d);
  }

  lemma AllCommits(d: Driver)
    ensures multiset(ALL_STAGES)[Stage(d, Commit)] == if d == NetworkDriver then 2 else 1
  {
  }

  lemma AllPrepares(d: Driver)
    ensures multiset(ALL_STAGES)[Stage(d, Prepare)] == 1
  {
  }

  /** The transaction fails if and only if a changed driver is set to fail when
      it commits, and it names the first that does. */
  lemma FaultsFail(changed: set<Driver>, faults: nat -> set<Driver>, steps: seq<Step>, failed: Option<Driver>)
    requires Outcome(StagesOf(changed), faults, steps, failed)
    ensures failed.Some? <==> exists k :: CommitsUnderFault(StagesOf(changed), faults, k)
    ensures failed.Some? ==> exists k :: FirstFaultAt(StagesOf(changed), faults, k, failed.value)
  {
    var l := StagesOf(changed);
    forall k: nat | k < |l| ensures Fails(l[k], faults(k)) <==> CommitsUnderFault(l, faults, k) {
    }
    if failed.Some? {
      var k: nat :| FailsFirst(l, faults, k) && failed.value == l[k].driver && steps == Undone(l, k);
      assert FirstFaultAt(l, faults, k, failed.value);
    }
  }

  ghost predicate CommitsUnderFault(l: seq<Stage>, faults: nat -> set<Driver>, k: int) {
    0 <= k < |l| && l[k].op == Commit && l[k].driver in faults(k)
  }

  ghost predicate FirstFaultAt(l: seq<Stage>, faults: nat -> set<Driver>, k: int, d: Driver) {
    CommitsUnderFault(l, faults, k) && l[k].driver == d && forall j :: 0 <= j < k ==> !CommitsUnderFault(l, faults, j)
  }

  /** A driver that has changed and stays set to fail makes every transaction
      fail. */
  lemma LastingFaultFails(changed: set<Driver>, faults: nat -> set<Driver>, steps: seq<Step>, failed: Option<Driver>,
                          d: Driver)
    requires Outcome(StagesOf(changed), faults, steps, failed) && d in changed && forall k :: d in faults(k)
    ensures failed.Some?
  {
    OnlyMembers(ALL_STAGES, changed);
    assert Stage(d, Commit) in ALL_STAGES by { AllCommits(d); }
    var k :| 0 <= k < |StagesOf(changed)| && StagesOf(changed)[k] == Stage(d, Commit);
    FaultsFail(changed, faults, steps, failed);
    assert CommitsUnderFault(StagesOf(changed), faults, k);
  }

  // ---- the order of the stages ------------------------------------------------------------

  lemma {:induction false} OnlyKeepsOrder(l: seq<Stage>, changed: set<Driver>, i: nat, j: nat) returns (p: nat, q: nat)
    requires i < j < |Only(l, changed)|
    ensures p < q < |l| && l[p] == Only(l, changed)[i] && l[q] == Only(l, changed)[j]
  {
    var rest := Only(l[1..], changed);
    if l[0].driver !in changed {
      p, q := OnlyKeepsOrder(l[1..], changed, i, j);
      p, q := p + 1, q + 1;
    } else if i > 0 {
      p, q := OnlyKeepsOrder(l[1..], changed, i - 1, j - 1);
      p, q := p + 1, q + 1;
    } else {
      p := 0;
      OnlyMembers(l[1..], changed);
      assert Only(l, changed)[j] == rest[j - 1] && rest[j - 1] in l[1..];
      var k :| 0 <= k < |l[1..]| && l[1..][k] == rest[j - 1];
      q := k + 1;
    }
  }

  /** What may not come before what. */
  predicate OutOfOrder(a: Stage, b: Stage) {
    || (a.op == Commit && b == Stage(a.driver, Prepare))
    || (a.op == Commit && b.op == Prepare && b.driver != DataplaneDriver)
    || b == Stage(NetworkDriver, Prepare)
    || (a.op == Commit && a.driver in {DhcpDriver, DnsDriver} && b.driver == DataplaneDriver)
    || (a.driver == DnsDriver && b == Stage(DhcpDriver, a.op))
  }

  /** No driver is committed before it is prepared, none but the data plane is
      prepared after a commit, and services change after the data plane. */
  lemma StagesInOrder(changed: set<Driver>, i: nat, j: nat)
    requires i < j < |StagesOf(changed)|
    ensures !OutOfOrder(StagesOf(changed)[i], StagesOf(changed)[j])
  {
    var p, q := OnlyKeepsOrder(ALL_STAGES, changed, i, j);
  }

  /** The network is committed before everything else, and again after it. */
  lemma NetworkAround(changed: set<Driver>, i: nat)
    requires NetworkDriver in changed && i < |StagesOf(changed)| && StagesOf(changed)[i].driver != NetworkDriver
    requires StagesOf(changed)[i].op == Commit || StagesOf(changed)[i].driver == DataplaneDriver
    ensures exists j :: 0 <= j < i && StagesOf(changed)[j] == Stage(NetworkDriver, Commit)
    ensures i < |StagesOf(changed)| - 1
    ensures StagesOf(changed)[|StagesOf(changed)| - 1] == Stage(NetworkDriver, Commit)
  {
    var l := StagesOf(changed);
    StagesInParts(changed);
    var net := [Stage(NetworkDriver, Commit)];
    var first := Only(Each([NetworkDriver, DhcpDriver, DnsDriver], Prepare), changed);
    OnlyMembers(Each([NetworkDriver, DhcpDriver, DnsDriver], Prepare), changed);
    EachIs();
    assert forall s :: s in first ==> s.op == Prepare && s.driver != DataplaneDriver;
    assert forall k :: 0 <= k < |first| ==> l[k] == first[k] && first[k] in first;
    assert l[|first|] == net[0] && l[|l| - 1] == net[0];
  }
}
