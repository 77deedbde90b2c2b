/** The reconciler: read, validate, compile, compare with what is applied, apply.
    Its status always tells the truth about what is running. */
module Reconciler {
  import opened Prelude
  import opened Transaction

  type CommitId = string

  datatype Revision = Head | At(commit: CommitId)

  datatype State = Starting | Reconciling | InSync | Failed | Degraded

  datatype Verdict = Applied | NoOp | RolledBack | Invalid

  datatype ErrorInfo = ReadError | ValidationErrors | ApplyError(driver: Driver)

  datatype Attempt = Attempt(commit: Option<CommitId>, result: Verdict, changed: seq<Driver>, steps: seq<Step>,
                             error: Option<ErrorInfo>)

  predicate Succeeded(a: Attempt) { a.result == Applied || a.result == NoOp }

  /** The attempt on a revision that cannot be read. */
  const UNREADABLE := Attempt(None, RolledBack, [], [], Some(ReadError))

  /** What is running: the sections the drivers were given, and where they came
      from. */
  datatype Running<T, S> = Running(sections: map<Driver, S>, tree: Option<T>, commit: Option<CommitId>)

  /** The parts the loop is built from: the immutable history, the validator and
      the compiler. */
  datatype Parts<!T, !S> = Parts(repo: CommitId -> T, valid: T -> bool, section: (T, Driver) -> S)

  /** The sections are those of the configuration of the commit, which is valid;
      before the first success there are none. */
  ghost predicate Truthful<T, S>(w: Parts<T, S>, run: Running<T, S>) {
    match run.commit
    case None => run == Running(map[], None, None)
    case Some(c) =>
      && run.tree == Some(w.repo(c)) && w.valid(w.repo(c))
      && forall d :: d in run.sections && run.sections[d] == w.section(w.repo(c), d)
  }

  /** A driver must be given its section unless it has the same one already. */
  predicate Differs<T, S(==)>(w: Parts<T, S>, sections: map<Driver, S>, t: T, d: Driver) {
    !(d in sections && sections[d] == w.section(t, d))
  }

  function ChangedDrivers<T, S(==)>(w: Parts<T, S>, sections: map<Driver, S>, t: T): set<Driver> {
    set d | d in DRIVERS && Differs(w, sections, t, d)
  }

  /** How an attempt ends when some drivers have changed. */
  ghost predicate Transacted(changed: set<Driver>, faults: nat -> set<Driver>, a: Attempt) {
    (set d | d in a.changed) == changed &&
    match a.result
    case Applied => a.error == None && Outcome(StagesOf(changed), faults, a.steps, None)
    case RolledBack =>
      a.error.Some? && a.error.value.ApplyError? &&
      Outcome(StagesOf(changed), faults, a.steps, Some(a.error.value.driver))
    case _ => false
  }

  /** What an attempt at a commit reports and what is running afterwards. */
  ghost predicate Attempted<T, S>(w: Parts<T, S>, was: Running<T, S>, c: CommitId,
                                  faults: nat -> set<Driver>, a: Attempt, now: Running<T, S>)
  {
    var changed := ChangedDrivers(w, was.sections, w.repo(c));
    && a.commit == Some(c)
    && (if !w.valid(w.repo(c)) then a == Attempt(Some(c), Invalid, [], [], Some(ValidationErrors))
        else if changed == {} then a == Attempt(Some(c), NoOp, [], [], None)
        else Transacted(changed, faults, a))
    && (Succeeded(a) ==> now.commit == Some(c) && Truthful(w, now))
    && (!Succeeded(a) ==> now == was)
  }

  /** An attempt on record at a commit. */
  predicate Recorded<T, S>(w: Parts<T, S>, c: CommitId, a: Attempt) {
    a.commit == Some(c) && (Succeeded(a) ==> w.valid(w.repo(c)))
  }

  method Diff<T, S(==)>(w: Parts<T, S>, sections: map<Driver, S>, t: T) returns (changed: seq<Driver>)
    ensures (set d | d in changed) == ChangedDrivers(w, sections, t)
  {
    changed := [];
    for i := 0 to |DRIVERS|
      invariant forall d :: d in changed <==> d in DRIVERS[..i] && Differs(w, sections, t, d)
    {
      assert DRIVERS[..i + 1] == DRIVERS[..i] + [DRIVERS[i]];
      if Differs(w, sections, t, DRIVERS[i]) {
        changed := changed + [DRIVERS[i]];
      }
    }
    assert DRIVERS[..|DRIVERS|] == DRIVERS;
  }

  /** The changed drivers are given their sections. */
  method Install<T, S(==)>(w: Parts<T, S>, sections: map<Driver, S>, t: T, changed: seq<Driver>)
    returns (now: map<Driver, S>)
    requires (set d | d in changed) == ChangedDrivers(w, sections, t)
    ensures forall d :: d in now && now[d] == w.section(t, d)
  {
    now := sections;
    forall d | d in DRIVERS && d !in changed ensures !Differs(w, sections, t, d) {
      assert Differs(w, sections, t, d) ==> d in ChangedDrivers(w, sections, t);
    }
    for i := 0 to |changed|
      invariant forall d :: d in DRIVERS && d !in changed ==> !Differs(w, now, t, d)
      invariant forall k :: 0 <= k < i ==> !Differs(w, now, t, changed[k])
    {
      now := now[changed[i] := w.section(t, changed[i])];
    }
    forall d ensures d in now && now[d] == w.section(t, d) {
      EveryDriver(d);
      assert !Differs(w, now, t, d);
    }
  }

  lemma EveryDriver(d: Driver)
    ensures d in DRIVERS
  {
  }

  class Reconciler<T(==), S(==)> {
    const w: Parts<T, S>

    var state: State
    var desiredCommit: Option<CommitId>
    var appliedCommit: Option<CommitId>
    var lastKnownGood: Option<CommitId>
    var lastAttempt: Option<Attempt>
    var lastError: Option<ErrorInfo>
    var applied: map<Driver, S>
    var appliedTree: Option<T>
    var fail: set<Driver>
    var attempts: map<CommitId, Attempt>
    var published: nat

    ghost function Now(): Running<T, S>
      reads this
    {
      Running(applied, appliedTree, appliedCommit)
    }

    /** What is running is told truthfully, and so is the past. */
    ghost predicate Sound()
      reads this
    {
      && Truthful(w, Now())
      && (appliedCommit.Some? ==> lastKnownGood == appliedCommit)
      && (forall c :: c in attempts ==> Recorded(w, c, attempts[c]))
    }

    /** Holds between any two operations. */
    ghost predicate Valid()
      reads this
    {
      Sound() && (state == InSync ==> appliedCommit.Some? && desiredCommit == appliedCommit)
    }

    constructor (w: Parts<T, S>, saved: Option<CommitId>)
      ensures Valid() && this.w == w
      ensures state == Starting && Now() == Running(map[], None, None) && lastKnownGood == saved && attempts == map[]
    {
      this.w := w;
      state := Starting;
      desiredCommit, appliedCommit, lastKnownGood := None, None, saved;
      lastAttempt, lastError := None, None;
      applied, appliedTree := map[], None;
      fail, attempts, published := {}, map[], 0;
    }

    /** Fault injection; clearing a fault asks for another reconciliation. */
    method SetFault(driver: Driver, on: bool) returns (trigger: bool)
      requires Valid()
      modifies this`fail, this`published
      ensures Valid() && trigger == !on && published == old(published) + 1
      ensures fail == if on then old(fail) + {driver} else old(fail) - {driver}
    {
      fail := if on then fail + {driver} else fail - {driver};
      published := published + 1;
      trigger := !on;
    }

    method Finish(s: State, a: Attempt)
      requires Sound() && (s == InSync ==> appliedCommit.Some? && desiredCommit == appliedCommit)
      requires a.commit.Some? ==> Recorded(w, a.commit.value, a)
      modifies this`state, this`lastAttempt, this`lastError, this`attempts, this`published
      ensures Valid()
      ensures state == s && lastAttempt == Some(a) && lastError == a.error && published == old(published) + 1
      ensures attempts == if a.commit.Some? then old(attempts)[a.commit.value := a] else old(attempts)
    {
      state, lastAttempt, lastError := s, Some(a), a.error;
      if a.commit.Some? {
        attempts := attempts[a.commit.value := a];
      }
      published := published + 1;
    }

    /** One attempt. What the store answers for the revision is read, None being
        an error; faults gives the drivers set to fail at each stage. */
    method Reconcile(rev: Revision, read: Option<CommitId>, faults: nat -> set<Driver>) returns (a: Attempt)
      requires Valid()
      requires rev.At? && read.Some? ==> read.value == rev.commit
      modifies this`state, this`desiredCommit, this`appliedCommit, this`lastKnownGood, this`lastAttempt
      modifies this`lastError, this`applied, this`appliedTree, this`attempts, this`published
      ensures Valid()
      ensures lastAttempt == Some(a) && lastError == a.error && published == old(published) + 2
      ensures desiredCommit == if rev.Head? && read.Some? then read else old(desiredCommit)
      ensures read.None? ==> Now() == old(Now()) && attempts == old(attempts) && state == Degraded && a == UNREADABLE
      ensures read.Some? ==> Attempted(w, old(Now()), read.value, faults, a, Now())
      ensures read.Some? ==> attempts == old(attempts)[read.value := a]
      ensures read.Some? ==> state == if Succeeded(a) && desiredCommit == read then InSync else Failed
      ensures lastKnownGood == if Succeeded(a) then read else old(lastKnownGood)
    {
      state, published := Reconciling, published + 1;
      a := UNREADABLE.(error := None);
      if read.None? {
        a := a.(error := Some(ReadError));
        Finish(Degraded, a);
        return;
      }
      var commit := read.value;
      if rev.Head? {
        desiredCommit := Some(commit);
      }
      var now;
      a, now := Try(w, Now(), applied, commit, faults);
      if !Succeeded(a) {
        Finish(Failed, a);
        return;
      }
      Land(commit, a, now);
    }

    /** The end of a successful attempt: its commit is what runs. */
    method Land(commit: CommitId, a: Attempt, now: map<Driver, S>)
      requires Sound() && Succeeded(a) && Recorded(w, commit, a)
      requires Truthful(w, Running(now, Some(w.repo(commit)), Some(commit)))
      modifies this`state, this`appliedCommit, this`lastKnownGood, this`lastAttempt
      modifies this`lastError, this`applied, this`appliedTree, this`attempts, this`published
      ensures Valid() && Now() == Running(now, Some(w.repo(commit)), Some(commit)) && lastKnownGood == Some(commit)
      ensures state == if desiredCommit == Some(commit) then InSync else Failed
      ensures lastAttempt == Some(a) && lastError == a.error && published == old(published) + 1
      ensures attempts == old(attempts)[commit := a]
    {
      applied, appliedTree := now, Some(w.repo(commit));
      appliedCommit, lastKnownGood := Some(commit), Some(commit);
      Finish(if desiredCommit == Some(commit) then InSync else Failed, a);
    }

    /** The start: HEAD, or the last known good commit when HEAD cannot be
        applied and is another one. */
    method Boot(head: Option<CommitId>, saved: Option<CommitId>, faults: nat -> set<Driver>, later: nat -> set<Driver>)
      requires Valid() && Now() == Running(map[], None, None)
      requires saved.Some? ==> saved == lastKnownGood
      modifies this`state, this`desiredCommit, this`appliedCommit, this`lastKnownGood, this`lastAttempt
      modifies this`lastError, this`applied, this`appliedTree, this`attempts, this`published
      ensures Valid()
      ensures desiredCommit == if head.Some? then head else old(desiredCommit)
      ensures head.Some? ==> AttemptedFirst(w, head.value, faults, attempts, Now())
      ensures appliedCommit.Some? ==> appliedCommit == head || appliedCommit == old(lastKnownGood)
      ensures FallsBack(head, old(lastKnownGood), attempts) ==> FellBack(w, saved, later, attempts, Now())
      ensures !FallsBack(head, old(lastKnownGood), attempts) ==> appliedCommit.None? || appliedCommit == head
      ensures appliedCommit.Some? && appliedCommit == head ==> state == InSync
      ensures appliedCommit.Some? && appliedCommit != head ==>
        state == Failed && lastAttempt == Some(HeadAttempt(head, attempts)) && lastError == lastAttempt.value.error
    {
      var a := Reconcile(Head, head, faults);
      if a.result == Applied || a.result == NoOp || lastKnownGood.None? || lastKnownGood == a.commit {
        return;
      }
      FallBack(a, saved, later);
    }

    /** The second half of the start, after an attempt at HEAD has failed. */
    method FallBack(failed: Attempt, saved: Option<CommitId>, later: nat -> set<Driver>)
      requires Valid() && Now() == Running(map[], None, None) && lastKnownGood.Some?
      requires saved.Some? ==> saved == lastKnownGood
      modifies this`state, this`desiredCommit, this`appliedCommit, this`lastKnownGood, this`lastAttempt
      modifies this`lastError, this`applied, this`appliedTree, this`attempts, this`published
      ensures Valid() && desiredCommit == old(desiredCommit)
      ensures appliedCommit.None? || appliedCommit == old(lastKnownGood)
      ensures appliedCommit.Some? ==> state == Failed && lastAttempt == Some(failed) && lastError == failed.error
      ensures FellBack(w, saved, later, attempts, Now())
      ensures attempts == if saved.Some? then old(attempts)[saved.value := attempts[saved.value]] else old(attempts)
    {
      var lkg := Reconcile(At(lastKnownGood.value), saved, later);
      if saved.Some? {
        FirstIsNoNoOp(w, saved.value, later, lkg, Now());
      }
      if lkg.result == Applied {
        state, lastError, lastAttempt := Failed, failed.error, Some(failed);
      }
      published := published + 1;
    }
  }

  /** The attempt of a start at HEAD, on record. */
  ghost predicate AttemptedFirst<T, S>(w: Parts<T, S>, c: CommitId, faults: nat -> set<Driver>,
                                       attempts: map<CommitId, Attempt>, now: Running<T, S>)
  {
    && c in attempts
    && Attempted(w, Nothing(), c, faults, attempts[c], if Succeeded(attempts[c]) then now else Nothing())
  }

  /** Before the first success nothing is running. */
  function Nothing<T, S>(): Running<T, S> { Running(map[], None, None) }

  /** A start falls back if HEAD could not be read or applied and another
      commit is known to be good. */
  predicate FallsBack(head: Option<CommitId>, good: Option<CommitId>, attempts: map<CommitId, Attempt>) {
    good.Some? && good != head && (head.Some? && head.value in attempts ==> !Succeeded(attempts[head.value]))
  }

  /** The last known good commit is attempted when the store still has it. */
  ghost predicate FellBack<T, S>(w: Parts<T, S>, saved: Option<CommitId>, later: nat -> set<Driver>,
                                 attempts: map<CommitId, Attempt>, now: Running<T, S>)
  {
    if saved.Some? then
      saved.value in attempts && Attempted(w, Nothing(), saved.value, later, attempts[saved.value], now)
    else now == Nothing()
  }

  /** What the start reports of HEAD. */
  function HeadAttempt(head: Option<CommitId>, attempts: map<CommitId, Attempt>): Attempt {
    if head.Some? && head.value in attempts then attempts[head.value] else UNREADABLE
  }

  /** Validate, compile, compare and apply. */
  method Try<T, S(==)>(w: Parts<T, S>, ghost was: Running<T, S>, sections: map<Driver, S>, commit: CommitId,
                       faults: nat -> set<Driver>)
    returns (a: Attempt, now: map<Driver, S>)
    requires sections == was.sections
    ensures Attempted(w, was, commit, faults, a,
                      if Succeeded(a) then Running(now, Some(w.repo(commit)), Some(commit)) else was)
    ensures Recorded(w, commit, a)
    ensures Succeeded(a) ==> Truthful(w, Running(now, Some(w.repo(commit)), Some(commit)))
  {
    var tree := w.repo(commit);
    now := sections;
    a := Attempt(Some(commit), NoOp, [], [], None);
    if !w.valid(tree) {
      a := a.(result := Invalid, error := Some(ValidationErrors));
      return;
    }
    var changed := Diff(w, sections, tree);
    ghost var drivers := ChangedDrivers(w, sections, tree);
    a := a.(changed := changed);
    assert changed == [] ==> drivers == {};
    if |changed| != 0 {
      assert changed[0] in drivers;
      var steps, failed := Apply((set d | d in changed), faults);
      a := a.(steps := steps);
      if failed.Some? {
        a := a.(result := RolledBack, error := Some(ApplyError(failed.value)));
        return;
      }
      a := a.(result := Applied);
    }
    now := Install(w, sections, tree, changed);
  }

  /** The first success is never a no-op. */
  lemma FirstIsNoNoOp<T, S>(w: Parts<T, S>, c: CommitId, faults: nat -> set<Driver>, a: Attempt, now: Running<T, S>)
    requires Attempted(w, Nothing(), c, faults, a, now)
    ensures a.result != NoOp
  {
    EveryDriver(NetworkDriver);
    assert NetworkDriver in ChangedDrivers(w, map[], w.repo(c));
  }

  // ---- consequences -------------------------------------------------------------------------

  /** Without faults a valid commit is always applied. */
  lemma NoFaultApplies<T, S>(w: Parts<T, S>, was: Running<T, S>, c: CommitId,
                             faults: nat -> set<Driver>, a: Attempt, now: Running<T, S>)
    requires Attempted(w, was, c, faults, a, now) && w.valid(w.repo(c))
    requires forall k :: faults(k) == {}
    ensures Succeeded(a) && now.commit == Some(c)
  {
  }

  /** A valid commit with the sections of what is running touches no driver,
      even if all are set to fail, and becomes the applied commit. */
  lemma SameSectionsIsNoOp<T, S>(w: Parts<T, S>, was: Running<T, S>, c: CommitId,
                                 faults: nat -> set<Driver>, a: Attempt, now: Running<T, S>)
    requires Truthful(w, was) && was.commit.Some? && Attempted(w, was, c, faults, a, now) && w.valid(w.repo(c))
    requires forall d :: w.section(w.repo(c), d) == w.section(was.tree.value, d)
    ensures a.result == NoOp && a.steps == [] && now.commit == Some(c)
  {
  }

  /** A start whose HEAD cannot be applied runs the last known good commit, if
      that is valid and no driver is set to fail then. */
  lemma FallBackRuns<T, S>(w: Parts<T, S>, saved: CommitId, later: nat -> set<Driver>,
                           attempts: map<CommitId, Attempt>, now: Running<T, S>)
    requires FellBack(w, Some(saved), later, attempts, now) && w.valid(w.repo(saved))
    requires forall k :: later(k) == {}
    ensures now.commit == Some(saved) && now.tree == Some(w.repo(saved))
    ensures forall d :: d in now.sections && now.sections[d] == w.section(w.repo(saved), d)
  {
    NoFaultApplies(w, Nothing(), saved, later, attempts[saved], now);
  }
}
