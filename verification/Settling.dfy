/** Two consequences of the commit protocol: the program always comes to rest,
    and a caller that waits for a superseded commit may be left sleeping, with
    the exact condition under which it is not. */
module Settling {
  import opened Prelude
  import opened Protocol
  import R = Reconciler

  // ---- the loop always comes to rest --------------------------------------------------------

  /** Steps of the program itself, as opposed to commits, triggers, published
      faults and callers. */
  predicate Internal(e: Event) {
    e.Notify? || e.NotifyFails? || e.ForwardTake? || e.ForwardTrigger? || e.TakeTrigger? || e.Enter? || e.ReadOk?
    || e.ReadFails? || e.Desire? || e.Finish? || e.EndBoot?
  }

  function Left(l: Loop): nat {
    match l
    case NotRunning => 0
    case Idle => 0
    case EndingBoot(_) => 1
    case Working(r, _) => 2 + Fallbacks(r)
    case Failing(r) => 2 + Fallbacks(r)
    case Got(r, _) => 3 + Fallbacks(r)
    case Reading(r) => 4 + Fallbacks(r)
    case Entering(r) => 5 + Fallbacks(r)
  }

  function Fallbacks(r: Round): nat { if r.BootHead? then 5 else 0 }

  /** How far the program is from rest. */
  function Distance(s: State): nat {
    (if s.committing then 40 else 0) + (if s.queued then 30 else 0) + (if s.forwarding then 20 else 0)
    + (if s.triggered then 10 else 0) + Left(s.loop)
  }

  /** A step the program can take. */
  function Step(s: State): Event {
    if s.committing then Notify
    else if s.forwarding then ForwardTrigger
    else if s.queued then ForwardTake
    else match s.loop
      case Entering(_) => Enter
      case Reading(_) => ReadOk
      case Got(_, _) => Desire
      case Working(_, _) => Finish(true)
      case Failing(_) => Finish(false)
      case EndingBoot(_) => EndBoot
      case _ => TakeTrigger
  }

  lemma OthersCloser(s: State, e: Event)
    requires Internal(e)
    ensures StoreNext(s, e).Some? ==> Distance(StoreNext(s, e).value) < Distance(s)
    ensures RunNext(s, e).Some? ==> Distance(RunNext(s, e).value) < Distance(s)
  {
  }

  lemma ReadCloser(s: State, e: Event)
    requires ReadNext(s, e).Some?
    ensures Distance(ReadNext(s, e).value) < Distance(s)
  {
  }

  lemma AttemptCloser(s: State, e: Event)
    requires AttemptNext(s, e).Some?
    ensures Distance(AttemptNext(s, e).value) < Distance(s)
  {
    if s.loop.Working? { AfterCloser(s.loop.r, Some(s.loop.c), e.ok, s.rec.good); }
    if s.loop.Failing? { AfterCloser(s.loop.r, None, false, s.rec.good); }
  }

  lemma AfterCloser(r: Round, c: Option<Commit>, ok: bool, good: Option<Commit>)
    ensures Left(After(r, c, ok, good)) < 2 + Fallbacks(r)
  {
  }

  /** Every step of the program brings it closer to rest, and until it rests
      some step can be taken: between two outside events it always settles. */
  lemma Settles(s: State, e: Event)
    ensures Internal(e) && Next(s, e).Some? ==> Distance(Next(s, e).value) < Distance(s)
    ensures s.loop != NotRunning && !Quiet(s) ==> Internal(Step(s)) && Next(s, Step(s)).Some?
  {
    if Internal(e) { OthersCloser(s, e); }
    if ReadNext(s, e).Some? { ReadCloser(s, e); }
    if AttemptNext(s, e).Some? { AttemptCloser(s, e); }
    if s.loop != NotRunning && !Quiet(s) { StepPossible(s); }
  }

  lemma StepPossible(s: State)
    requires s.loop != NotRunning && !Quiet(s)
    ensures Internal(Step(s)) && Next(s, Step(s)).Some?
  {
  }

  lemma QuietSeen(s: State)
    requires Inv(s) && Quiet(s) && !s.missed
    ensures s.rec.desired == Some(s.head) && s.head in s.rec.attempts
  {
  }

  lemma StepSucceeds(s: State)
    requires s.loop != NotRunning && !Quiet(s)
    ensures Succeeds(Step(s)) && Next(s, Step(s)).Some?
    ensures var t := Next(s, Step(s)).value; t.head == s.head && t.loop != NotRunning && (!s.missed ==> !t.missed)
  {
    Settles(s, Step(s));
    ProgramStep(s, Step(s));
    if ReadNext(s, Step(s)).Some? && !s.missed { ReadOkSees(s); }
  }

  lemma ReadOkSees(s: State)
    requires ReadNext(s, Step(s)).Some? && !s.missed
    ensures !ReadNext(s, Step(s)).value.missed
  {
  }

  /** From every state in which the loop has started there is a run of the
      program alone, in which reads succeed, that ends at rest with HEAD
      attempted. */
  lemma {:induction false} ComesToRest(s: State) returns (es: seq<Event>, t: State)
    requires Inv(s) && s.loop != NotRunning
    ensures Run(s, es) == Some(t) && Quiet(t) && t.head == s.head && Inv(t)
    ensures !s.missed ==> !t.missed && t.rec.desired == Some(t.head) && t.head in t.rec.attempts
    ensures forall k :: 0 <= k < |es| ==> Succeeds(es[k])
    decreases Distance(s)
  {
    if Quiet(s) {
      es, t := [], s;
      if !s.missed { QuietSeen(s); }
    } else {
      var e := Step(s);
      Settles(s, e);
      NextKeeps(s, e);
      StepSucceeds(s);
      var rest;
      rest, t := ComesToRest(Next(s, e).value);
      es := [e] + rest;
    }
  }

  // ---- a superseded commit ------------------------------------------------------------------

  lemma Reach(s: State, e: Event) returns (t: State)
    requires Reachable(s) && Next(s, e).Some?
    ensures Reachable(t) && Next(s, e) == Some(t)
  {
    t := Next(s, e).value;
    Reached(s, e, t);
  }

  /** A record of one success, HEAD. */
  function InSyncAt(c: Commit, attempts: map<Commit, bool>): Record {
    Record(R.InSync, Some(c), Some(c), Some(c), attempts[c := true])
  }

  lemma ReadHead(s: State, r: Round) returns (t: State)
    requires Reachable(s) && s.loop == Entering(r) && ReadsHead(r)
    ensures Reachable(t)
    ensures t ==
      s.(loop := Got(r, s.head), rec := s.rec.(status := R.Reconciling), epoch := s.epoch + 1, missed := false)
  {
    t := Reach(s, Enter);
    t := Reach(t, ReadOk);
  }

  lemma AttemptHead(s: State, r: Round, c: Commit) returns (t: State)
    requires Reachable(s) && s.loop == Got(r, c) && ReadsHead(r)
    ensures Reachable(t)
    ensures t == s.(loop := Idle, rec := InSyncAt(c, s.rec.attempts), epoch := s.epoch + 1)
  {
    t := Reach(s, Desire);
    t := Reach(t, Finish(true));
  }

  /** The loop reads HEAD and applies it, nothing else happening. */
  lemma WholeRound(s: State, r: Round) returns (t: State)
    requires Reachable(s) && s.loop == Entering(r) && ReadsHead(r)
    ensures Reachable(t)
    ensures t == s.(loop := Idle, rec := InSyncAt(s.head, s.rec.attempts), epoch := s.epoch + 2, missed := false)
  {
    t := ReadHead(s, r);
    t := AttemptHead(t, r, s.head);
  }

  /** The first start of all: there is no last known good commit. */
  lemma Starts() returns (s: State)
    ensures Reachable(s)
    ensures s == Init(0, None).(subscribed := true, loop := Entering(BootHead))
  {
    assert Leads(0, None, [], Init(0, None));
    s := Reach(Init(0, None), Subscribe);
    s := Reach(s, Boot);
  }

  lemma Started() returns (s: State)
    ensures Reachable(s)
    ensures s == Init(0, None).(subscribed := true, loop := Idle, rec := InSyncAt(0, map[]), epoch := 2)
  {
    s := Starts();
    s := WholeRound(s, BootHead);
  }

  /** Commit 1 is made and waited for; commit 2 is made before the loop runs. */
  lemma Overtaken(s: State) returns (t: State)
    requires Reachable(s) && s.head == 0 && s.subscribed && !s.committing && s.waiters == map[] && 1 !in s.rec.attempts
    ensures Reachable(t)
    ensures t == s.(head := 2, queued := true, waiters := map[0 := Blocked(1, s.epoch)])
  {
    t := CommitMade(s);
    t := Reach(t, StartWait(0, 1));
    t := Reach(t, Look(0));
    t := CommitMade(t);
  }

  /** A commit is made and notified. */
  lemma CommitMade(s: State) returns (t: State)
    requires Reachable(s) && s.subscribed && !s.committing
    ensures Reachable(t) && t == s.(head := s.head + 1, queued := true)
  {
    t := Reach(s, MoveHead);
    t := Reach(t, Notify);
  }

  /** The newer commit reaches the loop. */
  lemma Delivered(s: State) returns (t: State)
    requires Reachable(s) && s.queued && !s.forwarding && s.loop == Idle
    ensures Reachable(t) && t == s.(queued := false, triggered := false, loop := Entering(Regular))
  {
    t := Reach(s, ForwardTake);
    t := Reach(t, ForwardTrigger);
    t := Reach(t, TakeTrigger);
  }

  /** A caller that waits for a commit is not told when a newer one supersedes
      it: in a reachable state everything is at rest and in sync, commit 2 has
      been applied, and the caller that waits for commit 1 sleeps on the open
      channel. */
  lemma SupersededSleeps() returns (s: State)
    ensures Reachable(s) && Quiet(s) && !s.missed && s.head == 2 && s.rec == InSyncAt(2, map[0 := true])
    ensures 0 in s.waiters && s.waiters[0] == Blocked(1, s.epoch) && 1 !in s.rec.attempts
  {
    s := Started();
    s := Overtaken(s);
    s := Delivered(s);
    s := WholeRound(s, Regular);
    s := LooksAgain(s, 0, 1);
  }

  /** A caller is woken and looks, in vain. */
  lemma LooksAgain(s: State, id: nat, c: Commit) returns (t: State)
    requires Reachable(s) && id in s.waiters && s.waiters[id].Blocked? && s.waiters[id].c == c
    requires s.waiters[id].epoch != s.epoch && c !in s.rec.attempts
    ensures Reachable(t) && t == s.(waiters := s.waiters[id := Blocked(c, s.epoch)])
  {
    t := Reach(s, Wake(id));
    t := Reach(t, Look(id));
    assert t.waiters == s.waiters[id := Blocked(c, s.epoch)];
  }

  /** The same while the start is still at its first commit: nothing will ever
      attempt commit 1. */
  lemma SupersededAtStart() returns (s: State)
    ensures Reachable(s) && s.loop == Got(BootHead, 0) && s.head == 2 && s.waiters == map[0 := Blocked(1, s.epoch)]
    ensures Lost(s, 1)
  {
    s := Starts();
    s := ReadHead(s, BootHead);
    s := Overtaken(s);
  }

  // ---- when a caller returns ----------------------------------------------------------------

  /** The loop has a commit in hand that it will attempt unless a read fails. */
  predicate InHand(l: Loop, c: Commit) {
    ((l.Got? || l.Working?) && l.c == c) || ((l.Entering? || l.Reading?) && l.r == Fallback(c))
  }

  predicate Sure(s: State, c: Commit) { c in s.rec.attempts || InHand(s.loop, c) }

  /** The start is not past the point where it may fall back. */
  predicate Starting(l: Loop) {
    l.NotRunning? || ((l.Entering? || l.Reading? || l.Got? || l.Working? || l.Failing?) && l.r == BootHead)
  }

  /** What a caller can tell beforehand: the commit has an attempt or is being
      attempted, it is HEAD, or it is the last known good commit and the start
      may still fall back to it. */
  predicate CanBeAttempted(s: State, c: Commit) {
    Sure(s, c) || c == s.head || (Starting(s.loop) && s.rec.good == Some(c))
  }

  /** A superseded commit that is out of the loop's hands. */
  predicate Lost(s: State, c: Commit) { c < s.head && !CanBeAttempted(s, c) }

  ghost predicate LostIn(o: Option<State>, c: Commit) { o.Some? ==> Lost(o.value, c) }

  lemma LostStays(s: State, e: Event, c: Commit)
    requires Lost(s, c) && Next(s, e).Some?
    ensures LostIn(Next(s, e), c)
  {
    Dispatch(s, e);
    LostInRead(s, e, c);
    LostInAttempt(s, e, c);
    LostOutside(s, e, c);
  }

  lemma LostOutside(s: State, e: Event, c: Commit)
    requires Lost(s, c)
    ensures LostIn(StoreNext(s, e), c) && LostIn(RunNext(s, e), c) && LostIn(WaitNext(s, e), c)
  {
  }

  lemma LostInRead(s: State, e: Event, c: Commit)
    requires Lost(s, c)
    ensures LostIn(ReadNext(s, e), c)
  {
  }

  lemma LostInAttempt(s: State, e: Event, c: Commit)
    requires Lost(s, c)
    ensures LostIn(AttemptNext(s, e), c)
  {
  }

  /** Once lost, a commit is never attempted, whatever happens. */
  lemma {:induction false} LostForever(s: State, es: seq<Event>, c: Commit)
    requires Lost(s, c) && Run(s, es).Some?
    ensures Lost(Run(s, es).value, c)
    decreases |es|
  {
    if es != [] {
      LostStays(s, es[0], c);
      LostForever(Next(s, es[0]).value, es[1..], c);
    }
  }

  ghost predicate SureIn(o: Option<State>, c: Commit) { o.Some? ==> Sure(o.value, c) }

  lemma SureStays(s: State, e: Event, c: Commit)
    requires Sure(s, c) && Next(s, e).Some? && e != ReadFails
    ensures SureIn(Next(s, e), c)
  {
    Dispatch(s, e);
    SureOutside(s, e, c);
    SureInRead(s, e, c);
    SureInAttempt(s, e, c);
  }

  lemma SureOutside(s: State, e: Event, c: Commit)
    requires Sure(s, c)
    ensures SureIn(StoreNext(s, e), c) && SureIn(RunNext(s, e), c) && SureIn(WaitNext(s, e), c)
  {
  }

  lemma SureInRead(s: State, e: Event, c: Commit)
    requires Sure(s, c) && e != ReadFails
    ensures SureIn(ReadNext(s, e), c)
  {
  }

  lemma SureInAttempt(s: State, e: Event, c: Commit)
    requires Sure(s, c)
    ensures SureIn(AttemptNext(s, e), c)
  {
  }

  /** HEAD will be read, or its last read was good. */
  predicate Due(s: State) {
    || (s.committing && s.subscribed) || s.queued || s.forwarding || s.triggered || WillRead(s.loop)
    || !s.missed
  }

  lemma DueStays(s: State, e: Event)
    requires Due(s) && Next(s, e).Some? && e != ReadFails && e != NotifyFails
    requires s.subscribed || s.loop == NotRunning
    ensures Due(Next(s, e).value)
  {
  }

  /** A step of the program that does not fail. */
  predicate Succeeds(e: Event) { Internal(e) && e != NotifyFails && e != ReadFails }

  lemma ProgramStep(s: State, e: Event)
    requires Internal(e) && Next(s, e).Some?
    ensures Next(s, e).value.waiters == s.waiters && Next(s, e).value.head == s.head
    ensures s.loop != NotRunning ==> Next(s, e).value.loop != NotRunning
  {
    if ReadNext(s, e).Some? { ReadStep(s, e); }
    if AttemptNext(s, e).Some? { AttemptStep(s, e); }
  }

  ghost predicate OnlyLoop(s: State, t: State) {
    t.waiters == s.waiters && t.head == s.head && (s.loop != NotRunning ==> t.loop != NotRunning)
  }

  lemma ReadStep(s: State, e: Event)
    requires ReadNext(s, e).Some?
    ensures OnlyLoop(s, ReadNext(s, e).value)
  {
  }

  lemma AttemptStep(s: State, e: Event)
    requires AttemptNext(s, e).Some?
    ensures OnlyLoop(s, AttemptNext(s, e).value)
  {
  }

  /** Whichever way the program takes to rest, if nothing fails on it every
      commit in hand has been attempted, HEAD too if it was due to be read, and
      no caller that waits for them sleeps on. */
  lemma {:induction false} AtRest(s: State, es: seq<Event>, c: Commit)
    requires Sure(s, c) || (c == s.head && Due(s))
    requires Inv(s) && s.loop != NotRunning && Run(s, es).Some? && Quiet(Run(s, es).value)
    requires forall k :: 0 <= k < |es| ==> Succeeds(es[k])
    ensures c in Run(s, es).value.rec.attempts && Run(s, es).value.waiters == s.waiters && Inv(Run(s, es).value)
    decreases |es|
  {
    if es != [] {
      var e := es[0];
      NextKeeps(s, e);
      ProgramStep(s, e);
      if Sure(s, c) { SureStays(s, e, c); }
      if Due(s) { DueStays(s, e); }
      AtRest(Next(s, e).value, es[1..], c);
    }
  }

  lemma {:induction false} RunAppend(s: State, a: seq<Event>, b: seq<Event>)
    requires Run(s, a).Some?
    ensures Run(s, a + b) == Run(Run(s, a).value, b)
    decreases |a|
  {
    if a == [] {
      assert a + b == b;
    } else {
      assert (a + b)[1..] == a[1..] + b;
      RunAppend(Next(s, a[0]).value, a[1..], b);
    }
  }

  /** A caller that has not returned. */
  predicate Waits(s: State, id: nat, c: Commit) {
    id in s.waiters && s.waiters[id].c == c && !s.waiters[id].Returned?
  }

  ghost predicate ReturnsAfter(s: State, es: seq<Event>, id: nat, c: Commit) {
    Run(s, es).Some? && id in Run(s, es).value.waiters && Run(s, es).value.waiters[id] == Returned(c, true)
  }

  lemma WakeKeeps(s: State, id: nat)
    requires CallersKept(s) && id in s.waiters && s.waiters[id].Blocked? && s.waiters[id].c in s.rec.attempts
    ensures WaitNext(s, Wake(id)) == Some(s.(waiters := s.waiters[id := Looking(s.waiters[id].c)]))
  {
  }

  lemma LooksNow(s: State, id: nat, c: Commit)
    requires id in s.waiters && s.waiters[id] == Looking(c) && c in s.rec.attempts
    ensures ReturnsAfter(s, [Look(id)], id, c)
  {
    RunOne(s, Look(id));
  }

  lemma Looks(s: State, id: nat, c: Commit) returns (es: seq<Event>)
    requires Inv(s) && Waits(s, id, c) && c in s.rec.attempts
    ensures ReturnsAfter(s, es, id, c)
  {
    if s.waiters[id].Looking? {
      es := [Look(id)];
      LooksNow(s, id, c);
    } else {
      WakeKeeps(s, id);
      var t := WaitNext(s, Wake(id)).value;
      LooksNow(t, id, c);
      Prepend(s, Wake(id), [Look(id)], id, c);
      es := [Wake(id)] + [Look(id)];
    }
  }

  lemma RunOne(s: State, e: Event)
    ensures Run(s, [e]) == Next(s, e)
  {
    assert [e][1..] == [];
  }

  lemma Prepend(s: State, e: Event, es: seq<Event>, id: nat, c: Commit)
    requires Next(s, e).Some? && ReturnsAfter(Next(s, e).value, es, id, c)
    ensures ReturnsAfter(s, [e] + es, id, c)
  {
    assert ([e] + es)[1..] == es;
  }

  /** From a state whose loop holds the commit, or will read it as HEAD. */
  lemma SureReturns(s: State, id: nat, c: Commit) returns (es: seq<Event>)
    requires Inv(s) && s.loop != NotRunning && Waits(s, id, c) && (Sure(s, c) || (c == s.head && Due(s)))
    ensures ReturnsAfter(s, es, id, c)
  {
    var rest, t := ComesToRest(s);
    AtRest(s, rest, c);
    var looks := Looks(t, id, c);
    RunAppend(s, rest, looks);
    es := rest + looks;
  }

  /** The start up to the fallback, HEAD failing. */
  function BootStep(s: State): Event {
    match s.loop
    case NotRunning => if s.subscribed then Boot else Subscribe
    case Entering(_) => Enter
    case Reading(_) => ReadOk
    case Got(_, _) => Desire
    case _ => Finish(false)
  }

  function BootLeft(s: State): nat {
    if s.loop.NotRunning? then (if s.subscribed then 11 else 12) else Left(s.loop)
  }

  /** A step of the start leads on, or takes up the last known good commit. */
  ghost predicate Onward(s: State, t: State) {
    && t.waiters == s.waiters && t.head == s.head && t.rec.good == s.rec.good
    && if Starting(t.loop) then BootLeft(t) < BootLeft(s) else s.rec.good.Some? ==> Sure(t, s.rec.good.value)
  }

  lemma BootSteps(s: State)
    requires Starting(s.loop) && (s.subscribed || s.loop == NotRunning)
    ensures Next(s, BootStep(s)).Some? && Onward(s, Next(s, BootStep(s)).value)
  {
    if s.loop.Entering? || s.loop.Reading? {
      BootReads(s);
    } else if !s.loop.NotRunning? {
      BootAttempts(s);
    }
  }

  lemma BootReads(s: State)
    requires Starting(s.loop) && (s.loop.Entering? || s.loop.Reading?)
    ensures ReadNext(s, BootStep(s)).Some? && Onward(s, ReadNext(s, BootStep(s)).value)
  {
  }

  lemma BootAttempts(s: State)
    requires Starting(s.loop) && (s.loop.Got? || s.loop.Working? || s.loop.Failing?)
    ensures AttemptNext(s, BootStep(s)).Some? && Onward(s, AttemptNext(s, BootStep(s)).value)
  {
  }

  lemma {:induction false} BootReturns(s: State, id: nat, c: Commit) returns (es: seq<Event>)
    requires Inv(s) && Starting(s.loop) && Waits(s, id, c) && s.rec.good == Some(c)
    ensures ReturnsAfter(s, es, id, c)
    decreases BootLeft(s)
  {
    var e := BootStep(s);
    BootSteps(s);
    NextKeeps(s, e);
    var t := Next(s, e).value;
    var rest;
    if Starting(t.loop) {
      rest := BootReturns(t, id, c);
    } else {
      rest := SureReturns(t, id, c);
    }
    Prepend(s, e, rest, id, c);
    es := [e] + rest;
  }

  /** HEAD, before the loop runs. */
  lemma {:induction false} HeadReturns(s: State, id: nat) returns (es: seq<Event>)
    requires Inv(s) && s.loop == NotRunning && Waits(s, id, s.head)
    ensures ReturnsAfter(s, es, id, s.head)
    decreases !s.subscribed
  {
    var e := BootStep(s);
    NextKeeps(s, e);
    var t := Next(s, e).value;
    var rest;
    if s.subscribed {
      rest := SureReturns(t, id, s.head);
    } else {
      rest := HeadReturns(t, id);
    }
    Prepend(s, e, rest, id, s.head);
    es := [e] + rest;
  }

  lemma CanReturn(s: State, id: nat, c: Commit) returns (es: seq<Event>)
    requires Inv(s) && Waits(s, id, c) && CanBeAttempted(s, c)
    ensures ReturnsAfter(s, es, id, c)
  {
    if Starting(s.loop) && s.rec.good == Some(c) {
      es := BootReturns(s, id, c);
    } else if s.loop == NotRunning && c == s.head {
      es := HeadReturns(s, id);
    } else if s.loop == NotRunning {
      es := Looks(s, id, c);
    } else if Sure(s, c) {
      es := SureReturns(s, id, c);
    } else {
      NextKeeps(s, Trigger);
      var rest := SureReturns(Next(s, Trigger).value, id, c);
      Prepend(s, Trigger, rest, id, c);
      es := [Trigger] + rest;
    }
  }

  /** When a wait ends with an attempt. In every reachable state, a caller that
      waits for a commit up to HEAD can return with an attempt if and only if
      the commit has one or is in the loop's hands, it is HEAD, or it is the last
      known good commit and the start may still fall back to it. Superseded
      otherwise, it waits until it gives up, however the system goes on. */
  lemma WaitReturnsIff(s: State, id: nat, c: Commit)
    requires Reachable(s) && Waits(s, id, c) && c <= s.head
    ensures (exists es :: ReturnsAfter(s, es, id, c)) <==> CanBeAttempted(s, c)
  {
    ReachableKept(s);
    if CanBeAttempted(s, c) {
      var es := CanReturn(s, id, c);
    } else {
      forall es ensures !ReturnsAfter(s, es, id, c) {
        if Run(s, es).Some? {
          LostForever(s, es, c);
          RunKeeps(s, es);
        }
      }
    }
  }
}
