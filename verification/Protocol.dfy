/** The path of a commit to the reconciler as a state machine: the commit moves
    HEAD and notifies a channel of capacity one, a forwarder passes it to a
    trigger channel of capacity one, and the loop reads HEAD. Meanwhile callers
    wait for attempts. Commits are numbered in the order of the history. */
module Protocol {
  import opened Prelude
  import R = Reconciler

  type Commit = nat

  /** Why the loop runs: the start, the fallback of the start, or a trigger. */
  datatype Round = BootHead | Fallback(to: Commit) | Regular

  predicate ReadsHead(r: Round) { !r.Fallback? }

  /** Where the loop is. */
  datatype Loop =
    | NotRunning
    | Entering(r: Round)
    | Reading(r: Round)
    | Got(r: Round, c: Commit)
    | Working(r: Round, c: Commit)
    | Failing(r: Round)
    | EndingBoot(ok: bool)
    | Idle

  /** What the loop keeps under its lock: the status, the commits that are
      desired, applied and last known good, and for each commit whether its last
      attempt has succeeded. */
  datatype Record = Record(status: R.State, desired: Option<Commit>, applied: Option<Commit>, good: Option<Commit>,
                           attempts: map<Commit, bool>)

  /** A caller of Wait: about to look, blocked on the channel of an epoch, or
      returned with or without an attempt. */
  datatype Waiter = Looking(c: Commit) | Blocked(c: Commit, epoch: nat) | Returned(c: Commit, found: bool)

  /** missed says that HEAD could not be read, or a notification not be sent,
      and that no read of HEAD has succeeded since. Every status change closes
      the channel of the current epoch and opens the next. */
  datatype State = State(head: Commit, committing: bool, subscribed: bool, queued: bool, forwarding: bool,
                         triggered: bool, loop: Loop, rec: Record,
                         epoch: nat, waiters: map<nat, Waiter>, missed: bool)

  datatype Event =
    | MoveHead | Notify | NotifyFails
    | Subscribe | Boot | ForwardTake | ForwardTrigger | Trigger | Publish
    | TakeTrigger | Enter | ReadOk | ReadFails | Desire | Finish(ok: bool) | EndBoot
    | StartWait(id: nat, c: Commit) | Look(id: nat) | Wake(id: nat) | Expire(id: nat)

  /** The beginning: HEAD, and the last known good commit of the time before. */
  function Init(head: Commit, saved: Option<Commit>): State {
    State(head, false, false, false, false, false, NotRunning, Record(R.Starting, None, None, saved, map[]),
          0, map[], false)
  }

  /** What follows the end of an attempt at a commit, if one could be read. Only
      the start falls back, after a failure, and not to the commit that failed. */
  function After(r: Round, c: Option<Commit>, ok: bool, good: Option<Commit>): Loop {
    match r
    case BootHead => if ok || good.None? || good == c then Idle else Entering(Fallback(good.value))
    case Fallback(_) => EndingBoot(ok)
    case Regular => Idle
  }

  /** The record at the end of an attempt at a commit. */
  function Ended(r: Record, c: Commit, ok: bool): Record {
    if ok then Record(if r.desired == Some(c) then R.InSync else R.Failed, r.desired, Some(c), Some(c),
                      r.attempts[c := true])
    else r.(status := R.Failed, attempts := r.attempts[c := false])
  }

  /** The effect of an event, or None when it cannot happen. */
  function Next(s: State, e: Event): Option<State> {
    match e
    case MoveHead | Notify | NotifyFails => StoreNext(s, e)
    case Subscribe | Boot | ForwardTake | ForwardTrigger | Trigger | Publish => RunNext(s, e)
    case StartWait(_, _) | Look(_) | Wake(_) | Expire(_) => WaitNext(s, e)
    case _ => LoopNext(s, e)
  }

  /** The commit side. The write lock is held from moving HEAD to notifying. */
  function StoreNext(s: State, e: Event): Option<State> {
    match e
    case MoveHead => if s.committing then None else Some(s.(head := s.head + 1, committing := true))
    case Notify =>
      if !s.committing then None
      else Some(s.(committing := false, queued := s.queued || s.subscribed))
    case NotifyFails =>
      if !s.committing then None else Some(s.(committing := false, missed := true))
    case _ => None
  }

  /** Subscription, forwarder, periodic and other triggers, published changes. */
  function RunNext(s: State, e: Event): Option<State> {
    match e
    case Subscribe => if s.subscribed then None else Some(s.(subscribed := true))
    case Boot =>
      if s.loop == NotRunning && s.subscribed then Some(s.(loop := Entering(BootHead))) else None
    case ForwardTake =>
      if s.queued && !s.forwarding then Some(s.(queued := false, forwarding := true)) else None
    case ForwardTrigger =>
      if s.forwarding then Some(s.(forwarding := false, triggered := true)) else None
    case Trigger => Some(s.(triggered := true))
    case Publish => Some(s.(epoch := s.epoch + 1))
    case _ => None
  }

  /** The loop, one locked section or one call to the store at a time. */
  function LoopNext(s: State, e: Event): Option<State> {
    if s.loop.Idle? || s.loop.Entering? || s.loop.Reading? then ReadNext(s, e) else AttemptNext(s, e)
  }

  /** From the trigger to the answer of the store. */
  function ReadNext(s: State, e: Event): Option<State> {
    match s.loop
    case Idle =>
      if e.TakeTrigger? && s.triggered then Some(s.(triggered := false, loop := Entering(Regular))) else None
    case Entering(r) =>
      if e.Enter? then Some(s.(loop := Reading(r), rec := s.rec.(status := R.Reconciling), epoch := s.epoch + 1))
      else None
    case Reading(r) =>
      var answer := Answered(r, e, s.head, s.missed);
      if answer.Some? then Some(s.(loop := answer.value.0, missed := answer.value.1)) else None
    case _ => None
  }

  /** The answer of the store, and whether HEAD is missed from then on. */
  function Answered(r: Round, e: Event, head: Commit, missed: bool): Option<(Loop, bool)> {
    if e.ReadOk? then
      if ReadsHead(r) then Some((Got(r, head), false)) else Some((Got(r, r.to), missed))
    else if e.ReadFails? then Some((Failing(r), missed || ReadsHead(r)))
    else None
  }

  /** From the answer of the store to the end of the attempt. Every end of an
      attempt is published. */
  function AttemptNext(s: State, e: Event): Option<State> {
    match Attempting(s.loop, s.rec, e)
    case Some((l, r)) => Some(s.(loop := l, rec := r, epoch := if s.loop.Got? then s.epoch else s.epoch + 1))
    case None => None
  }

  function Attempting(l: Loop, r: Record, e: Event): Option<(Loop, Record)> {
    match l
    case Got(round, c) =>
      if e.Desire? then Some((Working(round, c), if ReadsHead(round) then r.(desired := Some(c)) else r)) else None
    case Working(round, c) =>
      if e.Finish? then Some((After(round, Some(c), e.ok, r.good), Ended(r, c, e.ok))) else None
    case Failing(round) =>
      if e == Finish(false) then Some((After(round, None, false, r.good), r.(status := R.Degraded))) else None
    case EndingBoot(ok) =>
      if e.EndBoot? then Some((Idle, if ok then r.(status := R.Failed) else r)) else None
    case _ => None
  }

  /** Wait looks and takes the channel under the lock, then blocks on it. */
  function WaitNext(s: State, e: Event): Option<State> {
    match e
    case StartWait(id, c) =>
      if id in s.waiters then None else Some(s.(waiters := s.waiters[id := Looking(c)]))
    case Look(id) =>
      if !(id in s.waiters && s.waiters[id].Looking?) then None
      else
        var c := s.waiters[id].c;
        Some(s.(waiters := s.waiters[id := if c in s.rec.attempts then Returned(c, true) else Blocked(c, s.epoch)]))
    case Wake(id) =>
      if id in s.waiters && s.waiters[id].Blocked? && s.waiters[id].epoch != s.epoch
      then Some(s.(waiters := s.waiters[id := Looking(s.waiters[id].c)])) else None
    case Expire(id) =>
      if id in s.waiters && s.waiters[id].Blocked?
      then Some(s.(waiters := s.waiters[id := Returned(s.waiters[id].c, false)])) else None
    case _ => None
  }

  /** An event is one of the store, of the run outside the loop, of a caller, or
      of one half of the loop. */
  lemma Dispatch(s: State, e: Event)
    requires Next(s, e).Some?
    ensures Next(s, e) == StoreNext(s, e) || Next(s, e) == RunNext(s, e) || Next(s, e) == WaitNext(s, e)
      || Next(s, e) == ReadNext(s, e) || Next(s, e) == AttemptNext(s, e)
  {
  }

  function Run(s: State, es: seq<Event>): Option<State>
    decreases |es|
  {
    if es == [] then Some(s)
    else match Next(s, es[0])
      case None => None
      case Some(t) => Run(t, es[1..])
  }

  // ---- the invariant ----------------------------------------------------------------------

  /** The loop will read HEAD without being triggered. */
  predicate WillRead(l: Loop) {
    l.NotRunning? || ((l.Entering? || l.Reading?) && ReadsHead(l.r))
  }

  /** Something on the way will make the loop read HEAD. */
  predicate Pending(s: State) {
    s.committing || s.queued || s.forwarding || s.triggered || WillRead(s.loop)
  }

  /** The loop holds a commit it read as HEAD. */
  predicate HoldsHead(l: Loop) { (l.Got? || l.Working?) && ReadsHead(l.r) }

  /** HEAD is desired and attempted, or being attempted. */
  predicate HeadSeen(s: State) {
    if HoldsHead(s.loop) then s.loop.c == s.head && (s.loop.Working? ==> s.rec.desired == Some(s.head))
    else s.rec.desired == Some(s.head) && s.head in s.rec.attempts
  }

  /** HEAD is taken care of: something on the way will make the loop read it, it
      could not be read, or it has been seen. */
  predicate HeadKept(s: State) { Pending(s) || s.missed || HeadSeen(s) }

  ghost predicate CallersKept(s: State) {
    && (forall id :: id in s.waiters && s.waiters[id].Blocked? ==> NothingToMiss(s, s.waiters[id]))
    && (forall id :: id in s.waiters && s.waiters[id].Returned? && s.waiters[id].found ==>
        s.waiters[id].c in s.rec.attempts)
  }

  /** A blocked caller whose channel is still open has no attempt to miss. */
  predicate NothingToMiss(s: State, w: Waiter)
    requires w.Blocked?
  {
    w.epoch <= s.epoch && (w.epoch == s.epoch ==> w.c !in s.rec.attempts)
  }

  /** The last attempt at the desired commit has succeeded. */
  predicate Won(r: Record) {
    r.desired.Some? && r.desired.value in r.attempts && r.attempts[r.desired.value]
  }

  /** What is applied is the last success, and the last known good. */
  ghost predicate AppliedKept(r: Record, head: Commit) {
    && (r.good.Some? ==> r.good.value <= head)
    && (r.applied.Some? ==> r.good == r.applied)
    && (forall c :: c in r.attempts && r.attempts[c] ==> r.applied.Some? && c <= r.applied.value)
    && (Won(r) ==> r.applied == r.desired)
  }

  predicate HasRound(l: Loop) { l.Entering? || l.Reading? || l.Got? || l.Working? || l.Failing? }

  /** Where the loop stands says what the record holds. */
  predicate RoundKept(l: Loop, r: Record, head: Commit, missed: bool) {
    && (HasRound(l) && !l.Entering? ==> r.status == R.Reconciling)
    && (HoldsHead(l) ==> l.c <= head && (r.applied.Some? ==> r.applied.value <= l.c))
    && (l.Working? && ReadsHead(l.r) ==> r.desired == Some(l.c))
    && (l.Failing? && ReadsHead(l.r) ==> missed)
    && (l.NotRunning? || (HasRound(l) && l.r == BootHead) ==> r.applied == None && (!l.Working? ==> r.desired == None))
    && (HasRound(l) && l.r.Fallback? ==> FallsBack(l, r))
    && (l.EndingBoot? ==> !Won(r))
  }

  /** The start falls back to what it knows to be good, HEAD not being it. */
  predicate FallsBack(l: Loop, r: Record)
    requires HasRound(l) && l.r.Fallback?
  {
    && r.applied == None && r.good == Some(l.r.to) && r.desired != Some(l.r.to) && !Won(r)
    && (l.Got? || l.Working? ==> l.c == l.r.to)
  }

  /** The status tells whether the desired commit is what runs. */
  predicate StatusKept(s: State) {
    && (s.rec.status == R.InSync ==> Won(s.rec))
    && (s.loop == Idle && !s.missed && Won(s.rec) ==> s.rec.status == R.InSync)
  }

  ghost predicate RecordKept(s: State) {
    AppliedKept(s.rec, s.head) && RoundKept(s.loop, s.rec, s.head, s.missed) && StatusKept(s)
  }

  ghost predicate Inv(s: State) {
    HeadKept(s) && (s.subscribed || s.loop == NotRunning) && CallersKept(s) && RecordKept(s)
  }

  lemma StoreKeeps(s: State, e: Event)
    requires Inv(s) && StoreNext(s, e).Some?
    ensures Inv(StoreNext(s, e).value)
  {
  }

  lemma RunEventKeeps(s: State, e: Event)
    requires Inv(s) && RunNext(s, e).Some?
    ensures Inv(RunNext(s, e).value)
  {
  }

  lemma ReadKeepsHead(s: State, e: Event)
    requires HeadKept(s) && ReadNext(s, e).Some?
    ensures HeadKept(ReadNext(s, e).value)
  {
  }

  lemma AttemptKeepsHead(s: State, e: Event)
    requires HeadKept(s) && AttemptNext(s, e).Some?
    ensures HeadKept(AttemptNext(s, e).value)
  {
  }

  lemma ReadKeepsRecord(s: State, e: Event)
    requires RecordKept(s) && ReadNext(s, e).Some?
    ensures RecordKept(ReadNext(s, e).value)
  {
    if s.loop.Idle? {
      TakeKeepsRecord(s);
    } else if s.loop.Entering? {
      EnterKeepsRecord(s);
    } else {
      AnswerKeepsRecord(s, e);
    }
  }

  lemma TakeKeepsRecord(s: State)
    requires RecordKept(s) && s.loop.Idle? && s.triggered
    ensures RecordKept(ReadNext(s, TakeTrigger).value)
  {
  }

  lemma EnterKeepsRecord(s: State)
    requires RecordKept(s) && s.loop.Entering?
    ensures RecordKept(ReadNext(s, Enter).value)
  {
  }

  lemma AnswerKeepsRecord(s: State, e: Event)
    requires RecordKept(s) && s.loop.Reading? && ReadNext(s, e).Some?
    ensures RecordKept(ReadNext(s, e).value)
  {
  }

  lemma DesireKeepsRecord(s: State)
    requires RecordKept(s) && s.loop.Got?
    ensures RecordKept(AttemptNext(s, Desire).value)
  {
  }

  /** The record after an attempt, whatever its end. */
  lemma EndedKept(r: Record, head: Commit, c: Commit, ok: bool)
    requires AppliedKept(r, head) && c <= head && (r.applied.Some? ==> r.applied.value <= c)
    requires r.desired != Some(c) ==> !Won(r)
    ensures AppliedKept(Ended(r, c, ok), head)
    ensures r.desired == Some(c) ==> (Won(Ended(r, c, ok)) <==> ok)
    ensures r.desired != Some(c) ==> !Won(Ended(r, c, ok))
  {
  }

  /** Where the loop stands after an attempt. */
  lemma EndedRound(round: Round, r: Record, head: Commit, missed: bool, c: Commit, ok: bool)
    requires AppliedKept(r, head) && RoundKept(Working(round, c), r, head, missed)
    ensures RoundKept(After(round, Some(c), ok, r.good), Ended(r, c, ok), head, missed)
  {
    EndedKept(r, head, c, ok);
  }

  lemma FinishKeepsRecord(s: State, ok: bool)
    requires RecordKept(s) && s.loop.Working?
    ensures RecordKept(AttemptNext(s, Finish(ok)).value)
  {
    EndedKept(s.rec, s.head, s.loop.c, ok);
    EndedRound(s.loop.r, s.rec, s.head, s.missed, s.loop.c, ok);
  }

  lemma FailingKeepsRecord(s: State, e: Event)
    requires RecordKept(s) && (s.loop.Failing? || s.loop.EndingBoot?) && AttemptNext(s, e).Some?
    ensures RecordKept(AttemptNext(s, e).value)
  {
  }

  lemma AttemptKeepsRecord(s: State, e: Event)
    requires RecordKept(s) && AttemptNext(s, e).Some?
    ensures RecordKept(AttemptNext(s, e).value)
  {
    if s.loop.Got? {
      DesireKeepsRecord(s);
    } else if s.loop.Working? {
      FinishKeepsRecord(s, e.ok);
    } else {
      FailingKeepsRecord(s, e);
    }
  }

  /** What a step of the loop leaves to the callers: a step that adds an attempt
      opens a new epoch. */
  ghost predicate Grows(s: State, t: State) {
    && t.waiters == s.waiters && t.subscribed == s.subscribed
    && s.rec.attempts.Keys <= t.rec.attempts.Keys && s.epoch <= t.epoch
    && (t.epoch == s.epoch ==> t.rec.attempts == s.rec.attempts)
  }

  lemma ReadGrows(s: State, e: Event)
    requires ReadNext(s, e).Some?
    ensures Grows(s, ReadNext(s, e).value)
  {
  }

  lemma AttemptGrows(s: State, e: Event)
    requires AttemptNext(s, e).Some?
    ensures Grows(s, AttemptNext(s, e).value)
  {
  }

  lemma CallersGrow(s: State, t: State)
    requires CallersKept(s) && Grows(s, t)
    ensures CallersKept(t)
  {
  }

  lemma LoopKeeps(s: State, e: Event)
    requires Inv(s) && LoopNext(s, e).Some?
    ensures Inv(LoopNext(s, e).value)
  {
    if ReadNext(s, e).Some? {
      ReadKeepsHead(s, e);
      ReadKeepsRecord(s, e);
      ReadGrows(s, e);
    } else {
      AttemptKeepsHead(s, e);
      AttemptKeepsRecord(s, e);
      AttemptGrows(s, e);
    }
    CallersGrow(s, LoopNext(s, e).value);
    NeverRestarts(s, e);
  }

  lemma NeverRestarts(s: State, e: Event)
    requires LoopNext(s, e).Some?
    ensures s.loop != NotRunning
  {
  }

  lemma WaitKeeps(s: State, e: Event)
    requires Inv(s) && WaitNext(s, e).Some?
    ensures Inv(WaitNext(s, e).value)
  {
  }

  lemma NextKeeps(s: State, e: Event)
    requires Inv(s) && Next(s, e).Some?
    ensures Inv(Next(s, e).value)
  {
    if StoreNext(s, e).Some? { StoreKeeps(s, e); }
    if RunNext(s, e).Some? { RunEventKeeps(s, e); }
    if LoopNext(s, e).Some? { LoopKeeps(s, e); }
    if WaitNext(s, e).Some? { WaitKeeps(s, e); }
  }

  lemma {:induction false} RunKeeps(s: State, es: seq<Event>)
    requires Inv(s) && Run(s, es).Some?
    ensures Inv(Run(s, es).value)
    decreases |es|
  {
    if es != [] {
      NextKeeps(s, es[0]);
      RunKeeps(Next(s, es[0]).value, es[1..]);
    }
  }

  /** Nothing is on the way and the loop waits for a trigger. */
  predicate Quiet(s: State) {
    s.loop == Idle && !s.committing && !s.queued && !s.forwarding && !s.triggered
  }

  /** A run from a beginning whose last known good commit, if there is one, is
      in the history. */
  ghost predicate Leads(head: Commit, saved: Option<Commit>, es: seq<Event>, s: State) {
    (saved.Some? ==> saved.value <= head) && Run(Init(head, saved), es) == Some(s)
  }

  ghost predicate Reachable(s: State) { exists head, saved, es :: Leads(head, saved, es, s) }

  lemma {:induction false} RunSnoc(s: State, es: seq<Event>, e: Event)
    requires Run(s, es).Some?
    ensures Run(s, es + [e]) == Next(Run(s, es).value, e)
    decreases |es|
  {
    if es == [] {
      assert [e][1..] == [] && es + [e] == [e];
    } else {
      assert (es + [e])[1..] == es[1..] + [e];
      RunSnoc(Next(s, es[0]).value, es[1..], e);
    }
  }

  lemma Reached(s: State, e: Event, t: State)
    requires Reachable(s) && Next(s, e) == Some(t)
    ensures Reachable(t)
  {
    var head, saved, es :| Leads(head, saved, es, s);
    RunSnoc(Init(head, saved), es, e);
    assert Leads(head, saved, es + [e], t);
  }

  lemma ReachableKept(s: State)
    requires Reachable(s)
    ensures Inv(s)
  {
    var head, saved, es :| Leads(head, saved, es, s);
    RunKeeps(Init(head, saved), es);
  }

  /** No update is lost: in every reachable state in which nothing is on the way
      and the last read of HEAD succeeded, the desired commit is HEAD, HEAD has
      an attempt, and no caller waiting for HEAD sleeps on an open channel. */
  lemma NoLostUpdate(s: State)
    requires Reachable(s) && Quiet(s) && !s.missed
    ensures s.rec.desired == Some(s.head) && s.head in s.rec.attempts
    ensures forall id :: id in s.waiters && s.waiters[id].Blocked? && s.waiters[id].c == s.head ==>
      Next(s, Wake(id)).Some?
  {
    ReachableKept(s);
  }

  /** At rest the status is the truth about HEAD: it is in-sync if and only if
      the last attempt at HEAD has succeeded, and then HEAD is what is applied. */
  lemma RestTellsTruth(s: State)
    requires Reachable(s) && Quiet(s) && !s.missed
    ensures s.head in s.rec.attempts && (s.rec.status == R.InSync <==> s.rec.attempts[s.head])
    ensures s.rec.status == R.InSync ==> s.rec.applied == Some(s.head) && s.rec.good == Some(s.head)
  {
    ReachableKept(s);
  }

  /** A caller that sleeps on an open channel has no attempt to miss, in every
      reachable state. */
  lemma SleeperMissesNothing(s: State, id: nat)
    requires Reachable(s) && id in s.waiters && s.waiters[id].Blocked?
    ensures s.waiters[id].c in s.rec.attempts ==> Next(s, Wake(id)).Some?
  {
    ReachableKept(s);
  }
}
