/** What the status of the loop, and the note that HEAD was missed, say about
    the events of a run. */
module Histories {
  import opened Prelude
  import opened Protocol
  import R = Reconciler

  /** The state before an event of a run. */
  function Before(s: State, es: seq<Event>, i: nat): State
    requires Run(s, es).Some? && i <= |es|
  {
    PrefixRuns(s, es, i);
    Run(s, es[..i]).value
  }

  lemma {:induction false} PrefixRuns(s: State, es: seq<Event>, i: nat)
    requires Run(s, es).Some? && i <= |es|
    ensures Run(s, es[..i]).Some?
    decreases i
  {
    if i > 0 {
      assert es[..i][1..] == es[1..][..i - 1];
      PrefixRuns(Next(s, es[0]).value, es[1..], i - 1);
    }
  }

  /** The run up to its last event. */
  lemma {:induction false} LastStep(s: State, es: seq<Event>)
    requires Run(s, es).Some? && es != []
    ensures var n := |es| - 1;
      Run(s, es[..n]).Some? && Next(Run(s, es[..n]).value, es[n]) == Run(s, es)
  {
    var n := |es| - 1;
    PrefixRuns(s, es, n);
    assert es == es[..n] + [es[n]];
    RunSnoc(s, es[..n], es[n]);
  }

  lemma {:induction false} SameBefore(s: State, es: seq<Event>, i: nat)
    requires Run(s, es).Some? && es != [] && i < |es| && Run(s, es[..|es| - 1]).Some?
    ensures Before(s, es, i) == Before(s, es[..|es| - 1], i)
  {
    assert es[..i] == es[..|es| - 1][..i];
  }

  // ---- HEAD missed ------------------------------------------------------------------------------

  predicate OfHead(s: State) { s.loop.Reading? && !s.loop.r.Fallback? }

  predicate LosesHead(s: State, e: Event) { e.NotifyFails? || (e.ReadFails? && OfHead(s)) }

  predicate FindsHead(s: State, e: Event) { e.ReadOk? && OfHead(s) }

  /** HEAD was lost at an event and not found since. */
  ghost predicate LostAt(s: State, es: seq<Event>, i: nat)
    requires Run(s, es).Some?
  {
    i < |es| && LosesHead(Before(s, es, i), es[i]) && forall j :: i < j < |es| ==> !FindsHead(Before(s, es, j), es[j])
  }

  predicate MissedAfter(s: State, e: Event) { LosesHead(s, e) || (s.missed && !FindsHead(s, e)) }

  lemma MissedOutside(s: State, e: Event)
    ensures StoreNext(s, e).Some? ==> StoreNext(s, e).value.missed == MissedAfter(s, e)
    ensures RunNext(s, e).Some? ==> RunNext(s, e).value.missed == MissedAfter(s, e)
    ensures WaitNext(s, e).Some? ==> WaitNext(s, e).value.missed == MissedAfter(s, e)
  {
  }

  lemma MissedInLoop(s: State, e: Event)
    ensures ReadNext(s, e).Some? ==> ReadNext(s, e).value.missed == MissedAfter(s, e)
    ensures AttemptNext(s, e).Some? ==> AttemptNext(s, e).value.missed == MissedAfter(s, e)
  {
  }

  lemma MissedStep(s: State, e: Event)
    requires Next(s, e).Some?
    ensures Next(s, e).value.missed == MissedAfter(s, e)
  {
    Dispatch(s, e);
    MissedOutside(s, e);
    MissedInLoop(s, e);
  }

  lemma {:induction false} LostSnoc(s: State, es: seq<Event>, i: nat)
    requires Run(s, es).Some? && es != [] && Run(s, es[..|es| - 1]).Some?
    ensures var n := |es| - 1;
      i < n ==> (LostAt(s, es, i) <==> LostAt(s, es[..n], i) && !FindsHead(Before(s, es, n), es[n]))
  {
    var n := |es| - 1;
    forall j: nat | j < |es| ensures Before(s, es, j) == Before(s, es[..n], j) {
      SameBefore(s, es, j);
    }
  }

  /** HEAD is noted as missed if and only if a notification of it failed, or a
      read of it, and no read of it has succeeded since. */
  lemma {:induction false} MissedIff(head: Commit, saved: Option<Commit>, es: seq<Event>)
    requires Run(Init(head, saved), es).Some?
    ensures Run(Init(head, saved), es).value.missed <==> exists i: nat :: LostAt(Init(head, saved), es, i)
    decreases |es|
  {
    var s := Init(head, saved);
    if es != [] {
      var n := |es| - 1;
      LastStep(s, es);
      MissedIff(head, saved, es[..n]);
      MissedStep(Before(s, es, n), es[n]);
      forall i: nat ensures i < n ==>
        (LostAt(s, es, i) <==> LostAt(s, es[..n], i) && !FindsHead(Before(s, es, n), es[n]))
      {
        LostSnoc(s, es, i);
      }
      assert LostAt(s, es, n) <==> LosesHead(Before(s, es, n), es[n]);
    }
  }

  // ---- degraded ---------------------------------------------------------------------------------

  /** The last attempt to end could not read what it was for. */
  ghost predicate Unread(s: State, es: seq<Event>)
    requires Run(s, es).Some?
  {
    exists i: nat :: UnreadAt(s, es, i)
  }

  ghost predicate UnreadAt(s: State, es: seq<Event>, i: nat)
    requires Run(s, es).Some?
  {
    i < |es| && es[i].Finish? && Before(s, es, i).loop.Failing? && forall j :: i < j < |es| ==> !es[j].Finish?
  }

  /** What the status is where no attempt is being made. */
  predicate StatusTells(s: State, unread: bool) {
    && (!HasRound(s.loop) || s.loop.Entering? ==> (s.rec.status == R.Degraded <==> unread))
    && (s.loop == EndingBoot(true) ==> !unread)
    && (s.loop.NotRunning? ==> s.rec.status == R.Starting)
    && (s.loop.Idle? || s.loop.EndingBoot? ==> s.rec.status != R.Starting && s.rec.status != R.Reconciling)
  }

  lemma StatusOutside(s: State, e: Event, unread: bool)
    requires StatusTells(s, unread)
    ensures StoreNext(s, e).Some? ==> StatusTells(StoreNext(s, e).value, unread) && !e.Finish?
    ensures RunNext(s, e).Some? ==> StatusTells(RunNext(s, e).value, unread) && !e.Finish?
    ensures WaitNext(s, e).Some? ==> StatusTells(WaitNext(s, e).value, unread) && !e.Finish?
  {
  }

  lemma StatusReading(s: State, e: Event, unread: bool)
    requires StatusTells(s, unread) && ReadNext(s, e).Some?
    ensures StatusTells(ReadNext(s, e).value, unread) && !e.Finish?
  {
  }

  lemma StatusAttempting(s: State, e: Event, unread: bool)
    requires StatusTells(s, unread) && AttemptNext(s, e).Some?
    ensures StatusTells(AttemptNext(s, e).value, if e.Finish? then s.loop.Failing? else unread)
  {
  }

  lemma StatusStep(s: State, e: Event, unread: bool)
    requires Next(s, e).Some? && StatusTells(s, unread)
    ensures StatusTells(Next(s, e).value, if e.Finish? then s.loop.Failing? else unread)
  {
    Dispatch(s, e);
    StatusOutside(s, e, unread);
    if ReadNext(s, e).Some? { StatusReading(s, e, unread); }
    if AttemptNext(s, e).Some? { StatusAttempting(s, e, unread); }
  }

  lemma {:induction false} UnreadSnoc(s: State, es: seq<Event>)
    requires Run(s, es).Some? && es != [] && Run(s, es[..|es| - 1]).Some?
    ensures var n := |es| - 1;
      Unread(s, es) <==> if es[n].Finish? then Before(s, es, n).loop.Failing? else Unread(s, es[..n])
  {
    var n := |es| - 1;
    forall i: nat | i < n ensures UnreadAt(s, es, i) <==> !es[n].Finish? && UnreadAt(s, es[..n], i) {
      SameBefore(s, es, i);
    }
    assert UnreadAt(s, es, n) <==> es[n].Finish? && Before(s, es, n).loop.Failing?;
  }

  lemma {:induction false} StatusKeptByRun(head: Commit, saved: Option<Commit>, es: seq<Event>)
    requires Run(Init(head, saved), es).Some?
    ensures StatusTells(Run(Init(head, saved), es).value, Unread(Init(head, saved), es))
    decreases |es|
  {
    var s := Init(head, saved);
    if es != [] {
      var n := |es| - 1;
      LastStep(s, es);
      StatusKeptByRun(head, saved, es[..n]);
      StatusStep(Before(s, es, n), es[n], Unread(s, es[..n]));
      UnreadSnoc(s, es);
    }
  }

  /** Where the loop waits for a trigger, after any run: the status is degraded
      if and only if the last attempt could not read its commit, and otherwise
      it is in-sync or failed. */
  lemma DegradedIff(head: Commit, saved: Option<Commit>, es: seq<Event>, s: State)
    requires Run(Init(head, saved), es) == Some(s) && s.loop.Idle?
    ensures s.rec.status == R.Degraded <==> Unread(Init(head, saved), es)
    ensures s.rec.status in {R.InSync, R.Failed, R.Degraded}
  {
    StatusKeptByRun(head, saved, es);
  }
}
