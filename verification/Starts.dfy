/** The start of the protocol: it does not come to rest with nothing applied
    before it has tried the commit that was last known to be good. */
module Starts {
  import opened Prelude
  import opened Protocol

  /** Every read of the last known good commit succeeds. */
  predicate FallbackReadable(s: State, es: seq<Event>)
    decreases |es|
  {
    es == [] || Next(s, es[0]).None? ||
    (!(es[0].ReadFails? && s.loop.Reading? && s.loop.r.Fallback?) && FallbackReadable(Next(s, es[0]).value, es[1..]))
  }

  predicate Tried(r: Record, saved: Option<Commit>) {
    r.applied.Some? || saved.None? || saved.value in r.attempts
  }

  /** What the start still has to do. */
  predicate StartKept(s: State, saved: Option<Commit>) {
    if s.loop.NotRunning? || (HasRound(s.loop) && s.loop.r.BootHead?) then s.rec.applied.None? && s.rec.good == saved
    else if HasRound(s.loop) && s.loop.r.Fallback? then
      saved == Some(s.loop.r.to) && !s.loop.Failing? && (s.loop.Got? || s.loop.Working? ==> s.loop.c == s.loop.r.to)
    else Tried(s.rec, saved)
  }

  lemma ReadKeepsStart(s: State, e: Event, saved: Option<Commit>)
    requires StartKept(s, saved) && ReadNext(s, e).Some?
    requires !(e.ReadFails? && s.loop.Reading? && s.loop.r.Fallback?)
    ensures StartKept(ReadNext(s, e).value, saved)
  {
  }

  lemma AttemptKeepsStart(s: State, e: Event, saved: Option<Commit>)
    requires StartKept(s, saved) && AttemptNext(s, e).Some?
    ensures StartKept(AttemptNext(s, e).value, saved)
  {
  }

  lemma OutsideKeepsStart(s: State, e: Event, saved: Option<Commit>)
    requires StartKept(s, saved)
    ensures StoreNext(s, e).Some? ==> StartKept(StoreNext(s, e).value, saved)
    ensures RunNext(s, e).Some? ==> StartKept(RunNext(s, e).value, saved)
    ensures WaitNext(s, e).Some? ==> StartKept(WaitNext(s, e).value, saved)
  {
  }

  lemma NextKeepsStart(s: State, e: Event, saved: Option<Commit>)
    requires StartKept(s, saved) && Next(s, e).Some?
    requires !(e.ReadFails? && s.loop.Reading? && s.loop.r.Fallback?)
    ensures StartKept(Next(s, e).value, saved)
  {
    Dispatch(s, e);
    OutsideKeepsStart(s, e, saved);
    if ReadNext(s, e).Some? { ReadKeepsStart(s, e, saved); }
    if AttemptNext(s, e).Some? { AttemptKeepsStart(s, e, saved); }
  }

  lemma {:induction false} RunKeepsStart(s: State, es: seq<Event>, saved: Option<Commit>)
    requires StartKept(s, saved) && Run(s, es).Some? && FallbackReadable(s, es)
    ensures StartKept(Run(s, es).value, saved)
    decreases |es|
  {
    if es != [] {
      NextKeepsStart(s, es[0], saved);
      RunKeepsStart(Next(s, es[0]).value, es[1..], saved);
    }
  }

  /** In every run in which the last known good commit can be read: when the
      loop waits for a trigger, something is applied, or that commit has been
      attempted, or there was none. */
  lemma StartTries(head: Commit, saved: Option<Commit>, es: seq<Event>, s: State)
    requires Leads(head, saved, es, s) && FallbackReadable(Init(head, saved), es) && s.loop.Idle?
    ensures s.rec.applied.Some? || saved.None? || saved.value in s.rec.attempts
  {
    RunKeepsStart(Init(head, saved), es, saved);
  }
}
