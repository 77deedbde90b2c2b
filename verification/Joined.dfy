/** The protocol and the reconciler together: every attempt of the protocol is
    one of the reconciler, with its own faults. */
module Joined {
  import opened Prelude
  import P = Protocol
  import R = Reconciler
  import T = Transaction

  /** The state of the protocol, what is running, and for each commit whether
      its last attempt has met no fault. */
  datatype Joint<T, S> = Joint(p: P.State, run: R.Running<T, S>, calm: map<P.Commit, bool>)

  /** The names of the commits of the history. */
  type Naming = P.Commit -> R.CommitId

  ghost predicate NoFaults(faults: nat -> set<T.Driver>) { forall k :: faults(k) == {} }

  /** An attempt of the reconciler at a commit, with an outcome. */
  ghost predicate Attempts<T, S>(w: R.Parts<T, S>, was: R.Running<T, S>, c: R.CommitId, now: R.Running<T, S>,
                                 ok: bool, calm: bool)
  {
    exists faults, a :: R.Attempted(w, was, c, faults, a, now) && ok == R.Succeeded(a) && calm == NoFaults(faults)
  }

  /** One event. The end of an attempt is that of an attempt of the reconciler;
      nothing else changes what is running. */
  ghost predicate JointStep<T, S>(w: R.Parts<T, S>, id: Naming, j: Joint<T, S>, e: P.Event, k: Joint<T, S>) {
    P.Next(j.p, e) == Some(k.p) &&
    if e.Finish? && j.p.loop.Working? then
      var c := j.p.loop.c;
      && c in k.calm && k.calm == j.calm[c := k.calm[c]]
      && Attempts(w, j.run, id(c), k.run, e.ok, k.calm[c])
    else k.run == j.run && k.calm == j.calm
  }

  /** Nothing runs before the start. */
  ghost predicate Begins<T, S>(j: Joint<T, S>) {
    && j.run == R.Running(map[], None, None) && j.calm == map[]
    && exists head, saved :: P.Leads(head, saved, [], j.p)
  }

  ghost predicate Runs<T, S>(w: R.Parts<T, S>, id: Naming, js: seq<Joint<T, S>>, es: seq<P.Event>) {
    && |js| == |es| + 1 && Begins(js[0])
    && forall i :: 0 <= i < |es| ==> JointStep(w, id, js[i], es[i], js[i + 1])
  }

  /** What runs is what the protocol records as applied, truthfully; and an
      attempt at a valid commit fails only by a fault. */
  ghost predicate Joins<T, S>(w: R.Parts<T, S>, id: Naming, j: Joint<T, S>) {
    && R.Truthful(w, j.run)
    && j.run.commit == (if j.p.rec.applied.Some? then Some(id(j.p.rec.applied.value)) else None)
    && forall c :: c in j.p.rec.attempts ==> c in j.calm && Explained(w, id, j, c)
  }

  ghost predicate Explained<T, S>(w: R.Parts<T, S>, id: Naming, j: Joint<T, S>, c: P.Commit)
    requires c in j.p.rec.attempts && c in j.calm
  {
    w.valid(w.repo(id(c))) && j.calm[c] ==> j.p.rec.attempts[c]
  }

  lemma AttemptExplained<T, S>(w: R.Parts<T, S>, was: R.Running<T, S>, c: R.CommitId, now: R.Running<T, S>,
                               ok: bool, calm: bool)
    requires R.Truthful(w, was) && Attempts(w, was, c, now, ok, calm)
    ensures R.Truthful(w, now) && now.commit == (if ok then Some(c) else was.commit)
    ensures w.valid(w.repo(c)) && calm ==> ok
  {
    var faults, a :| R.Attempted(w, was, c, faults, a, now) && ok == R.Succeeded(a) && calm == NoFaults(faults);
    if w.valid(w.repo(c)) && calm { R.NoFaultApplies(w, was, c, faults, a, now); }
  }

  /** Only the end of an attempt changes what is applied and attempted. */
  ghost predicate SameAttempts(s: P.State, o: Option<P.State>) {
    o.Some? ==> o.value.rec.applied == s.rec.applied && o.value.rec.attempts == s.rec.attempts
  }

  lemma OthersKeepRecord(s: P.State, e: P.Event)
    requires P.Next(s, e).Some? && !(e.Finish? && s.loop.Working?)
    ensures SameAttempts(s, P.Next(s, e))
  {
    P.Dispatch(s, e);
    OutsideSame(s, e);
    ReadSame(s, e);
    AttemptSame(s, e);
  }

  lemma OutsideSame(s: P.State, e: P.Event)
    ensures SameAttempts(s, P.StoreNext(s, e)) && SameAttempts(s, P.RunNext(s, e)) && SameAttempts(s, P.WaitNext(s, e))
  {
  }

  lemma ReadSame(s: P.State, e: P.Event)
    ensures SameAttempts(s, P.ReadNext(s, e))
  {
  }

  lemma AttemptSame(s: P.State, e: P.Event)
    requires !(e.Finish? && s.loop.Working?)
    ensures SameAttempts(s, P.AttemptNext(s, e))
  {
  }

  lemma FinishRecord(s: P.State, ok: bool)
    requires s.loop.Working?
    ensures P.Next(s, P.Finish(ok)).Some?
    ensures P.Next(s, P.Finish(ok)).value.rec == P.Ended(s.rec, s.loop.c, ok)
  {
  }

  lemma StepJoins<T, S>(w: R.Parts<T, S>, id: Naming, j: Joint<T, S>, e: P.Event, k: Joint<T, S>)
    requires Joins(w, id, j) && JointStep(w, id, j, e, k)
    ensures Joins(w, id, k)
  {
    if e.Finish? && j.p.loop.Working? {
      FinishRecord(j.p, e.ok);
      AttemptExplained(w, j.run, id(j.p.loop.c), k.run, e.ok, k.calm[j.p.loop.c]);
      forall c | c in k.p.rec.attempts ensures c in k.calm && Explained(w, id, k, c) {
        assert c != j.p.loop.c ==> c in j.p.rec.attempts && Explained(w, id, j, c);
      }
    } else {
      OthersKeepRecord(j.p, e);
      forall c | c in k.p.rec.attempts ensures c in k.calm && Explained(w, id, k, c) {
        assert Explained(w, id, j, c);
      }
    }
  }

  lemma {:induction false} RunJoins<T, S>(w: R.Parts<T, S>, id: Naming, js: seq<Joint<T, S>>, es: seq<P.Event>, i: nat)
    requires Runs(w, id, js, es) && i < |js|
    ensures Joins(w, id, js[i]) && P.Reachable(js[i].p)
  {
    if i > 0 {
      RunJoins(w, id, js, es, i - 1);
      assert JointStep(w, id, js[i - 1], es[i - 1], js[i]);
      StepJoins(w, id, js[i - 1], es[i - 1], js[i]);
      P.Reached(js[i - 1].p, es[i - 1], js[i].p);
    } else {
      var head, saved :| P.Leads(head, saved, [], js[0].p);
    }
  }

  /** At rest, over every run: if HEAD could be read, is valid and met no fault
      at its last attempt, then HEAD is what runs and the status is in-sync; and
      whenever the status is in-sync, HEAD is what runs. */
  lemma RestIsInSync<T, S>(w: R.Parts<T, S>, id: Naming, js: seq<Joint<T, S>>, es: seq<P.Event>)
    requires Runs(w, id, js, es)
    requires var s := js[|es|].p; P.Quiet(s) && !s.missed
    ensures var j := js[|es|]; j.p.head in j.calm
    ensures var j := js[|es|];
      w.valid(w.repo(id(j.p.head))) && j.calm[j.p.head] ==> j.p.rec.status == R.InSync
    ensures var j := js[|es|];
      j.p.rec.status == R.InSync ==> j.run.commit == Some(id(j.p.head)) && j.run.tree == Some(w.repo(id(j.p.head)))
  {
    var j := js[|es|];
    RunJoins(w, id, js, es, |es|);
    P.RestTellsTruth(j.p);
    assert Explained(w, id, j, j.p.head);
  }
}
