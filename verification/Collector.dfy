/** The Event Collector: a token bucket for drop events, a bounded buffer with
    consecutive identifiers, and counters. Time is a real number of seconds. */
module Collector {
  import opened Prelude

  datatype Kind = FlowNew | FlowDrop | FlowEnd

  datatype Event = Event(id: nat, kind: Kind, drop: bool, reason: string, ruleSet: string, policy: string, other: string)

  const BUFFER_SIZE := 2000
  const CAPACITY := 30.0

  // ---- the token bucket ---------------------------------------------------------------------

  function Refill(bucket: real, seconds: real): real {
    if bucket + seconds * 30.0 < CAPACITY then bucket + seconds * 30.0 else CAPACITY
  }

  /** One drop event and whether it got an identifier. */
  datatype Drop = Drop(at: real, kept: bool)

  /** The bucket after a history of drop events; the last refill was at the last
      of them, or at the start. */
  function Level(start: real, drops: seq<Drop>): real
    decreases |drops|, 1
  {
    if drops == [] then CAPACITY
    else
      var b := Offered(start, drops);
      if b < 1.0 then b else b - 1.0
  }

  function LastAt(start: real, drops: seq<Drop>): real {
    if drops == [] then start else drops[|drops| - 1].at
  }

  /** The bucket as the last drop event of a history finds it. */
  function Offered(start: real, drops: seq<Drop>): real
    requires drops != []
    decreases |drops|, 0
  {
    var n := |drops| - 1;
    Refill(Level(start, drops[..n]), drops[n].at - LastAt(start, drops[..n]))
  }

  /** Events come in the order of time, and one is kept exactly when it finds a
      token. */
  ghost predicate Governed(start: real, drops: seq<Drop>)
    decreases |drops|
  {
    drops == [] ||
    var n := |drops| - 1;
    && Governed(start, drops[..n])
    && LastAt(start, drops[..n]) <= drops[n].at
    && (drops[n].kept <==> Offered(start, drops) >= 1.0)
  }

  function KeptCount(drops: seq<Drop>): nat {
    if drops == [] then 0
    else KeptCount(drops[..|drops| - 1]) + if drops[|drops| - 1].kept then 1 else 0
  }

  lemma {:induction false} GovernedPrefix(start: real, drops: seq<Drop>, n: nat)
    requires Governed(start, drops) && n <= |drops|
    ensures Governed(start, drops[..n])
    decreases |drops|
  {
    if n == |drops| {
      assert drops[..n] == drops;
    } else {
      GovernedPrefix(start, drops[..|drops| - 1], n);
      assert drops[..|drops| - 1][..n] == drops[..n];
    }
  }

  /** One more drop event keeps the history governed, and the bucket and the
      time of the last refill follow it. */
  lemma AdmitKeeps(start: real, drops: seq<Drop>, now: real)
    requires Governed(start, drops) && LastAt(start, drops) <= now
    ensures var b := Refill(Level(start, drops), now - LastAt(start, drops));
      var more := drops + [Drop(now, b >= 1.0)];
      && Governed(start, more) && LastAt(start, more) == now
      && Level(start, more) == (if b < 1.0 then b else b - 1.0) && 0.0 <= Level(start, more) <= CAPACITY
      && KeptCount(more) == KeptCount(drops) + if b >= 1.0 then 1 else 0
  {
    var b := Refill(Level(start, drops), now - LastAt(start, drops));
    var more := drops + [Drop(now, b >= 1.0)];
    assert more[..|more| - 1] == drops;
    LevelInBounds(start, more);
  }

  lemma {:induction false} LevelInBounds(start: real, drops: seq<Drop>)
    requires Governed(start, drops)
    ensures 0.0 <= Level(start, drops) <= CAPACITY
    decreases |drops|
  {
    if drops != [] {
      var n := |drops| - 1;
      LevelInBounds(start, drops[..n]);
      RefillBounds(Level(start, drops[..n]), drops[n].at - LastAt(start, drops[..n]));
    }
  }

  lemma RefillBounds(b: real, seconds: real)
    requires 0.0 <= b <= CAPACITY && 0.0 <= seconds
    ensures 0.0 <= Refill(b, seconds) <= CAPACITY
    ensures Refill(b, seconds) <= b + 30.0 * seconds
  {
  }

  function Token(kept: bool): real { if kept then 1.0 else 0.0 }

  /** A drop event takes a token or not, and the refill before it is at most the
      time since the one before. */
  lemma LevelStep(start: real, drops: seq<Drop>, n: nat)
    requires Governed(start, drops) && n < |drops|
    ensures Level(start, drops[..n + 1]) + Token(drops[n].kept) <= CAPACITY
    ensures Level(start, drops[..n + 1]) + Token(drops[n].kept)
      <= Level(start, drops[..n]) + 30.0 * (drops[n].at - LastAt(start, drops[..n]))
  {
    assert drops[..n + 1][..n] == drops[..n] && drops[..n + 1][n] == drops[n];
    GovernedPrefix(start, drops, n + 1);
    LevelInBounds(start, drops[..n]);
    RefillBounds(Level(start, drops[..n]), drops[n].at - LastAt(start, drops[..n]));
  }

  lemma KeptStep(drops: seq<Drop>, i: nat, n: nat)
    requires i <= n < |drops|
    ensures KeptCount(drops[i..n + 1]) as real == KeptCount(drops[i..n]) as real + Token(drops[n].kept)
  {
    var window := drops[i..n + 1];
    assert window[..|window| - 1] == drops[i..n] && window[|window| - 1] == drops[n];
  }

  lemma WindowStep(now: real, before: real, level: real, was: real, token: real, first: real, last: real, at: real)
    requires now == before + token
    requires level + token <= was + 30.0 * (at - last)
    requires before + was <= CAPACITY + 30.0 * (last - first)
    ensures now + level <= CAPACITY + 30.0 * (at - first)
  {
  }

  /** In every window of the history at most 30 drop events get an identifier,
      plus 30 for every second from its first event to its last. */
  lemma {:induction false} WindowBound(start: real, drops: seq<Drop>, i: nat, j: nat)
    requires Governed(start, drops) && i < j <= |drops|
    ensures KeptCount(drops[i..j]) as real + Level(start, drops[..j])
      <= CAPACITY + 30.0 * (drops[j - 1].at - drops[i].at)
    decreases j
  {
    var n := j - 1;
    LevelStep(start, drops, n);
    KeptStep(drops, i, n);
    var (now, before) := (KeptCount(drops[i..j]) as real, KeptCount(drops[i..n]) as real);
    if i < n {
      WindowBound(start, drops, i, n);
      WindowStep(now, before, Level(start, drops[..j]), Level(start, drops[..n]), Token(drops[n].kept),
                 drops[i].at, LastAt(start, drops[..n]), drops[n].at);
    } else {
      assert drops[i..n] == [];
    }
  }

  lemma AtMostThirtyPerSecond(start: real, drops: seq<Drop>, i: nat, j: nat)
    requires Governed(start, drops) && i < j <= |drops|
    ensures KeptCount(drops[i..j]) as real <= 30.0 + 30.0 * (drops[j - 1].at - drops[i].at)
  {
    WindowBound(start, drops, i, j);
    GovernedPrefix(start, drops, j);
    LevelInBounds(start, drops[..j]);
  }

  /** What the rate leaves for a drop event of a window that begins at event i. */
  function Room(drops: seq<Drop>, i: nat, n: nat): real
    requires i <= n < |drops|
  {
    30.0 + 30.0 * (drops[n].at - drops[i].at) - KeptCount(drops[i..n]) as real
  }

  /** The bucket is as full as the fullest window before it allows, and no
      fuller. */
  lemma {:induction false} FullestWindow(start: real, drops: seq<Drop>, n: nat) returns (i: nat)
    requires Governed(start, drops) && n < |drops|
    ensures i <= n && Offered(start, drops[..n + 1]) == Room(drops, i, n)
  {
    GovernedPrefix(start, drops, n + 1);
    assert drops[..n + 1][..n] == drops[..n] && drops[..n + 1][n] == drops[n];
    i := n;
    assert drops[n..n] == [];
    if n == 0 {
      assert Level(start, drops[..0]) == CAPACITY && LastAt(start, drops[..0]) <= drops[0].at;
    } else if Offered(start, drops[..n + 1]) != CAPACITY {
      i := FullestWindow(start, drops, n - 1);
      assert drops[..n][..n - 1] == drops[..n - 1];
      GovernedPrefix(start, drops, n);
      KeptStep(drops, i, n - 1);
    }
  }

  /** A drop event gets an identifier if and only if it brings no window that
      ends with it above 30 and 30 more for every second. */
  lemma {:induction false} KeptIff(start: real, drops: seq<Drop>, n: nat)
    requires Governed(start, drops) && n < |drops|
    ensures drops[n].kept <==> forall i :: 0 <= i <= n ==>
      KeptCount(drops[i..n]) as real + 1.0 <= 30.0 + 30.0 * (drops[n].at - drops[i].at)
  {
    GovernedPrefix(start, drops, n + 1);
    assert drops[..n + 1][..n] == drops[..n] && drops[..n + 1][n] == drops[n];
    var i := FullestWindow(start, drops, n);
    forall j | 0 <= j <= n && drops[n].kept
      ensures KeptCount(drops[j..n]) as real + 1.0 <= 30.0 + 30.0 * (drops[n].at - drops[j].at)
    {
      KeptStep(drops, j, n);
      AtMostThirtyPerSecond(start, drops, j, n + 1);
    }
  }

  /** A drop event that comes a thirtieth of a second after the last one, or
      later, is always kept. */
  lemma {:induction false} KeptAfterRest(start: real, drops: seq<Drop>, n: nat)
    requires Governed(start, drops) && n < |drops| && 30.0 * (drops[n].at - LastAt(start, drops[..n])) >= 1.0
    ensures drops[n].kept
  {
    GovernedPrefix(start, drops, n + 1);
    assert drops[..n + 1][..n] == drops[..n] && drops[..n + 1][n] == drops[n];
    GovernedPrefix(start, drops, n);
    LevelInBounds(start, drops[..n]);
  }

  // ---- counters -----------------------------------------------------------------------------

  function Count(m: map<string, nat>, k: string): nat { if k in m then m[k] else 0 }

  function Bumped(m: map<string, nat>, k: string): map<string, nat> { m[k := Count(m, k) + 1] }

  /** One counter goes up by one, and no other changes. */
  lemma OneMore(m: map<string, nat>, k: string, j: string)
    ensures Count(Bumped(m, k), j) == Count(m, j) + if j == k then 1 else 0
    ensures j in Bumped(m, k) <==> j in m || j == k
  {
  }

  /** The sum of all counters. */
  ghost function Total(m: map<string, nat>): nat
    decreases |m|
  {
    if m == map[] then 0
    else
      var k :| k in m;
      m[k] + Total(m - {k})
  }

  lemma {:induction false} TotalRemove(m: map<string, nat>, k: string)
    requires k in m
    ensures Total(m) == m[k] + Total(m - {k})
    decreases |m|
  {
    var j :| j in m && Total(m) == m[j] + Total(m - {j});
    if j != k {
      TotalRemove(m - {j}, k);
      TotalRemove(m - {k}, j);
      assert m - {j} - {k} == m - {k} - {j};
    }
  }

  lemma TotalBumped(m: map<string, nat>, k: string)
    ensures Total(Bumped(m, k)) == Total(m) + 1
  {
    TotalRemove(Bumped(m, k), k);
    if k in m {
      TotalRemove(m, k);
      assert Bumped(m, k) - {k} == m - {k};
    } else {
      assert Bumped(m, k) - {k} == m;
    }
  }

  // ---- the buffer ---------------------------------------------------------------------------

  /** The last events of a list, at most so many. */
  function Tail(l: seq<Event>, n: nat): seq<Event> { if |l| <= n then l else l[|l| - n..] }

  ghost predicate Numbered(l: seq<Event>) { forall k :: 0 <= k < |l| ==> l[k].id == k + 1 }

  lemma TailSnoc(l: seq<Event>, n: nat, e: Event)
    requires n > 0
    ensures Tail(l + [e], n) == (if |Tail(l, n)| >= n then Tail(l, n)[1..] else Tail(l, n)) + [e]
  {
  }

  // ---- the collector ------------------------------------------------------------------------

  class Collector {
    var buf: seq<Event>
    var next: nat
    var eventsLost: nat
    var accepted: nat
    var dropped: nat
    var reasons: map<string, nat>
    var hits: map<string, nat>
    var bucket: real
    var lastTok: real

    /** All events that got an identifier, all drop events, the number of calls
        and the time of the start. */
    ghost var kept: seq<Event>
    ghost var drops: seq<Drop>
    ghost var calls: nat
    ghost const start: real

    /** The buffer has the last events, which are numbered without gaps. */
    ghost predicate BufferKept()
      reads this
    {
      buf == Tail(kept, BUFFER_SIZE) && Numbered(kept) && next == |kept|
    }

    /** The bucket follows the history of drop events. */
    ghost predicate BucketKept()
      reads this
    {
      && Governed(start, drops) && bucket == Level(start, drops) && lastTok == LastAt(start, drops)
      && 0.0 <= bucket <= CAPACITY
    }

    ghost predicate Valid()
      reads this
    {
      && BufferKept() && BucketKept()
      && next == calls - eventsLost && accepted + dropped == Total(reasons)
      && dropped == |drops| && eventsLost == |drops| - KeptCount(drops)
    }

    constructor (now: real)
      ensures Valid() && start == now == lastTok && bucket == CAPACITY && calls == 0
    {
      buf, next, eventsLost, accepted, dropped := [], 0, 0, 0, 0;
      reasons, hits, bucket, lastTok := map[], map[], CAPACITY, now;
      kept, drops, calls, start := [], [], 0, now;
    }

    /** Takes one token if there is one. */
    method Admit(now: real) returns (ok: bool)
      requires BucketKept() && lastTok <= now
      modifies this`bucket, this`lastTok, this`drops
      ensures BucketKept() && drops == old(drops) + [Drop(now, ok)]
      ensures KeptCount(drops) == KeptCount(old(drops)) + if ok then 1 else 0
    {
      AdmitKeeps(start, drops, now);
      bucket := Refill(bucket, now - lastTok);
      lastTok := now;
      ok := bucket >= 1.0;
      drops := drops + [Drop(now, ok)];
      if ok {
        bucket := bucket - 1.0;
      }
    }

    /** Gives an event the next identifier and appends it to the buffer. */
    method Append(e: Event)
      requires BufferKept()
      modifies this`buf, this`next, this`kept
      ensures BufferKept() && kept == old(kept) + [e.(id := next)] && next == old(next) + 1
    {
      next := next + 1;
      TailSnoc(kept, BUFFER_SIZE, e.(id := next));
      if |buf| >= BUFFER_SIZE {
        buf := buf[1..];
      }
      buf := buf + [e.(id := next)];
      kept := kept + [e.(id := next)];
    }

    /** Counts a drop or a new flow, or neither. */
    method CountEvent(e: Event)
      requires accepted + dropped == Total(reasons)
      modifies this`accepted, this`dropped, this`reasons, this`hits
      ensures accepted + dropped == Total(reasons)
      ensures dropped == old(dropped) + (if e.drop then 1 else 0)
      ensures accepted == old(accepted) + (if !e.drop && e.kind == FlowNew then 1 else 0)
      ensures reasons == if e.drop || e.kind == FlowNew then Bumped(old(reasons), e.reason) else old(reasons)
      ensures hits ==
        if e.kind != FlowEnd && e.policy != "" then Bumped(old(hits), e.ruleSet + "/" + e.policy) else old(hits)
    {
      if e.kind != FlowEnd && e.policy != "" {
        hits := Bumped(hits, e.ruleSet + "/" + e.policy);
      }
      TotalBumped(reasons, e.reason);
      if e.drop {
        dropped := dropped + 1;
        reasons := Bumped(reasons, e.reason);
      } else if e.kind == FlowNew {
        accepted := accepted + 1;
        reasons := Bumped(reasons, e.reason);
      }
    }

    /** Records one event. Every drop is counted; a drop that finds no token
        gets no identifier and is counted as lost. */
    method Emit(e: Event, now: real)
      requires Valid() && lastTok <= now
      modifies this
      ensures Valid() && calls == old(calls) + 1 && 0.0 <= bucket <= CAPACITY
      ensures dropped == old(dropped) + (if e.drop then 1 else 0)
      ensures accepted == old(accepted) + (if !e.drop && e.kind == FlowNew then 1 else 0)
      ensures reasons == if e.drop || e.kind == FlowNew then Bumped(old(reasons), e.reason) else old(reasons)
      ensures hits ==
        if e.kind != FlowEnd && e.policy != "" then Bumped(old(hits), e.ruleSet + "/" + e.policy) else old(hits)
      ensures drops == if e.drop then old(drops) + [Drop(now, eventsLost == old(eventsLost))] else old(drops)
      ensures eventsLost == old(eventsLost) || (e.drop && eventsLost == old(eventsLost) + 1)
      ensures kept == if eventsLost == old(eventsLost) then old(kept) + [e.(id := next)] else old(kept)
    {
      calls := calls + 1;
      CountEvent(e);
      if e.drop {
        var ok := Admit(now);
        if !ok {
          eventsLost := eventsLost + 1;
          return;
        }
      }
      Append(e);
    }

    /** The last events, at most so many. */
    method Recent(n: nat) returns (l: seq<Event>)
      requires Valid()
      ensures |l| == if n <= |buf| then n else |buf|
      ensures l == kept[|kept| - |l|..]
      ensures forall k :: 0 <= k < |l| ==> l[k].id == next - |l| + k + 1
    {
      var m := if n > |buf| then |buf| else n;
      l := buf[|buf| - m..];
    }
  }

  /** What the invariant says about a window of drop events of a collector. */
  lemma CollectorWindow(c: Collector, i: nat, j: nat)
    requires c.Valid() && i < j <= |c.drops|
    ensures KeptCount(c.drops[i..j]) as real <= 30.0 + 30.0 * (c.drops[j - 1].at - c.drops[i].at)
  {
    AtMostThirtyPerSecond(c.start, c.drops, i, j);
  }
}
