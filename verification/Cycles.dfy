/** The three-colour search for cycles among groups. */
module Cycles {
  import opened Prelude
  import opened Model

  type Links = map<Name, seq<Name>>

  datatype Color = White | Grey | Black

  function ColorOf(color: map<Name, Color>, n: Name): Color {
    if n in color then color[n] else White
  }

  /** A chain of memberships through groups only. */
  ghost predicate IsChain(graph: Links, p: seq<Name>) {
    && (forall i :: 0 <= i < |p| ==> p[i] in graph)
    && (forall i :: 0 <= i < |p| - 1 ==> p[i + 1] in graph[p[i]])
  }

  ghost predicate HasCycle(graph: Links) {
    exists p :: |p| >= 2 && IsChain(graph, p) && p[0] == p[|p| - 1]
  }

  /** A chain whose last name has occurred before: it runs into a cycle. */
  ghost predicate EndsInCycle(graph: Links, r: seq<Name>) {
    && IsChain(graph, r)
    && exists i :: 0 <= i < |r| - 1 && r[i] == r[|r| - 1]
  }

  lemma ReportGivesCycle(graph: Links, r: seq<Name>)
    requires EndsInCycle(graph, r)
    ensures HasCycle(graph)
  {
    var i :| 0 <= i < |r| - 1 && r[i] == r[|r| - 1];
    var c := r[i..];
    assert IsChain(graph, c) by {
      forall k | 0 <= k < |c| - 1 ensures c[k + 1] in graph[c[k]] {
        assert r[i + k + 1] in graph[r[i + k]];
      }
    }
  }

  /** Every group was finished after the groups it contains. */
  ghost predicate Ranked(graph: Links, done: seq<Name>) {
    forall k, m :: 0 <= k < |done| && done[k] in graph && m in graph[done[k]] && m in graph ==> m in done[..k]
  }

  lemma {:induction false} ChainDescends(graph: Links, done: seq<Name>, p: seq<Name>, k: nat)
    requires Ranked(graph, done) && IsChain(graph, p) && p != [] && k <= |done| && p[0] in done[..k]
    ensures p[|p| - 1] in done[..k]
  {
    if |p| > 1 {
      var j :| 0 <= j < k && done[j] == p[0];
      assert p[1] in graph[p[0]];
      assert p[1] in done[..j];
      assert done[..j] == done[..k][..j];
      assert IsChain(graph, p[1..]) by {
        forall i | 0 <= i < |p[1..]| - 1 ensures p[1..][i + 1] in graph[p[1..][i]] {
          assert p[i + 2] in graph[p[i + 1]];
        }
      }
      ChainDescends(graph, done, p[1..], k);
    }
  }

  function FirstIndex(s: seq<Name>, x: Name): (k: nat)
    requires x in s
    ensures k < |s| && s[k] == x && x !in s[..k]
  {
    if s[0] == x then 0
    else
      var k := FirstIndex(s[1..], x);
      assert s[..k + 1] == [s[0]] + s[1..][..k];
      k + 1
  }

  /** A ranking of all groups excludes cycles. */
  lemma RankedIsAcyclic(graph: Links, done: seq<Name>)
    requires Ranked(graph, done) && forall n :: n in graph ==> n in done
    ensures !HasCycle(graph)
  {
    forall p | |p| >= 2 && IsChain(graph, p) ensures p[0] != p[|p| - 1] {
      var k := FirstIndex(done, p[0]);
      assert p[1] in graph[p[0]];
      assert IsChain(graph, p[1..]) by {
        forall i | 0 <= i < |p[1..]| - 1 ensures p[1..][i + 1] in graph[p[1..][i]] {
          assert p[i + 2] in graph[p[i + 1]];
        }
      }
      ChainDescends(graph, done, p[1..], k);
    }
  }

  /** The captured variables of the search, and in which order groups were
      finished. */
  datatype State = State(color: map<Name, Color>, reports: seq<seq<Name>>, done: seq<Name>)

  ghost predicate Inv(graph: Links, s: State) {
    && s.color.Keys <= graph.Keys
    && (forall n :: n in s.color ==> s.color[n] != White)
    && (forall n :: n in s.done <==> ColorOf(s.color, n) == Black)
    && (s.reports == [] ==> Ranked(graph, s.done))
    && (forall i :: 0 <= i < |s.reports| ==> EndsInCycle(graph, s.reports[i]))
  }

  /** The grey groups are those on the current path. */
  ghost predicate GreyIs(s: State, path: seq<Name>) {
    forall n :: n in path <==> ColorOf(s.color, n) == Grey
  }

  /** What a step of the search never undoes. */
  ghost predicate Grown(was: State, now: State) {
    && was.color.Keys <= now.color.Keys
    && (forall x :: ColorOf(was.color, x) == Black ==> ColorOf(now.color, x) == Black)
    && |was.reports| <= |now.reports|
  }

  /** The first k members that are groups have been finished. */
  ghost predicate Settled(graph: Links, s: State, members: seq<Name>, k: nat)
    requires k <= |members|
  {
    forall j :: 0 <= j < k && members[j] in graph ==> ColorOf(s.color, members[j]) == Black
  }

  function Uncolored(graph: Links, s: State): nat { |graph.Keys - s.color.Keys| }

  function Enter(s: State, n: Name): State { s.(color := s.color[n := Grey]) }

  function Leave(s: State, n: Name): State { s.(color := s.color[n := Black], done := s.done + [n]) }

  lemma EnterKeeps(graph: Links, s: State, n: Name, stack: seq<Name>)
    requires Inv(graph, s) && GreyIs(s, stack) && ColorOf(s.color, n) == White && n in graph
    ensures Inv(graph, Enter(s, n)) && GreyIs(Enter(s, n), stack + [n]) && Grown(s, Enter(s, n))
    ensures Uncolored(graph, Enter(s, n)) < Uncolored(graph, s)
  {
  }

  lemma GrownShrinks(graph: Links, was: State, now: State)
    requires Grown(was, now)
    ensures Uncolored(graph, now) <= Uncolored(graph, was)
  {
    SubsetCard(graph.Keys - now.color.Keys, graph.Keys - was.color.Keys);
  }

  lemma GrownChain(graph: Links, a: State, b: State, c: State, members: seq<Name>, k: nat)
    requires Grown(a, b) && Grown(b, c) && k < |members|
    requires b.reports == [] ==> Settled(graph, b, members, k)
    requires c.reports == [] && members[k] in graph ==> ColorOf(c.color, members[k]) == Black
    ensures Grown(a, c)
    ensures c.reports == [] ==> Settled(graph, c, members, k + 1)
  {
  }

  lemma LeaveKeeps(graph: Links, s: State, n: Name, stack: seq<Name>)
    requires Inv(graph, s) && GreyIs(s, stack + [n]) && n !in stack && n in graph
    requires s.reports == [] ==> Settled(graph, s, graph[n], |graph[n]|)
    ensures Inv(graph, Leave(s, n)) && GreyIs(Leave(s, n), stack) && Grown(s, Leave(s, n))
  {
    assert n in stack + [n];
    RankedAppend(graph, s.done, n, s.reports == []);
    assert forall x :: x in stack + [n] <==> x in stack || x == n;
  }

  /** The search with the variables its closure captures: the colours and the
      cycles reported so far. */
  class Search {
    const graph: Links
    var color: map<Name, Color>
    var reports: seq<seq<Name>>
    ghost var done: seq<Name>

    ghost function Now(): State
      reads this
    {
      State(color, reports, done)
    }

    constructor (graph: Links)
      ensures this.graph == graph && Inv(graph, Now()) && GreyIs(Now(), []) && reports == []
    {
      this.graph := graph;
      color := map[];
      reports := [];
      done := [];
    }

    method Dfs(n: Name, path: seq<Name>, ghost stack: seq<Name>)
      requires Inv(graph, Now()) && GreyIs(Now(), stack) && path == stack + [n]
      requires IsChain(graph, path) && ColorOf(color, n) == White
      modifies this
      ensures Inv(graph, Now()) && GreyIs(Now(), stack) && Grown(old(Now()), Now())
      ensures ColorOf(color, n) == Black
      decreases Uncolored(graph, Now()), 1
    {
      assert n !in stack && n in graph by { assert path[|stack|] == n; }
      EnterKeeps(graph, Now(), n, stack);
      color := color[n := Grey];
      assert Now() == Enter(old(Now()), n);
      FollowAll(graph[n], path);
      LeaveKeeps(graph, Now(), n, stack);
      ghost var s := Now();
      color := color[n := Black];
      done := done + [n];
      assert Now() == Leave(s, n);
    }

    /** The loop over the members of the group at the end of the path. */
    method FollowAll(members: seq<Name>, path: seq<Name>)
      requires Inv(graph, Now()) && GreyIs(Now(), path) && path != [] && IsChain(graph, path)
      requires members == graph[path[|path| - 1]]
      modifies this
      ensures Inv(graph, Now()) && GreyIs(Now(), path) && Grown(old(Now()), Now())
      ensures reports == [] ==> Settled(graph, Now(), members, |members|)
      decreases Uncolored(graph, Now()), 3
    {
      for k := 0 to |members|
        invariant Inv(graph, Now()) && GreyIs(Now(), path) && Grown(old(Now()), Now())
        invariant reports == [] ==> Settled(graph, Now(), members, k)
      {
        ghost var was := Now();
        GrownShrinks(graph, old(Now()), was);
        Follow(members[k], path);
        GrownChain(graph, old(Now()), was, Now(), members, k);
      }
    }

    /** One member of the group at the end of the path. */
    method Follow(mem: Name, path: seq<Name>)
      requires Inv(graph, Now()) && GreyIs(Now(), path) && path != [] && IsChain(graph, path)
      requires mem in graph[path[|path| - 1]]
      modifies this
      ensures Inv(graph, Now()) && GreyIs(Now(), path) && Grown(old(Now()), Now())
      ensures reports == [] && mem in graph ==> ColorOf(color, mem) == Black
      decreases Uncolored(graph, Now()), 2
    {
      if mem in graph {
        ChainAppend(graph, path, mem);
        match ColorOf(color, mem)
        case Grey =>
          ReportIsCycle(graph, path, mem);
          reports := reports + [path + [mem]];
        case White =>
          Dfs(mem, path + [mem], path);
        case Black =>
      }
    }
  }

  lemma ChainAppend(graph: Links, path: seq<Name>, mem: Name)
    requires path != [] && IsChain(graph, path) && mem in graph && mem in graph[path[|path| - 1]]
    ensures IsChain(graph, path + [mem])
  {
  }

  lemma ReportIsCycle(graph: Links, path: seq<Name>, mem: Name)
    requires IsChain(graph, path + [mem]) && mem in path
    ensures EndsInCycle(graph, path + [mem])
  {
    var i :| 0 <= i < |path| && path[i] == mem;
    var r := path + [mem];
    assert r[i] == r[|r| - 1];
  }

  lemma RankedAppend(graph: Links, done: seq<Name>, n: Name, clean: bool)
    requires clean ==> Ranked(graph, done) && n in graph && forall m :: m in graph[n] && m in graph ==> m in done
    ensures clean ==> Ranked(graph, done + [n])
  {
    var d := done + [n];
    forall k, m | clean && 0 <= k < |d| && d[k] in graph && m in graph[d[k]] && m in graph ensures m in d[..k] {
      assert d[..k] == done[..k];
    }
  }

  /** The check of one kind of groups: it terminates on every graph, reports
      something exactly when the graph has a cycle, and every reported path
      runs into a cycle. */
  method Check(order: seq<Name>, graph: Links) returns (reports: seq<seq<Name>>)
    requires forall n :: n in order <==> n in graph
    ensures reports != [] <==> HasCycle(graph)
    ensures forall i :: 0 <= i < |reports| ==> EndsInCycle(graph, reports[i])
  {
    var s := new Search(graph);
    for i := 0 to |order|
      invariant s.graph == graph && Inv(graph, s.Now()) && GreyIs(s.Now(), [])
      invariant forall j :: 0 <= j < i ==> ColorOf(s.color, order[j]) == Black
    {
      if ColorOf(s.color, order[i]) == White {
        s.Dfs(order[i], [order[i]], []);
      }
    }
    reports := s.reports;
    if reports == [] {
      RankedIsAcyclic(graph, s.done);
    } else {
      ReportGivesCycle(graph, reports[0]);
    }
  }
}
