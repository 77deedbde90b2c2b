/** Resolution of references through nested groups: an object graph whose
    groups may contain each other, even in a cycle. */
module Expand {
  import opened Prelude
  import opened Model

  /** Leaves are Addresses or Services; a leaf name hides a group of the same
      name. */
  datatype Graph<T> = Graph(leaves: map<Name, T>, groups: map<Name, seq<Name>>)

  function AddressGraph(t: Tree): Graph<AddressSpec> {
    Graph(Index(t.addresses), Members(Index(t.addressGroups)))
  }

  function ServiceGraph(t: Tree): Graph<ServiceSpec> {
    Graph(Index(t.services), Members(Index(t.serviceGroups)))
  }

  function Members(m: map<Name, GroupSpec>): map<Name, seq<Name>> {
    map n | n in m :: m[n].members
  }

  /** The names a walk visits next from a name. */
  function Successors<T>(g: Graph<T>, n: Name): seq<Name> {
    if n !in g.leaves && n in g.groups then g.groups[n] else []
  }

  ghost predicate IsPath<T>(g: Graph<T>, p: seq<Name>) {
    && p != []
    && forall i :: 0 <= i < |p| - 1 ==> p[i + 1] in Successors(g, p[i])
  }

  /** Some chain of memberships leads from one name to the other. */
  ghost predicate Reaches<T>(g: Graph<T>, a: Name, b: Name) {
    exists p :: IsPath(g, p) && p[0] == a && p[|p| - 1] == b
  }

  // ---- the walk as a function ---------------------------------------------------

  datatype Walked = Walked(seen: set<Name>, out: seq<Name>)

  /** The names visited and the leaves found, in order, when a list of names is
      walked with some names already visited. */
  function Walk<T>(g: Graph<T>, todo: seq<Name>, seen: set<Name>): (r: Walked)
    ensures seen <= r.seen
    decreases |g.groups.Keys - seen|, |todo|
  {
    if todo == [] then Walked(seen, [])
    else if todo[0] in seen then Walk(g, todo[1..], seen)
    else
      var n := todo[0];
      var seen1 := seen + {n};
      SubsetCard(g.groups.Keys - seen1, g.groups.Keys - seen);
      if n in g.leaves then
        var rest := Walk(g, todo[1..], seen1);
        Walked(rest.seen, [n] + rest.out)
      else if n in g.groups then
        assert n in g.groups.Keys - seen;
        var inner := Walk(g, g.groups[n], seen1);
        SubsetCard(g.groups.Keys - inner.seen, g.groups.Keys - seen1);
        var rest := Walk(g, todo[1..], inner.seen);
        Walked(rest.seen, inner.out + rest.out)
      else Walk(g, todo[1..], seen1)
  }

  /** The leaf names a reference resolves to. */
  function Leaves<T>(g: Graph<T>, ref: Name): seq<Name> { Walk(g, [ref], {}).out }

  function Resolve<T>(g: Graph<T>, names: seq<Name>): (r: seq<T>)
    ensures |r| <= |names|
  {
    if names == [] then []
    else if names[0] in g.leaves then [g.leaves[names[0]]] + Resolve(g, names[1..])
    else Resolve(g, names[1..])
  }

  function Expanded<T>(g: Graph<T>, ref: Name): seq<T> { Resolve(g, Leaves(g, ref)) }

  // ---- what the walk computes ---------------------------------------------------

  /** New names are exactly what the walk adds, each new name's successors have
      been visited too, and the output lists each new leaf once. */
  ghost predicate Complete<T>(g: Graph<T>, todo: seq<Name>, seen: set<Name>, r: Walked) {
    && seen <= r.seen
    && (forall n :: n in todo ==> n in r.seen)
    && (forall n, m :: n in r.seen - seen && m in Successors(g, n) ==> m in r.seen)
    && NoDup(r.out)
    && (forall n :: n in r.out <==> n in r.seen - seen && n in g.leaves)
  }

  lemma {:induction false} WalkComplete<T>(g: Graph<T>, todo: seq<Name>, seen: set<Name>)
    ensures Complete(g, todo, seen, Walk(g, todo, seen))
    decreases |g.groups.Keys - seen|, |todo|
  {
    if todo != [] {
      var n := todo[0];
      if n in seen {
        WalkComplete(g, todo[1..], seen);
      } else {
        var seen1 := seen + {n};
        SubsetCard(g.groups.Keys - seen1, g.groups.Keys - seen);
        if n !in g.leaves && n in g.groups {
          assert n in g.groups.Keys - seen;
          var inner := Walk(g, g.groups[n], seen1);
          SubsetCard(g.groups.Keys - inner.seen, g.groups.Keys - seen1);
          WalkComplete(g, g.groups[n], seen1);
          WalkComplete(g, todo[1..], inner.seen);
          CompleteGroup(g, todo, seen, inner, Walk(g, todo[1..], inner.seen));
        } else {
          WalkComplete(g, todo[1..], seen1);
          CompleteOther(g, todo, seen, Walk(g, todo[1..], seen1));
        }
      }
    }
  }

  lemma CompleteGroup<T>(g: Graph<T>, todo: seq<Name>, seen: set<Name>, inner: Walked, rest: Walked)
    requires todo != [] && todo[0] !in seen && todo[0] !in g.leaves && todo[0] in g.groups
    requires Complete(g, g.groups[todo[0]], seen + {todo[0]}, inner)
    requires Complete(g, todo[1..], inner.seen, rest)
    ensures Complete(g, todo, seen, Walked(rest.seen, inner.out + rest.out))
  {
    assert forall x :: x in todo <==> x == todo[0] || x in todo[1..];
    var out := inner.out + rest.out;
    forall i, j | 0 <= i < j < |out| ensures out[i] != out[j] {
      assert i < |inner.out| ==> out[i] in inner.out;
      assert j >= |inner.out| ==> out[j] in rest.out;
    }
  }

  lemma CompleteOther<T>(g: Graph<T>, todo: seq<Name>, seen: set<Name>, rest: Walked)
    requires todo != [] && todo[0] !in seen && (todo[0] in g.leaves || todo[0] !in g.groups)
    requires Complete(g, todo[1..], seen + {todo[0]}, rest)
    ensures Complete(g, todo, seen, Walked(rest.seen, if todo[0] in g.leaves then [todo[0]] + rest.out else rest.out))
  {
  }

  /** Every visited name is reachable from the list. */
  lemma {:induction false} WalkSound<T>(g: Graph<T>, todo: seq<Name>, seen: set<Name>, x: Name)
    requires x in Walk(g, todo, seen).seen - seen
    ensures exists n :: n in todo && Reaches(g, n, x)
    decreases |g.groups.Keys - seen|, |todo|
  {
    var n := todo[0];
    assert forall y :: y in todo <==> y == n || y in todo[1..];
    if n in seen {
      WalkSound(g, todo[1..], seen, x);
    } else if x == n {
      var p := [n];
      assert IsPath(g, p) && p[0] == n && p[|p| - 1] == x;
      assert n in todo && Reaches(g, n, x);
    } else {
      var seen1 := seen + {n};
      SubsetCard(g.groups.Keys - seen1, g.groups.Keys - seen);
      if n !in g.leaves && n in g.groups {
        assert n in g.groups.Keys - seen;
        var inner := Walk(g, g.groups[n], seen1);
        SubsetCard(g.groups.Keys - inner.seen, g.groups.Keys - seen1);
        if x in inner.seen {
          WalkSound(g, g.groups[n], seen1, x);
          var m :| m in g.groups[n] && Reaches(g, m, x);
          ReachesStep(g, n, m, x);
        } else {
          WalkSound(g, todo[1..], inner.seen, x);
        }
      } else {
        WalkSound(g, todo[1..], seen1, x);
      }
    }
  }

  lemma ReachesStep<T>(g: Graph<T>, n: Name, m: Name, x: Name)
    requires m in Successors(g, n) && Reaches(g, m, x)
    ensures Reaches(g, n, x)
  {
    var p :| IsPath(g, p) && p[0] == m && p[|p| - 1] == x;
    assert IsPath(g, [n] + p);
  }

  /** A set closed under membership holds everything a path reaches. */
  lemma {:induction false} ClosedHoldsPath<T>(g: Graph<T>, s: set<Name>, p: seq<Name>)
    requires IsPath(g, p) && p[0] in s
    requires forall n, m :: n in s && m in Successors(g, n) ==> m in s
    ensures p[|p| - 1] in s
  {
    if |p| > 1 {
      assert p[1] in Successors(g, p[0]);
      assert IsPath(g, p[1..]) by {
        forall i | 0 <= i < |p[1..]| - 1 ensures p[1..][i + 1] in Successors(g, p[1..][i]) {
          assert p[i + 2] in Successors(g, p[i + 1]);
        }
      }
      ClosedHoldsPath(g, s, p[1..]);
    }
  }

  /** A reference resolves to exactly the leaves it reaches, each once, even
      through cyclic groups. */
  lemma LeavesExact<T>(g: Graph<T>, ref: Name)
    ensures NoDup(Leaves(g, ref))
    ensures forall x :: x in Leaves(g, ref) <==> x in g.leaves && Reaches(g, ref, x)
  {
    var r := Walk(g, [ref], {});
    WalkComplete(g, [ref], {});
    forall x | x in r.seen ensures Reaches(g, ref, x) {
      WalkSound(g, [ref], {}, x);
    }
    forall x | Reaches(g, ref, x) ensures x in r.seen {
      var p :| IsPath(g, p) && p[0] == ref && p[|p| - 1] == x;
      ClosedHoldsPath(g, r.seen, p);
    }
  }

  lemma {:induction false} ResolveMembers<T>(g: Graph<T>, names: seq<Name>, v: T)
    ensures v in Resolve(g, names) <==> exists n :: n in names && n in g.leaves && g.leaves[n] == v
  {
    if names != [] {
      ResolveMembers(g, names[1..], v);
      assert forall x :: x in names <==> x == names[0] || x in names[1..];
    }
  }

  lemma {:induction false} ResolveAppend<T>(g: Graph<T>, a: seq<Name>, b: seq<Name>)
    ensures Resolve(g, a + b) == Resolve(g, a) + Resolve(g, b)
  {
    if a == [] {
      assert a + b == b;
    } else {
      assert a + b == [a[0]] + (a[1..] + b);
      ResolveAppend(g, a[1..], b);
    }
  }

  lemma ExpandedMembers<T>(g: Graph<T>, ref: Name, v: T)
    ensures v in Expanded(g, ref) <==> exists n :: n in g.leaves && g.leaves[n] == v && Reaches(g, ref, n)
  {
    LeavesExact(g, ref);
    ResolveMembers(g, Leaves(g, ref), v);
  }

  // ---- the walk as it is programmed -----------------------------------------------

  /** The recursive closure with the variables it captures: the visited names
      and the objects found so far. */
  class Walker<T> {
    const g: Graph<T>
    var seen: set<Name>
    var out: seq<T>

    constructor (g: Graph<T>)
      ensures this.g == g && seen == {} && out == []
    {
      this.g := g;
      seen := {};
      out := [];
    }

    method Visit(n: Name)
      modifies this
      ensures (seen, out) == Finish(g, [n], old(seen), old(out))
      decreases |g.groups.Keys - seen|, 0
    {
      WalkOne(g, n, seen);
      assert out + [] == out;
      if n in seen {
        return;
      }
      ghost var before := g.groups.Keys - seen;
      seen := seen + {n};
      if n in g.leaves {
        out := out + [g.leaves[n]];
      } else if n in g.groups {
        assert n in before && n !in g.groups.Keys - seen;
        SubsetCard(g.groups.Keys - seen, before);
        VisitAll(g.groups[n]);
      }
    }

    /** The loop over the members of a group. */
    method VisitAll(members: seq<Name>)
      modifies this
      ensures (seen, out) == Finish(g, members, old(seen), old(out))
      decreases |g.groups.Keys - seen|, 1
    {
      for k := 0 to |members|
        invariant old(seen) <= seen
        invariant Finish(g, members[k..], seen, out) == Finish(g, members, old(seen), old(out))
      {
        SubsetCard(g.groups.Keys - seen, g.groups.Keys - old(seen));
        FinishStep(g, members, k, seen, out);
        Visit(members[k]);
      }
      assert members[|members|..] == [] && out + [] == out;
    }
  }

  /** The visited names and objects once a list of names has been walked. */
  function Finish<T>(g: Graph<T>, todo: seq<Name>, seen: set<Name>, out: seq<T>): (set<Name>, seq<T>) {
    var w := Walk(g, todo, seen);
    (w.seen, out + Resolve(g, w.out))
  }

  lemma FinishStep<T>(g: Graph<T>, todo: seq<Name>, k: nat, seen: set<Name>, out: seq<T>)
    requires k < |todo|
    ensures var (seen1, out1) := Finish(g, [todo[k]], seen, out);
      seen <= seen1 && Finish(g, todo[k + 1..], seen1, out1) == Finish(g, todo[k..], seen, out)
  {
    WalkStep(g, todo, k, seen);
    var w := Walk(g, [todo[k]], seen);
    var a, b := Resolve(g, w.out), Resolve(g, Walk(g, todo[k + 1..], w.seen).out);
    assert out + a + b == out + (a + b);
  }

  lemma WalkOne<T>(g: Graph<T>, n: Name, seen: set<Name>)
    ensures Walk(g, [n], seen) ==
      if n in seen then Walked(seen, [])
      else if n in g.leaves then Walked(seen + {n}, [n])
      else if n in g.groups then Walk(g, g.groups[n], seen + {n})
      else Walked(seen + {n}, [])
    ensures n in g.leaves ==> Resolve(g, [n]) == [g.leaves[n]]
  {
  }

  lemma WalkCons<T>(g: Graph<T>, todo: seq<Name>, seen: set<Name>)
    requires todo != []
    ensures var w := Walk(g, [todo[0]], seen);
      var rest := Walk(g, todo[1..], w.seen);
      Walk(g, todo, seen) == Walked(rest.seen, w.out + rest.out)
  {
  }

  lemma WalkStep<T>(g: Graph<T>, todo: seq<Name>, k: nat, seen: set<Name>)
    requires k < |todo|
    ensures var w := Walk(g, [todo[k]], seen);
      var rest := Walk(g, todo[k + 1..], w.seen);
      var all := Walk(g, todo[k..], seen);
      rest.seen == all.seen && Resolve(g, w.out) + Resolve(g, rest.out) == Resolve(g, all.out)
  {
    WalkCons(g, todo[k..], seen);
    assert todo[k..][1..] == todo[k + 1..];
    var w := Walk(g, [todo[k]], seen);
    ResolveAppend(g, w.out, Walk(g, todo[k + 1..], w.seen).out);
  }

  /** The resolution of a reference, as the callers see it. */
  method Expand<T>(g: Graph<T>, ref: Name) returns (out: seq<T>)
    ensures out == Expanded(g, ref)
    ensures forall v :: v in out <==> exists n :: n in g.leaves && g.leaves[n] == v && Reaches(g, ref, n)
  {
    var w := new Walker(g);
    w.Visit(ref);
    out := w.out;
    forall v ensures v in out <==> exists n :: n in g.leaves && g.leaves[n] == v && Reaches(g, ref, n) {
      ExpandedMembers(g, ref, v);
    }
  }
}
