/** What an operation of the repository leaves, in terms of the trees alone, and
    that the store does it. */
module Updates {
  import opened Prelude
  import opened Findings
  import opened Store

  // ---- changes of a tree ------------------------------------------------------------------------

  ghost predicate LastTouch(changes: seq<Change>, p: Path, i: int) {
    0 <= i < |changes| && changes[i].path == p && forall j :: i < j < |changes| ==> changes[j].path != p
  }

  /** Each file is what the last change of it says, or as it was. */
  ghost predicate Leaves(m: Files, changes: seq<Change>, tree: Files) { forall p :: LeavesAt(m, changes, tree, p) }

  ghost predicate LeavesAt(m: Files, changes: seq<Change>, tree: Files, p: Path) {
    if exists i :: LastTouch(changes, p, i) then
      exists i :: LastTouch(changes, p, i) && At(tree, p) == changes[i].obj
    else At(tree, p) == At(m, p)
  }

  /** Trees left by the same changes are the same. */
  lemma {:induction false} OneTree(m: Files, changes: seq<Change>, a: Files, b: Files)
    requires Leaves(m, changes, a) && Leaves(m, changes, b)
    ensures a == b
  {
    forall p ensures At(a, p) == At(b, p) {
      assert LeavesAt(m, changes, a, p) && LeavesAt(m, changes, b, p);
    }
    forall p ensures p in a <==> p in b {
      assert At(a, p) == At(b, p);
    }
    forall p | p in a ensures a[p] == b[p] {
      assert At(a, p) == At(b, p);
    }
  }

  lemma {:induction false} WrittenLeaves(m: Files, changes: seq<Change>)
    ensures Leaves(m, changes, Written(m, changes))
    decreases |changes|
  {
    if changes != [] {
      var c := changes[0];
      var n := if c.obj.Some? then m[c.path := c.obj.value] else m - {c.path};
      WrittenLeaves(n, changes[1..]);
      forall p ensures LeavesAt(m, changes, Written(m, changes), p) {
        assert LeavesAt(n, changes[1..], Written(m, changes), p);
        TouchCons(changes, p);
        if p == c.path { assert At(n, p) == c.obj; }
      }
    }
  }

  lemma {:induction false} TouchCons(changes: seq<Change>, p: Path)
    requires changes != []
    ensures forall i :: 0 < i ==> (LastTouch(changes, p, i) <==> LastTouch(changes[1..], p, i - 1))
    ensures forall i :: LastTouch(changes[1..], p, i) ==> LastTouch(changes, p, i + 1)
    ensures LastTouch(changes, p, 0) <==> changes[0].path == p && forall i :: !LastTouch(changes[1..], p, i)
  {
    forall i ensures LastTouch(changes[1..], p, i) ==> LastTouch(changes, p, i + 1) {
      if LastTouch(changes[1..], p, i) {
        forall j | i + 1 < j < |changes| ensures changes[j].path != p {
          assert changes[1..][j - 1] == changes[j];
        }
      }
    }
    forall i | LastTouch(changes, p, i) && 0 < i ensures LastTouch(changes[1..], p, i - 1) {
      assert changes[1..][i - 1] == changes[i];
    }
    if changes[0].path == p && !LastTouch(changes, p, 0) {
      SomeLast(changes[1..], p);
    }
  }

  lemma {:induction false} SomeLast(changes: seq<Change>, p: Path)
    requires exists j :: 0 <= j < |changes| && changes[j].path == p
    ensures exists i :: LastTouch(changes, p, i)
  {
    var k := |changes| - 1;
    if changes[k].path == p {
      assert LastTouch(changes, p, k);
    } else {
      SomeLast(changes[..k], p);
      var i :| LastTouch(changes[..k], p, i);
      assert LastTouch(changes, p, i);
    }
  }

  // ---- updates of a history ---------------------------------------------------------------------

  /** The first changed file that is no longer as the client saw it. */
  ghost predicate Conflicts(h: seq<Files>, base: nat, changes: seq<Change>, i: int)
    requires base < |h|
  {
    && 0 <= i < |changes| && At(h[base], changes[i].path) != At(h[|h| - 1], changes[i].path)
    && forall j :: 0 <= j < i ==> At(h[base], changes[j].path) == At(h[|h| - 1], changes[j].path)
  }

  /** What an update makes of the last tree: nothing from an unknown or a
      conflicting base, nor if it changes nothing. */
  ghost predicate Updates(h: seq<Files>, base: Option<nat>, changes: seq<Change>, out: Result<Files, Failure>)
    requires h != []
  {
    var head := h[|h| - 1];
    if changes != [] && base.Some? && base.value >= |h| then out == Result.Err(UnknownBase)
    else if changes != [] && base.Some? && exists i :: Conflicts(h, base.value, changes, i) then
      exists i :: Conflicts(h, base.value, changes, i) && out == Result.Err(Conflict(changes[i].path))
    else if Leaves(head, changes, head) then out == Result.Err(NoChange)
    else out.Ok? && Leaves(head, changes, out.value)
  }

  lemma {:induction false} ConflictRead(h: seq<Files>, base: nat, changes: seq<Change>)
    requires h != [] && base < |h|
    ensures match FirstConflict(h, Some(base), changes)
      case Some(f) => exists i :: Conflicts(h, base, changes, i) && f == Conflict(changes[i].path)
      case None => forall i :: !Conflicts(h, base, changes, i)
    decreases |changes|
  {
    if base != |h| - 1 && changes != [] {
      if At(h[base], changes[0].path) != At(h[|h| - 1], changes[0].path) {
        assert Conflicts(h, base, changes, 0);
      } else {
        ConflictRead(h, base, changes[1..]);
        forall i ensures Conflicts(h, base, changes, i) <==> i > 0 && Conflicts(h, base, changes[1..], i - 1) {
          if i > 0 && Conflicts(h, base, changes[1..], i - 1) {
            forall j | 0 <= j < i ensures At(h[base], changes[j].path) == At(h[|h| - 1], changes[j].path) {
              assert j > 0 ==> changes[1..][j - 1] == changes[j];
            }
          }
          if Conflicts(h, base, changes, i) && i > 0 {
            assert changes[1..][i - 1] == changes[i];
          }
        }
        var f := FirstConflict(h, Some(base), changes[1..]);
        if f.Some? {
          var i :| Conflicts(h, base, changes[1..], i) && f.value == Conflict(changes[1..][i].path);
          assert Conflicts(h, base, changes, i + 1);
        }
      }
    }
  }

  lemma {:induction false} UpdateIsRight(h: seq<Files>, base: Option<nat>, changes: seq<Change>)
    requires h != []
    ensures Updates(h, base, changes, UpdateOf(h, base, Ok(changes)))
  {
    var head := h[|h| - 1];
    WrittenLeaves(head, changes);
    if Leaves(head, changes, head) { OneTree(head, changes, head, Written(head, changes)); }
    if base.Some? && base.value < |h| { ConflictRead(h, base.value, changes); }
  }

  // ---- imports ----------------------------------------------------------------------------------

  /** The whole of an import: the Users of HEAD stay if it has none. */
  ghost predicate IsWhole(s: Schema, incoming: Files, head: Files, whole: Files) {
    forall p :: At(whole, p) ==
      if p in incoming then Some(incoming[p])
      else if s.user(p) && (forall q :: q in incoming ==> !s.user(q)) then At(head, p) else None
  }

  /** An import is refused for the errors of the whole, and replaces the tree by
      it if there are none. */
  ghost predicate ImportAnswers(s: Schema, incoming: Files, newId: (Path, nat) -> string, head: Files,
                                out: Result<seq<Change>, ApiError>)
  {
    exists whole :: IsWhole(s, incoming, head, whole) && Replaced(s, whole, newId, head, out)
  }

  ghost predicate Replaced(s: Schema, whole: Files, newId: (Path, nat) -> string, head: Files,
                           out: Result<seq<Change>, ApiError>)
  {
    match out
    case Err(e) =>
      e.NotValid? && e.errors != [] && forall x :: x in e.errors <==> x in s.validate(whole) && x.severity == Error
    case Ok(changes) =>
      && (forall x :: x in s.validate(whole) ==> x.severity != Error)
      && AllStored(whole, newId, head, Written(head, changes))
  }

  ghost predicate AllStored(whole: Files, newId: (Path, nat) -> string, head: Files, tree: Files) {
    tree.Keys == whole.Keys && forall p :: p in whole ==> Stored(whole[p], At(head, p), p, newId, tree[p])
  }

  lemma {:induction false} WholeRead(s: Schema, incoming: Files, head: Files)
    ensures IsWhole(s, incoming, head, WithUsers(s, incoming, head))
  {
  }

  lemma {:induction false} ImportIsRight(s: Schema, incoming: Files, newId: (Path, nat) -> string, head: Files)
    requires Enumerates(s)
    ensures ImportAnswers(s, incoming, newId, head, Import(s, incoming, newId, head))
  {
    var whole := WithUsers(s, incoming, head);
    WholeRead(s, incoming, head);
    forall x ensures x in Errors(s.validate(whole)) <==> x in s.validate(whole) && x.severity == Error {
      ErrorsMembers(s.validate(whole), x);
    }
    var out := Import(s, incoming, newId, head);
    if out.Ok? {
      ImportWrites(whole, head, s.list(head), s.list(whole), newId);
      AssignedStored(whole, newId, head);
    }
    assert Replaced(s, whole, newId, head, out);
  }

  lemma {:induction false} AssignedStored(whole: Files, newId: (Path, nat) -> string, head: Files)
    ensures AllStored(whole, newId, head, Imported(whole, head, newId))
  {
    forall p | p in whole ensures Stored(whole[p], At(head, p), p, newId, Imported(whole, head, newId)[p]) {
      AssignStores(whole[p], At(head, p), p, newId);
    }
  }

  // ---- operations -------------------------------------------------------------------------------

  /** What an operation comes to. */
  ghost predicate RightOutcome(s: Schema, h: seq<Files>, op: Op, out: Result<Files, Failure>)
    requires h != []
  {
    match op
    case Mutating(base, req, newId) =>
      exists made :: Answers(s, req, newId, h[|h| - 1], made) && Concludes(h, base, made, out)
    case Importing(base, incoming, newId) =>
      exists made :: ImportAnswers(s, incoming, newId, h[|h| - 1], made) && Concludes(h, base, made, out)
    case Reverting(rev) =>
      if rev >= |h| then out == Result.Err(UnknownRevision)
      else if h[rev] == h[|h| - 1] then out == Result.Err(NoChange)
      else out == Result.Ok(h[rev])
  }

  ghost predicate Concludes(h: seq<Files>, base: Option<nat>, made: Result<seq<Change>, ApiError>,
                            out: Result<Files, Failure>)
    requires h != []
  {
    match made
    case Err(e) => out == Result.Err(Rejected(e))
    case Ok(changes) => Updates(h, base, changes, out)
  }

  /** Every operation comes to what it should. */
  lemma {:induction false} OutcomeIsRight(s: Schema, h: seq<Files>, op: Op)
    requires h != [] && Enumerates(s)
    ensures RightOutcome(s, h, op, Outcome(s, h, op))
  {
    var head := h[|h| - 1];
    match op
    case Mutating(base, req, newId) =>
      var made := Mutation(s, req, newId, head);
      MutationAnswers(s, req, newId, head);
      if made.Ok? { UpdateIsRight(h, base, made.value); }
      assert Concludes(h, base, made, UpdateOf(h, base, made));
    case Importing(base, incoming, newId) =>
      var made := Import(s, incoming, newId, head);
      ImportIsRight(s, incoming, newId, head);
      if made.Ok? { UpdateIsRight(h, base, made.value); }
      assert Concludes(h, base, made, UpdateOf(h, base, made));
    case Reverting(rev) =>
  }
}
