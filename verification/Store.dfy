/** The Config Manager and what may be committed: a history of immutable trees,
    changed by mutations, imports and reverts under one lock. */
module Store {
  import opened Prelude
  import opened Findings
  import opened Model

  datatype Path = Path(kind: string, name: Name)

  /** An object with its identifier and those of its rules, by name. */
  datatype Obj = Obj(uuid: string, rules: seq<(Name, string)>, body: string)

  type Files = map<Path, Obj>

  /** The key of a finding leaves out the line and the severity. */
  datatype Key = Key(file: Name, index: int, rule: RuleId, reason: string)

  function KeyOf(e: Finding): Key { Key(e.file, e.index, e.rule, e.reason) }

  /** What the configuration model fixes: the validator, the known kinds, the
      shipped objects that cannot be deleted, the System singleton, the Users,
      the order in which the objects of a tree are listed, and the shape of
      identifiers. */
  datatype Schema = Schema(validate: Files -> seq<Finding>, known: string -> bool, shipped: Path -> bool,
                           system: string -> bool, user: Path -> bool, list: Files -> seq<Path>,
                           identifier: string -> bool)

  function Errors(l: seq<Finding>): seq<Finding> {
    if l == [] then [] else (if l[0].severity == Error then [l[0]] else []) + Errors(l[1..])
  }

  ghost predicate IsValid(s: Schema, m: Files) { Errors(s.validate(m)) == [] }

  /** Each rule has one severity in all findings. */
  ghost predicate RulesApart(s: Schema) { forall m :: Graded(s.validate(m)) }

  lemma {:induction false} ErrorsMembers(l: seq<Finding>, e: Finding)
    ensures e in Errors(l) <==> e in l && e.severity == Error
  {
    if l != [] {
      ErrorsMembers(l[1..], e);
      assert forall x :: x in l <==> x == l[0] || x in l[1..];
    }
  }

  // ---- the filter ---------------------------------------------------------------------------

  function Keys(l: seq<Finding>): set<Key> { set e | e in l :: KeyOf(e) }

  function Without(l: seq<Finding>, had: set<Key>): seq<Finding> {
    if l == [] then [] else (if KeyOf(l[0]) !in had then [l[0]] else []) + Without(l[1..], had)
  }

  /** The errors after a change that were not findings before it. */
  function NewErrors(before: seq<Finding>, after: seq<Finding>): seq<Finding> {
    Without(Errors(after), Keys(before))
  }

  method CollectKeys(l: seq<Finding>) returns (keys: set<Key>)
    ensures keys == Keys(l)
  {
    keys := {};
    for i := 0 to |l|
      invariant keys == Keys(l[..i])
    {
      assert l[..i + 1] == l[..i] + [l[i]];
      keys := keys + {KeyOf(l[i])};
    }
    assert l[..|l|] == l;
  }

  method FindNewErrors(before: seq<Finding>, after: seq<Finding>) returns (out: seq<Finding>)
    ensures out == NewErrors(before, after)
  {
    var had := CollectKeys(before);
    out := FilterKeys(Errors(after), had);
  }

  method FilterKeys(l: seq<Finding>, had: set<Key>) returns (out: seq<Finding>)
    ensures out == Without(l, had)
  {
    out := [];
    for i := 0 to |l|
      invariant out + Without(l[i..], had) == Without(l, had)
    {
      assert l[i..][0] == l[i] && l[i..][1..] == l[i + 1..];
      ghost var one := if KeyOf(l[i]) !in had then [l[i]] else [];
      Assoc(out, one, Without(l[i + 1..], had));
      if KeyOf(l[i]) !in had {
        out := out + [l[i]];
      }
    }
    assert l[|l|..] == [];
  }

  /** Judged from a valid tree, the filter hides nothing: a change passes it
      exactly when the changed tree is valid. */
  lemma FilterHidesNothing(s: Schema, m: Files, n: Files)
    requires RulesApart(s) && IsValid(s, m)
    ensures NewErrors(s.validate(m), s.validate(n)) == Errors(s.validate(n))
  {
    var (before, after) := (s.validate(m), s.validate(n));
    forall e | e in Errors(after) ensures KeyOf(e) !in Keys(before) {
      ErrorsMembers(after, e);
      forall f | f in before ensures KeyOf(f) != KeyOf(e) {
        ErrorsMembers(before, f);
      }
    }
    NothingRemoved(Errors(after), Keys(before));
  }

  lemma {:induction false} NothingRemoved(l: seq<Finding>, had: set<Key>)
    requires forall e :: e in l ==> KeyOf(e) !in had
    ensures Without(l, had) == l
  {
    if l != [] {
      assert l[0] in l;
      NothingRemoved(l[1..], had);
    }
  }

  // ---- identifiers --------------------------------------------------------------------------

  /** The previous identifier wins, then the given one, then a fresh one. */
  function KeepUuid(cur: string, prev: string, newId: string): string {
    if prev != "" then prev else if cur != "" then cur else newId
  }

  /** The identifier of the last rule of a name. */
  function RuleUuid(rules: seq<(Name, string)>, n: Name): string {
    if rules == [] then ""
    else if rules[|rules| - 1].0 == n then rules[|rules| - 1].1
    else RuleUuid(rules[..|rules| - 1], n)
  }

  function AssignRules(rules: seq<(Name, string)>, prev: seq<(Name, string)>, p: Path,
                       newId: (Path, nat) -> string): (r: seq<(Name, string)>)
    ensures |r| == |rules|
    ensures forall i :: 0 <= i < |rules| ==> r[i].0 == rules[i].0
  {
    if rules == [] then []
    else
      var n := |rules| - 1;
      AssignRules(rules[..n], prev, p, newId)
      + [(rules[n].0, KeepUuid(rules[n].1, RuleUuid(prev, rules[n].0), newId(p, |rules|)))]
  }

  function AssignUuids(o: Obj, prev: Option<Obj>, p: Path, newId: (Path, nat) -> string): Obj {
    match prev
    case None => Obj(KeepUuid(o.uuid, "", newId(p, 0)), AssignRules(o.rules, [], p, newId), o.body)
    case Some(q) => Obj(KeepUuid(o.uuid, q.uuid, newId(p, 0)), AssignRules(o.rules, q.rules, p, newId), o.body)
  }

  /** An object without identifiers. */
  function Strip(o: Obj): Obj {
    Obj("", seq(|o.rules|, i requires 0 <= i < |o.rules| => (o.rules[i].0, "")), o.body)
  }

  ghost predicate SameButUuids(m: Files, n: Files) {
    m.Keys == n.Keys && forall p :: p in m ==> Strip(m[p]) == Strip(n[p])
  }

  /** An identifier is missing or has the shape the schema gives it. */
  predicate IdFits(s: Schema, id: string) { id == "" || s.identifier(id) }

  ghost predicate ObjFits(s: Schema, o: Obj) {
    IdFits(s, o.uuid) && forall i :: 0 <= i < |o.rules| ==> IdFits(s, o.rules[i].1)
  }

  ghost predicate AllFit(s: Schema, m: Files) { forall p :: p in m ==> ObjFits(s, m[p]) }

  /** Fresh identifiers have the shape. */
  ghost predicate GoodIds(s: Schema, newId: (Path, nat) -> string) { forall p, k :: s.identifier(newId(p, k)) }

  /** Validity depends on identifiers by their shape only. */
  ghost predicate IgnoresUuids(s: Schema) {
    && (forall m :: IsValid(s, m) ==> AllFit(s, m))
    && (forall m, n :: SameButUuids(m, n) && AllFit(s, m) && AllFit(s, n) ==> (IsValid(s, m) <==> IsValid(s, n)))
  }

  lemma {:induction false} RuleUuidFits(s: Schema, rules: seq<(Name, string)>, n: Name)
    requires forall i :: 0 <= i < |rules| ==> IdFits(s, rules[i].1)
    ensures IdFits(s, RuleUuid(rules, n))
  {
    if rules != [] && rules[|rules| - 1].0 != n { RuleUuidFits(s, rules[..|rules| - 1], n); }
  }

  lemma {:induction false} AssignedRulesFit(s: Schema, rules: seq<(Name, string)>, prev: seq<(Name, string)>, p: Path,
                                            newId: (Path, nat) -> string)
    requires GoodIds(s, newId) && forall i :: 0 <= i < |rules| ==> IdFits(s, rules[i].1)
    requires forall i :: 0 <= i < |prev| ==> IdFits(s, prev[i].1)
    ensures forall i :: 0 <= i < |rules| ==> IdFits(s, AssignRules(rules, prev, p, newId)[i].1)
  {
    if rules != [] {
      var n := |rules| - 1;
      AssignedRulesFit(s, rules[..n], prev, p, newId);
      RuleUuidFits(s, prev, rules[n].0);
    }
  }

  /** Assigning identifiers keeps their shape. */
  lemma AssignedFits(s: Schema, o: Obj, prev: Option<Obj>, p: Path, newId: (Path, nat) -> string)
    requires GoodIds(s, newId) && ObjFits(s, o) && (prev.Some? ==> ObjFits(s, prev.value))
    ensures ObjFits(s, AssignUuids(o, prev, p, newId))
  {
    AssignedRulesFit(s, o.rules, if prev.Some? then prev.value.rules else [], p, newId);
  }

  lemma {:induction false} AssignRulesKeeps(rules: seq<(Name, string)>, prev: seq<(Name, string)>, p: Path,
                                            newId: (Path, nat) -> string, i: nat)
    requires i < |rules| && RuleUuid(prev, rules[i].0) != ""
    ensures AssignRules(rules, prev, p, newId)[i] == (rules[i].0, RuleUuid(prev, rules[i].0))
  {
    if i < |rules| - 1 { AssignRulesKeeps(rules[..|rules| - 1], prev, p, newId, i); }
  }

  /** The identifier that rules of a name had, that of the last one counting;
      none if it is empty. */
  ghost predicate HadId(rules: seq<(Name, string)>, n: Name, id: string) {
    if exists i :: LastOf(rules, n, i) then exists i :: LastOf(rules, n, i) && rules[i].1 == id else id == ""
  }

  ghost predicate LastOf(rules: seq<(Name, string)>, n: Name, i: int) {
    0 <= i < |rules| && rules[i].0 == n && forall j :: i < j < |rules| ==> rules[j].0 != n
  }

  /** An earlier identifier is never changed, and a fresh one is made only if
      none is known. */
  predicate Identifies(id: string, given: string, had: string, next: string) {
    && (had != "" ==> id == had)
    && (had == "" && given != "" ==> id == given)
    && (had == "" && given == "" ==> id == next)
  }

  /** An object as it was sent, with its identifiers. */
  ghost predicate Stored(o: Obj, was: Option<Obj>, p: Path, newId: (Path, nat) -> string, now: Obj) {
    && Strip(now) == Strip(o) && |now.rules| == |o.rules|
    && Identifies(now.uuid, o.uuid, if was.Some? then was.value.uuid else "", newId(p, 0))
    && forall i :: 0 <= i < |o.rules| ==> RuleStored(o.rules[i], was, newId(p, i + 1), now.rules[i])
  }

  ghost predicate RuleStored(x: (Name, string), was: Option<Obj>, next: string, now: (Name, string)) {
    var rules := if was.Some? then was.value.rules else [];
    now.0 == x.0 && exists had :: HadId(rules, x.0, had) && Identifies(now.1, x.1, had, next)
  }

  lemma {:induction false} HadRead(rules: seq<(Name, string)>, n: Name)
    ensures HadId(rules, n, RuleUuid(rules, n))
  {
    if rules != [] {
      var k := |rules| - 1;
      if rules[k].0 == n {
        assert LastOf(rules, n, k);
      } else {
        HadRead(rules[..k], n);
        forall i ensures LastOf(rules, n, i) <==> LastOf(rules[..k], n, i) {
        }
      }
    }
  }

  lemma {:induction false} RulesStored(rules: seq<(Name, string)>, was: Option<Obj>, p: Path,
                                       newId: (Path, nat) -> string)
    ensures var made := AssignRules(rules, if was.Some? then was.value.rules else [], p, newId);
      forall i :: 0 <= i < |rules| ==> RuleStored(rules[i], was, newId(p, i + 1), made[i])
  {
    if rules != [] {
      var n := |rules| - 1;
      var prev := if was.Some? then was.value.rules else [];
      RulesStored(rules[..n], was, p, newId);
      HadRead(prev, rules[n].0);
      var made := AssignRules(rules, prev, p, newId);
      assert made[..n] == AssignRules(rules[..n], prev, p, newId);
      forall i | 0 <= i < |rules| ensures RuleStored(rules[i], was, newId(p, i + 1), made[i]) {
        if i < n {
          assert made[i] == made[..n][i] && rules[i] == rules[..n][i];
        } else {
          assert Identifies(made[n].1, rules[n].1, RuleUuid(prev, rules[n].0), newId(p, n + 1));
        }
      }
    }
  }

  lemma {:induction false} AssignStores(o: Obj, was: Option<Obj>, p: Path, newId: (Path, nat) -> string)
    ensures Stored(o, was, p, newId, AssignUuids(o, was, p, newId))
  {
    RulesStored(o.rules, was, p, newId);
  }

  // ---- changes ------------------------------------------------------------------------------

  /** Replaces an object, or deletes it. */
  datatype Change = Change(path: Path, obj: Option<Obj>)

  datatype ApiError = NotKnown | Exists | Missing | Singleton | Shipped | NotValid(errors: seq<Finding>)

  datatype Failure = Rejected(error: ApiError) | UnknownBase | Conflict(file: Path) | NoChange | UnknownRevision

  function Written(m: Files, changes: seq<Change>): Files
    decreases |changes|
  {
    if changes == [] then m
    else
      var c := changes[0];
      Written(if c.obj.Some? then m[c.path := c.obj.value] else m - {c.path}, changes[1..])
  }

  function At(m: Files, p: Path): Option<Obj> { if p in m then Some(m[p]) else None }

  datatype Request = Put(path: Path, obj: Obj, create: bool) | Delete(path: Path)

  /** The change one request makes to a tree, if it may be made. */
  function Mutation(s: Schema, r: Request, newId: (Path, nat) -> string, t: Files): Result<seq<Change>, ApiError> {
    var exist := r.path in t;
    var create := r.Put? && r.create;
    if !s.known(r.path.kind) then Err(NotKnown)
    else if create && exist then Err(Exists)
    else if !create && !exist then Err(Missing)
    else if s.system(r.path.kind) && (create || r.Delete?) then Err(Singleton)
    else if r.Delete? && s.shipped(r.path) then Err(Shipped)
    else
      var c := ChangeOf(r, newId, t);
      var errs := NewErrors(s.validate(t), s.validate(Written(t, [c])));
      if errs != [] then Err(NotValid(errs)) else Ok([c])
  }

  /** What acceptance of a mutation means: the tree holds what was asked for, no
      identifier is lost, and a valid tree stays valid. */
  ghost predicate Careful(s: Schema, r: Request, newId: (Path, nat) -> string, t: Files, changes: seq<Change>) {
    && Done(r, newId, t, Written(t, changes))
    && PathsOf(changes) == {r.path} && AllKeepIds(t, Written(t, changes))
    && (RulesApart(s) && IsValid(s, t) ==> IsValid(s, Written(t, changes)))
  }

  /** The tree that a request asks for: the object that was sent is at its path,
      or none is, and everything else is as it was. */
  ghost predicate Done(r: Request, newId: (Path, nat) -> string, t: Files, tree: Files) {
    && (forall p :: p != r.path ==> At(tree, p) == At(t, p))
    && (r.Delete? ==> r.path !in tree)
    && (r.Put? ==> r.path in tree && Stored(r.obj, At(t, r.path), r.path, newId, tree[r.path]))
  }

  /** An error of a tree that was no finding of another one. */
  ghost predicate IsNewError(s: Schema, t: Files, tree: Files, e: Finding) {
    && e in s.validate(tree) && e.severity == Error
    && forall f :: f in s.validate(t) ==> (f.file, f.index, f.rule, f.reason) != (e.file, e.index, e.rule, e.reason)
  }

  ghost predicate Introduces(s: Schema, t: Files, tree: Files, errors: seq<Finding>) {
    forall e :: e in errors <==> IsNewError(s, t, tree, e)
  }

  predicate Creates(r: Request) { r.Put? && r.create }

  /** What is wrong with a request, whatever the rest of the tree. */
  ghost predicate Refused(s: Schema, r: Request, t: Files, e: ApiError) {
    match e
    case NotKnown => !s.known(r.path.kind)
    case Exists => s.known(r.path.kind) && Creates(r) && r.path in t
    case Missing => s.known(r.path.kind) && !Creates(r) && r.path !in t
    case Singleton =>
      s.known(r.path.kind) && s.system(r.path.kind) &&
      ((Creates(r) && r.path !in t) || (r.Delete? && r.path in t))
    case Shipped => s.known(r.path.kind) && !s.system(r.path.kind) && r.Delete? && r.path in t && s.shipped(r.path)
    case NotValid(_) => false
  }

  /** The answer to a request: it is refused for what is wrong with it, or for
      the errors it would introduce, and done if there are none. */
  ghost predicate Answers(s: Schema, r: Request, newId: (Path, nat) -> string, t: Files,
                          out: Result<seq<Change>, ApiError>)
  {
    match out
    case Err(NotValid(errors)) =>
      errors != [] && (forall e :: !Refused(s, r, t, e)) && WouldIntroduce(s, r, newId, t, errors)
    case Err(e) => Refused(s, r, t, e)
    case Ok(changes) =>
      (forall e :: !Refused(s, r, t, e)) && Done(r, newId, t, Written(t, changes)) &&
      Introduces(s, t, Written(t, changes), [])
  }

  ghost predicate WouldIntroduce(s: Schema, r: Request, newId: (Path, nat) -> string, t: Files, errors: seq<Finding>) {
    exists tree :: Done(r, newId, t, tree) && Introduces(s, t, tree, errors)
  }

  lemma {:induction false} WithoutMembers(l: seq<Finding>, had: set<Key>, e: Finding)
    ensures e in Without(l, had) <==> e in l && KeyOf(e) !in had
  {
    if l != [] {
      WithoutMembers(l[1..], had, e);
      assert e in l <==> e == l[0] || e in l[1..];
    }
  }

  lemma {:induction false} NewErrorsRead(s: Schema, t: Files, tree: Files)
    ensures Introduces(s, t, tree, NewErrors(s.validate(t), s.validate(tree)))
  {
    var (before, after) := (s.validate(t), s.validate(tree));
    forall e ensures e in NewErrors(before, after) <==> IsNewError(s, t, tree, e) {
      WithoutMembers(Errors(after), Keys(before), e);
      ErrorsMembers(after, e);
    }
  }

  /** The change a request comes to. */
  function ChangeOf(r: Request, newId: (Path, nat) -> string, t: Files): Change {
    Change(r.path, if r.Delete? then None else Some(AssignUuids(r.obj, At(t, r.path), r.path, newId)))
  }

  lemma {:induction false} ChangeIsDone(r: Request, newId: (Path, nat) -> string, t: Files)
    ensures Done(r, newId, t, Written(t, [ChangeOf(r, newId, t)]))
  {
    var c := ChangeOf(r, newId, t);
    assert [c][1..] == [];
    if r.Put? { AssignStores(r.obj, At(t, r.path), r.path, newId); }
  }

  lemma {:induction false} MutationAnswers(s: Schema, r: Request, newId: (Path, nat) -> string, t: Files)
    ensures Answers(s, r, newId, t, Mutation(s, r, newId, t))
  {
    var tree := Written(t, [ChangeOf(r, newId, t)]);
    ChangeIsDone(r, newId, t);
    NewErrorsRead(s, t, tree);
  }

  method TryMutation(s: Schema, r: Request, newId: (Path, nat) -> string, t: Files)
    returns (out: Result<seq<Change>, ApiError>)
    ensures out == Mutation(s, r, newId, t)
    ensures Answers(s, r, newId, t, out)
    ensures out.Ok? ==> Careful(s, r, newId, t, out.value)
  {
    MutationAnswers(s, r, newId, t);
    if Mutation(s, r, newId, t).Ok? { MutationMeans(s, r, newId, t); }
    var kind := r.path.kind;
    if !s.known(kind) {
      return Err(NotKnown);
    }
    var baseline := s.validate(t);
    var create := r.Put? && r.create;
    if create && r.path in t {
      return Err(Exists);
    } else if !create && r.path !in t {
      return Err(Missing);
    } else if s.system(kind) && (create || r.Delete?) {
      return Err(Singleton);
    }
    var change := Change(r.path, None);
    if r.Delete? {
      if s.shipped(r.path) {
        return Err(Shipped);
      }
    } else {
      change := Change(r.path, Some(AssignUuids(r.obj, At(t, r.path), r.path, newId)));
    }
    var all := s.validate(Written(t, [change]));
    var errs := FindNewErrors(baseline, all);
    if |errs| > 0 {
      return Err(NotValid(errs));
    }
    out := Ok([change]);
  }

  // ---- imports ------------------------------------------------------------------------------

  /** An import without Users keeps those of HEAD. */
  function WithUsers(s: Schema, incoming: Files, head: Files): Files {
    if exists p :: p in incoming && s.user(p) then incoming
    else incoming + (map p | p in head && s.user(p) :: head[p])
  }

  function Deletions(paths: seq<Path>, incoming: Files): seq<Change> {
    if paths == [] then []
    else (if paths[0] !in incoming then [Change(paths[0], None)] else []) + Deletions(paths[1..], incoming)
  }

  function Puts(paths: seq<Path>, incoming: Files, head: Files, newId: (Path, nat) -> string): seq<Change> {
    if paths == [] then []
    else
      var p := paths[0];
      (if p in incoming then [Change(p, Some(AssignUuids(incoming[p], At(head, p), p, newId)))] else [])
      + Puts(paths[1..], incoming, head, newId)
  }

  /** The changes of an import, if it may be made. The imported tree is judged
      by itself, before it gets its identifiers. */
  function Import(s: Schema, incoming: Files, newId: (Path, nat) -> string, head: Files): Result<seq<Change>,
                  ApiError> {
    var whole := WithUsers(s, incoming, head);
    var errs := Errors(s.validate(whole));
    if errs != [] then Err(NotValid(errs))
    else Ok(Deletions(s.list(head), whole) + Puts(s.list(whole), whole, head, newId))
  }

  /** The listing of a tree has all its objects. */
  ghost predicate Enumerates(s: Schema) { forall m :: Lists(s.list(m), m) }

  /** The objects of a tree in some order. */
  ghost predicate Lists(paths: seq<Path>, m: Files) { forall p :: p in paths <==> p in m }

  /** Objects of an import with identifiers. */
  function Assigned(paths: set<Path>, incoming: Files, head: Files, newId: (Path, nat) -> string): Files {
    map p | p in incoming && p in paths :: AssignUuids(incoming[p], At(head, p), p, newId)
  }

  /** What an import leaves: its own objects, with identifiers. */
  function Imported(incoming: Files, head: Files, newId: (Path, nat) -> string): Files {
    Assigned(incoming.Keys, incoming, head, newId)
  }

  method TryImport(s: Schema, incoming: Files, newId: (Path, nat) -> string, head: Files)
    returns (r: Result<seq<Change>, ApiError>)
    requires Enumerates(s)
    ensures r == Import(s, incoming, newId, head)
  {
    var whole := WithUsers(s, incoming, head);
    var errs := Errors(s.validate(whole));
    if errs != [] {
      return Err(NotValid(errs));
    }
    var deletions := ImportDeletions(whole, s.list(head));
    var puts := ImportPuts(whole, head, s.list(whole), newId);
    r := Ok(deletions + puts);
  }

  method ImportDeletions(incoming: Files, headPaths: seq<Path>) returns (changes: seq<Change>)
    ensures changes == Deletions(headPaths, incoming)
  {
    changes := [];
    for i := 0 to |headPaths|
      invariant changes + Deletions(headPaths[i..], incoming) == Deletions(headPaths, incoming)
    {
      assert headPaths[i..][0] == headPaths[i] && headPaths[i..][1..] == headPaths[i + 1..];
      ghost var one := if headPaths[i] !in incoming then [Change(headPaths[i], None)] else [];
      Assoc(changes, one, Deletions(headPaths[i + 1..], incoming));
      if headPaths[i] !in incoming {
        changes := changes + [Change(headPaths[i], None)];
      }
    }
    assert headPaths[|headPaths|..] == [];
  }

  method ImportPuts(incoming: Files, head: Files, paths: seq<Path>, newId: (Path, nat) -> string)
    returns (changes: seq<Change>)
    requires Lists(paths, incoming)
    ensures changes == Puts(paths, incoming, head, newId)
  {
    changes := [];
    for i := 0 to |paths|
      invariant changes + Puts(paths[i..], incoming, head, newId) == Puts(paths, incoming, head, newId)
    {
      var p := paths[i];
      assert paths[i..][0] == p && paths[i..][1..] == paths[i + 1..];
      var one := [Change(p, Some(AssignUuids(incoming[p], At(head, p), p, newId)))];
      Assoc(changes, one, Puts(paths[i + 1..], incoming, head, newId));
      changes := changes + one;
    }
    assert paths[|paths|..] == [];
  }

  lemma {:induction false} WrittenAppend(m: Files, a: seq<Change>, b: seq<Change>)
    ensures Written(m, a + b) == Written(Written(m, a), b)
    decreases |a|
  {
    if a == [] {
      assert a + b == b;
    } else {
      assert a + b == [a[0]] + (a[1..] + b);
      var c := a[0];
      WrittenAppend(if c.obj.Some? then m[c.path := c.obj.value] else m - {c.path}, a[1..], b);
    }
  }

  function Kept(m: Files, paths: seq<Path>, incoming: Files): Files {
    map p | p in m && (p !in paths || p in incoming) :: m[p]
  }

  lemma {:induction false} DeletionsWrite(m: Files, paths: seq<Path>, incoming: Files)
    ensures Written(m, Deletions(paths, incoming)) == Kept(m, paths, incoming)
    decreases |paths|
  {
    if paths != [] {
      assert forall p :: p in paths <==> p == paths[0] || p in paths[1..];
      var rest := Deletions(paths[1..], incoming);
      if paths[0] !in incoming {
        assert Deletions(paths, incoming) == [Change(paths[0], None)] + rest;
        DeletionsWrite(m - {paths[0]}, paths[1..], incoming);
      } else {
        assert Deletions(paths, incoming) == rest;
        DeletionsWrite(m, paths[1..], incoming);
      }
    }
  }

  lemma {:induction false} PutsWrite(m: Files, paths: seq<Path>, incoming: Files, head: Files,
                                     newId: (Path, nat) -> string)
    requires forall p :: p in paths ==> p in incoming
    ensures Written(m, Puts(paths, incoming, head, newId)) == m + Assigned((set p | p in paths), incoming, head, newId)
    decreases |paths|
  {
    if paths == [] {
      NothingAssigned(m, incoming, head, newId);
    } else {
      var p := paths[0];
      var o := AssignUuids(incoming[p], At(head, p), p, newId);
      PutsWrite(m[p := o], paths[1..], incoming, head, newId);
      PutsCons(m, paths, incoming, head, newId);
      AssignedCons(m, p, (set q | q in paths[1..]), incoming, head, newId);
      SetCons(paths);
    }
  }

  lemma NothingAssigned(m: Files, incoming: Files, head: Files, newId: (Path, nat) -> string)
    ensures m == m + Assigned({}, incoming, head, newId)
  {
  }

  lemma SetCons(paths: seq<Path>)
    requires paths != []
    ensures (set q | q in paths) == (set q | q in paths[1..]) + {paths[0]}
  {
  }

  lemma PutsCons(m: Files, paths: seq<Path>, incoming: Files, head: Files, newId: (Path, nat) -> string)
    requires paths != [] && paths[0] in incoming
    ensures var o := AssignUuids(incoming[paths[0]], At(head, paths[0]), paths[0], newId);
      Written(m, Puts(paths, incoming, head, newId)) ==
        Written(m[paths[0] := o], Puts(paths[1..], incoming, head, newId))
  {
    WrittenCons(m, Change(paths[0], Some(AssignUuids(incoming[paths[0]], At(head, paths[0]), paths[0], newId))),
                Puts(paths[1..], incoming, head, newId));
  }

  lemma WrittenCons(m: Files, c: Change, rest: seq<Change>)
    ensures Written(m, [c] + rest) == Written(if c.obj.Some? then m[c.path := c.obj.value] else m - {c.path}, rest)
  {
  }

  lemma AssignedCons(m: Files, p: Path, rest: set<Path>, incoming: Files, head: Files, newId: (Path, nat) -> string)
    requires p in incoming
    ensures m[p := AssignUuids(incoming[p], At(head, p), p, newId)] + Assigned(rest, incoming, head, newId)
      == m + Assigned(rest + {p}, incoming, head, newId)
  {
    AssignedOne(p, rest, incoming, head, newId);
    MergeUpdate(m, Assigned(rest, incoming, head, newId), p, AssignUuids(incoming[p], At(head, p), p, newId));
  }

  lemma AssignedOne(p: Path, rest: set<Path>, incoming: Files, head: Files, newId: (Path, nat) -> string)
    requires p in incoming
    ensures Assigned(rest + {p}, incoming, head, newId) ==
      Assigned(rest, incoming, head, newId)[p := AssignUuids(incoming[p], At(head, p), p, newId)]
    ensures p in rest ==> Assigned(rest, incoming, head, newId)[p] == AssignUuids(incoming[p], At(head, p), p, newId)
  {
  }

  lemma MergeUpdate(m: Files, a: Files, p: Path, o: Obj)
    requires p in a ==> a[p] == o
    ensures m[p := o] + a == m + a[p := o]
  {
  }

  lemma Covered(a: Files, b: Files)
    requires a.Keys <= b.Keys
    ensures a + b == b
  {
  }

  lemma KeptKeys(m: Files, paths: seq<Path>, incoming: Files)
    requires Lists(paths, m)
    ensures Kept(m, paths, incoming).Keys <= incoming.Keys
  {
  }

  lemma AssignedKeys(incoming: Files, head: Files, newId: (Path, nat) -> string)
    ensures Imported(incoming, head, newId).Keys == incoming.Keys
  {
  }

  lemma ImportWrites(incoming: Files, head: Files, headPaths: seq<Path>, paths: seq<Path>, newId: (Path, nat) -> string)
    requires Lists(headPaths, head) && Lists(paths, incoming)
    ensures Written(head, Deletions(headPaths, incoming) + Puts(paths, incoming, head, newId)) ==
      Imported(incoming, head, newId)
  {
    WrittenAppend(head, Deletions(headPaths, incoming), Puts(paths, incoming, head, newId));
    DeletionsWrite(head, headPaths, incoming);
    PutsWrite(Kept(head, headPaths, incoming), paths, incoming, head, newId);
    ListedKeys(paths, incoming);
    KeptKeys(head, headPaths, incoming);
    AssignedKeys(incoming, head, newId);
    Covered(Kept(head, headPaths, incoming), Imported(incoming, head, newId));
  }

  lemma ListedKeys(paths: seq<Path>, m: Files)
    requires Lists(paths, m)
    ensures (set p | p in paths) == m.Keys
  {
  }

  // ---- the store ----------------------------------------------------------------------------

  /** What an update of the last tree of a history comes to. */
  function UpdateOf(h: seq<Files>, base: Option<nat>, made: Result<seq<Change>, ApiError>): Result<Files, Failure>
    requires h != []
  {
    match made
    case Err(e) => Result.Err(Rejected(e))
    case Ok(changes) =>
      var head := h[|h| - 1];
      match FirstConflict(h, base, changes)
      case Some(f) => Result.Err(f)
      case None => if Written(head, changes) == head then Result.Err(NoChange) else Result.Ok(Written(head, changes))
  }

  /** The first change that a stale base forbids. */
  function FirstConflict(h: seq<Files>, base: Option<nat>, changes: seq<Change>): Option<Failure>
    requires h != []
    decreases |changes|
  {
    if base.None? || base.value == |h| - 1 || changes == [] then None
    else if base.value >= |h| then Some(UnknownBase)
    else if At(h[base.value], changes[0].path) != At(h[|h| - 1], changes[0].path) then Some(Conflict(changes[0].path))
    else FirstConflict(h, base, changes[1..])
  }

  /** What a client can ask of the repository. */
  datatype Op = Mutating(base: Option<nat>, req: Request, newId: (Path, nat) -> string)
              | Importing(base: Option<nat>, incoming: Files, newId: (Path, nat) -> string)
              | Reverting(rev: nat)

  /** The new tree of an operation, if it makes a commit. */
  function Outcome(s: Schema, h: seq<Files>, op: Op): Result<Files, Failure>
    requires h != []
  {
    match op
    case Mutating(base, req, newId) => UpdateOf(h, base, Mutation(s, req, newId, h[|h| - 1]))
    case Importing(base, incoming, newId) => UpdateOf(h, base, Import(s, incoming, newId, h[|h| - 1]))
    case Reverting(rev) =>
      if rev >= |h| then Err(UnknownRevision)
      else if h[rev] == h[|h| - 1] then Err(NoChange)
      else Ok(h[rev])
  }

  function Next(s: Schema, h: seq<Files>, op: Op): (r: seq<Files>)
    requires h != []
    ensures r != []
  {
    match Outcome(s, h, op)
    case Ok(tree) => h + [tree]
    case Err(_) => h
  }

  /** The history after some operations. */
  function History(s: Schema, h: seq<Files>, ops: seq<Op>): (r: seq<Files>)
    requires h != []
    ensures r != []
    decreases |ops|
  {
    if ops == [] then h else History(s, Next(s, h, ops[0]), ops[1..])
  }

  /** The fresh identifiers of an operation have the shape of identifiers. */
  ghost predicate Fresh(s: Schema, op: Op) { op.Reverting? || GoodIds(s, op.newId) }

  /** Every operation keeps all commits valid, and so does every run. */
  lemma NextIsCareful(s: Schema, h: seq<Files>, op: Op)
    requires h != [] && Enumerates(s) && RulesApart(s) && IgnoresUuids(s) && AllValid(s, h) && Fresh(s, op)
    ensures AllValid(s, Next(s, h, op))
  {
    match op
    case Mutating(base, req, newId) => MutationOutcome(s, h, base, req, newId);
    case Importing(base, incoming, newId) => ImportOutcome(s, h, base, incoming, newId);
    case Reverting(rev) =>
  }

  lemma {:induction false} HistoryIsCareful(s: Schema, h: seq<Files>, ops: seq<Op>)
    requires h != [] && Enumerates(s) && RulesApart(s) && IgnoresUuids(s) && AllValid(s, h)
    requires forall i :: 0 <= i < |ops| ==> Fresh(s, ops[i])
    ensures AllValid(s, History(s, h, ops))
    decreases |ops|
  {
    if ops != [] {
      NextIsCareful(s, h, ops[0]);
      HistoryIsCareful(s, Next(s, h, ops[0]), ops[1..]);
    }
  }

  /** A history all of whose trees are valid. */
  ghost predicate AllValid(s: Schema, h: seq<Files>) { forall i :: 0 <= i < |h| ==> IsValid(s, h[i]) }

  /** A new commit overwrites only files of which the client saw the last
      content, and leaves all others as they were in HEAD. */
  ghost predicate Overwrites(h: seq<Files>, base: Option<nat>, tree: Files, paths: set<Path>)
    requires h != []
  {
    var head := h[|h| - 1];
    && (forall p :: p !in paths ==> At(tree, p) == At(head, p))
    && (base.Some? && base.value != |h| - 1 ==>
        base.value < |h| && forall p :: p in paths ==> At(h[base.value], p) == At(head, p))
  }

  function PathsOf(changes: seq<Change>): set<Path> { set c | c in changes :: c.path }

  lemma {:induction false} WrittenElsewhere(m: Files, changes: seq<Change>, p: Path)
    requires p !in PathsOf(changes)
    ensures At(Written(m, changes), p) == At(m, p)
    decreases |changes|
  {
    if changes != [] {
      var c := changes[0];
      assert c in changes;
      assert forall d :: d in changes[1..] ==> d in changes;
      WrittenElsewhere(if c.obj.Some? then m[c.path := c.obj.value] else m - {c.path}, changes[1..], p);
    }
  }

  lemma {:induction false} NoConflictMeans(h: seq<Files>, base: nat, changes: seq<Change>, c: Change)
    requires h != [] && base != |h| - 1 && FirstConflict(h, Some(base), changes).None? && c in changes
    ensures base < |h| && At(h[base], c.path) == At(h[|h| - 1], c.path)
    decreases |changes|
  {
    if c != changes[0] { NoConflictMeans(h, base, changes[1..], c); }
  }

  /** What an accepted update overwrites. */
  lemma AcceptedOverwrites(h: seq<Files>, base: Option<nat>, changes: seq<Change>)
    requires h != [] && UpdateOf(h, base, Ok(changes)).Ok?
    ensures Overwrites(h, base, Written(h[|h| - 1], changes), PathsOf(changes))
  {
    forall p | p !in PathsOf(changes) ensures At(Written(h[|h| - 1], changes), p) == At(h[|h| - 1], p) {
      WrittenElsewhere(h[|h| - 1], changes, p);
    }
    if base.Some? && base.value != |h| - 1 {
      assert changes != [];
      NoConflictMeans(h, base.value, changes, changes[0]);
      forall p | p in PathsOf(changes) ensures At(h[base.value], p) == At(h[|h| - 1], p) {
        var c :| c in changes && c.path == p;
        NoConflictMeans(h, base.value, changes, c);
      }
    }
  }

  /** No update is lost: once an update has changed a file, an update made from
      a revision with the old content that touches the file is refused. */
  lemma {:induction false} SecondIsRefused(h: seq<Files>, base: nat, changes: seq<Change>, c: Change)
    requires h != [] && base < |h| - 1 && c in changes && At(h[base], c.path) != At(h[|h| - 1], c.path)
    ensures UpdateOf(h, Some(base), Ok(changes)).Err? && UpdateOf(h, Some(base), Ok(changes)).error.Conflict?
    ensures FirstConflict(h, Some(base), changes).Some? && FirstConflict(h, Some(base), changes).value.Conflict?
    decreases |changes|
  {
    if c != changes[0] { SecondIsRefused(h, base, changes[1..], c); }
  }

  // ---- what may be committed ------------------------------------------------------------------

  /** A mutation of a valid tree leaves a valid tree. */
  lemma MutationIsCareful(s: Schema, r: Request, newId: (Path, nat) -> string, t: Files)
    requires RulesApart(s) && IsValid(s, t) && Mutation(s, r, newId, t).Ok?
    ensures IsValid(s, Written(t, Mutation(s, r, newId, t).value))
  {
    FilterHidesNothing(s, t, Written(t, Mutation(s, r, newId, t).value));
  }

  /** An import leaves a valid tree. */
  lemma ImportIsCareful(s: Schema, incoming: Files, newId: (Path, nat) -> string, head: Files)
    requires IgnoresUuids(s) && Enumerates(s) && Import(s, incoming, newId, head).Ok?
    requires IsValid(s, head) && GoodIds(s, newId)
    ensures IsValid(s, Written(head, Import(s, incoming, newId, head).value))
  {
    var whole := WithUsers(s, incoming, head);
    ImportWrites(whole, head, s.list(head), s.list(whole), newId);
    ImportSameButUuids(whole, head, newId);
    ImportedFits(s, whole, head, newId);
  }

  lemma ImportedFits(s: Schema, whole: Files, head: Files, newId: (Path, nat) -> string)
    requires AllFit(s, whole) && AllFit(s, head) && GoodIds(s, newId)
    ensures AllFit(s, Imported(whole, head, newId))
  {
    var m := Imported(whole, head, newId);
    forall p | p in m ensures ObjFits(s, m[p]) {
      AssignedFits(s, whole[p], At(head, p), p, newId);
    }
  }

  /** What an import must leave: the content of its own objects and nothing
      else, except that an import without Users leaves the Users as they were;
      and no identifier of an object that stays is changed. */
  ghost predicate Replaces(s: Schema, incoming: Files, newId: (Path, nat) -> string, head: Files, tree: Files) {
    && (forall p :: p in incoming ==> p in tree && Strip(tree[p]) == Strip(incoming[p]))
    && (forall p :: p in tree && p !in incoming ==> s.user(p) && p in head && Strip(tree[p]) == Strip(head[p]))
    && ((forall p :: p in incoming ==> !s.user(p)) ==> forall p :: p in head && s.user(p) ==> p in tree)
    && AllKeepIds(head, tree)
  }

  lemma ImportSameButUuids(incoming: Files, head: Files, newId: (Path, nat) -> string)
    ensures SameButUuids(Imported(incoming, head, newId), incoming)
  {
  }

  lemma WholeImport(s: Schema, incoming: Files, head: Files)
    ensures var whole := WithUsers(s, incoming, head);
      && (forall p :: p in incoming ==> p in whole && whole[p] == incoming[p])
      && (forall p :: p in whole && p !in incoming ==> s.user(p) && p in head && whole[p] == head[p])
      && ((forall p :: p in incoming ==> !s.user(p)) ==> forall p :: p in head && s.user(p) ==> p in whole)
  {
  }

  lemma ImportReplaces(s: Schema, incoming: Files, newId: (Path, nat) -> string, head: Files)
    requires Enumerates(s) && Import(s, incoming, newId, head).Ok?
    ensures Replaces(s, incoming, newId, head, Written(head, Import(s, incoming, newId, head).value))
  {
    var whole := WithUsers(s, incoming, head);
    ImportWrites(whole, head, s.list(head), s.list(whole), newId);
    WholeReplaces(s, incoming, whole, newId, head);
  }

  lemma WholeReplaces(s: Schema, incoming: Files, whole: Files, newId: (Path, nat) -> string, head: Files)
    requires whole == WithUsers(s, incoming, head)
    ensures Replaces(s, incoming, newId, head, Imported(whole, head, newId))
  {
    WholeImport(s, incoming, head);
    ImportSameButUuids(whole, head, newId);
    ImportKeepsIds(whole, head, newId);
  }

  /** A new version of an object keeps its identifier and those of its rules,
      rules being known by name. */
  ghost predicate KeepsIds(was: Obj, now: Obj) {
    || was == now
    || ((was.uuid != "" ==> now.uuid == was.uuid) &&
        forall i :: 0 <= i < |now.rules| && RuleUuid(was.rules, now.rules[i].0) != "" ==>
          now.rules[i].1 == RuleUuid(was.rules, now.rules[i].0))
  }

  ghost predicate AllKeepIds(m: Files, n: Files) {
    forall p :: p in m && p in n ==> KeepsIds(m[p], n[p])
  }

  lemma AssignKeepsIds(o: Obj, was: Obj, p: Path, newId: (Path, nat) -> string)
    ensures KeepsIds(was, AssignUuids(o, Some(was), p, newId))
  {
    var now := AssignUuids(o, Some(was), p, newId);
    forall i | 0 <= i < |now.rules| && RuleUuid(was.rules, now.rules[i].0) != ""
      ensures now.rules[i].1 == RuleUuid(was.rules, now.rules[i].0)
    {
      AssignRulesKeeps(o.rules, was.rules, p, newId, i);
    }
  }

  /** Identifiers, once assigned, do not change by a mutation. */
  lemma MutationKeepsIds(s: Schema, r: Request, newId: (Path, nat) -> string, t: Files)
    requires Mutation(s, r, newId, t).Ok?
    ensures AllKeepIds(t, Written(t, Mutation(s, r, newId, t).value))
  {
    var changes := Mutation(s, r, newId, t).value;
    assert changes[1..] == [];
    if r.Put? && r.path in t { AssignKeepsIds(r.obj, t[r.path], r.path, newId); }
  }

  /** Nor by an import. */
  lemma ImportKeepsIds(incoming: Files, head: Files, newId: (Path, nat) -> string)
    ensures AllKeepIds(head, Imported(incoming, head, newId))
  {
    forall p | p in head && p in Imported(incoming, head, newId)
      ensures KeepsIds(head[p], Imported(incoming, head, newId)[p])
    {
      AssignKeepsIds(incoming[p], head[p], p, newId);
    }
  }

  /** The repository: its history, growing only. */
  class Repository {
    const s: Schema
    var history: seq<Files>

    ghost predicate Valid()
      reads this
    {
      history != []
    }

    /** The first commit is the factory default. */
    constructor (s: Schema, factory: Files)
      ensures Valid() && this.s == s && history == [factory]
    {
      this.s := s;
      history := [factory];
    }

    method HasConflict(base: Option<nat>, changes: seq<Change>) returns (f: Option<Failure>)
      requires Valid()
      ensures f == FirstConflict(history, base, changes)
    {
      var head := |history| - 1;
      if base.Some? && base.value != head {
        for i := 0 to |changes|
          invariant FirstConflict(history, base, changes[i..]) == FirstConflict(history, base, changes)
        {
          var p := changes[i].path;
          assert changes[i..][0] == changes[i] && changes[i..][1..] == changes[i + 1..];
          if base.value > head {
            return Some(UnknownBase);
          }
          if At(history[base.value], p) != At(history[head], p) {
            return Some(Conflict(p));
          }
        }
        assert changes[|changes|..] == [];
      }
      f := None;
    }

    /** Commits what a function makes of HEAD, under the write lock. */
    method Update(base: Option<nat>, fn: Files -> Result<seq<Change>, ApiError>) returns (r: Result<nat, Failure>)
      requires Valid()
      modifies this`history
      ensures Valid()
      ensures match UpdateOf(old(history), base, fn(old(history)[|old(history)| - 1]))
        case Ok(tree) => r == Result.Ok(|old(history)|) && history == old(history) + [tree]
        case Err(f) => r == Result.Err(f) && history == old(history)
    {
      r := Commit(base, fn(history[|history| - 1]));
    }

    /** Commits what was made of HEAD while the lock was held. */
    method Commit(base: Option<nat>, made: Result<seq<Change>, ApiError>) returns (r: Result<nat, Failure>)
      requires Valid()
      modifies this`history
      ensures Valid()
      ensures match UpdateOf(old(history), base, made)
        case Ok(tree) => r == Result.Ok(|old(history)|) && history == old(history) + [tree]
        case Err(f) => r == Result.Err(f) && history == old(history)
    {
      var head := history[|history| - 1];
      if made.Err? {
        return Result.Err(Rejected(made.error));
      }
      var conflict := HasConflict(base, made.value);
      if conflict.Some? {
        return Result.Err(conflict.value);
      }
      r := Record(Written(head, made.value));
    }

    method Record(tree: Files) returns (r: Result<nat, Failure>)
      requires Valid()
      modifies this`history
      ensures Valid()
      ensures if tree == old(history)[|old(history)| - 1] then r == Result.Err(NoChange) && history == old(history)
        else r == Result.Ok(|old(history)|) && history == old(history) + [tree]
    {
      if tree == history[|history| - 1] {
        return Result.Err(NoChange);
      }
      history := history + [tree];
      r := Result.Ok(|history| - 1);
    }

    /** Makes a new commit with the tree of an earlier one. */
    method Revert(rev: nat) returns (r: Result<nat, Failure>)
      requires Valid()
      modifies this`history
      ensures Valid()
      ensures rev >= |old(history)| ==> r == Result.Err(UnknownRevision) && history == old(history)
      ensures rev < |old(history)| && r.Err? ==> r.error == NoChange && history == old(history)
      ensures r.Ok? ==>
        rev < |old(history)| && history == old(history) + [old(history)[rev]] && r.value == |old(history)|
      ensures history == Next(s, old(history), Reverting(rev))
      ensures AllValid(s, old(history)) ==> AllValid(s, history)
    {
      if rev >= |history| {
        return Result.Err(UnknownRevision);
      }
      r := Record(history[rev]);
    }

    /** Creates, edits or deletes one object. */
    method Mutate(base: Option<nat>, req: Request, newId: (Path, nat) -> string) returns (r: Result<nat, Failure>)
      requires Valid()
      modifies this`history
      ensures Valid() && (r.Err? ==> history == old(history))
      ensures r.Ok? ==> Grown(old(history), history) && r.value == |old(history)|
      ensures r.Ok? ==> MutationMade(s, old(history), base, req, newId, history[|history| - 1])
      ensures history == Next(s, old(history), Mutating(base, req, newId))
      ensures RulesApart(s) && AllValid(s, old(history)) ==> AllValid(s, history)
    {
      MutationOutcome(s, history, base, req, newId);
      var made := TryMutation(s, req, newId, history[|history| - 1]);
      r := Commit(base, made);
    }

    /** Replaces the whole configuration. */
    method ImportAll(base: Option<nat>, incoming: Files, newId: (Path, nat) -> string) returns (r: Result<nat, Failure>)
      requires Valid() && Enumerates(s)
      modifies this`history
      ensures Valid() && (r.Err? ==> history == old(history))
      ensures r.Ok? ==> Grown(old(history), history) && r.value == |old(history)|
      ensures r.Ok? ==> ImportMade(s, old(history), incoming, newId, history[|history| - 1])
      ensures history == Next(s, old(history), Importing(base, incoming, newId))
      ensures IgnoresUuids(s) && GoodIds(s, newId) && AllValid(s, old(history)) ==> AllValid(s, history)
    {
      ImportOutcome(s, history, base, incoming, newId);
      var made := TryImport(s, incoming, newId, history[|history| - 1]);
      r := Commit(base, made);
    }
  }

  /** What an accepted mutation has done. */
  ghost predicate MutationMade(s: Schema, h: seq<Files>, base: Option<nat>, req: Request, newId: (Path, nat) -> string,
                               tree: Files)
    requires h != []
  {
    && Done(req, newId, h[|h| - 1], tree)
    && Overwrites(h, base, tree, {req.path}) && AllKeepIds(h[|h| - 1], tree)
  }

  lemma MutationOutcome(s: Schema, h: seq<Files>, base: Option<nat>, req: Request, newId: (Path, nat) -> string)
    requires h != []
    ensures match UpdateOf(h, base, Mutation(s, req, newId, h[|h| - 1]))
      case Ok(tree) =>
        MutationMade(s, h, base, req, newId, tree) && (RulesApart(s) && AllValid(s, h) ==> AllValid(s, h + [tree]))
      case Err(_) => true
  {
    var head := h[|h| - 1];
    var made := Mutation(s, req, newId, head);
    if UpdateOf(h, base, made).Ok? {
      ChangeIsDone(req, newId, head);
      MutationKeepsIds(s, req, newId, head);
      OnePath(s, req, newId, head);
      AcceptedOverwrites(h, base, made.value);
      if RulesApart(s) && AllValid(s, h) {
        MutationIsCareful(s, req, newId, head);
        AllValidSnoc(s, h, Written(head, made.value));
      }
    }
  }

  lemma AllValidSnoc(s: Schema, h: seq<Files>, tree: Files)
    requires AllValid(s, h) && IsValid(s, tree)
    ensures AllValid(s, h + [tree])
  {
  }

  /** What an accepted import has done. */
  ghost predicate ImportMade(s: Schema, h: seq<Files>, incoming: Files, newId: (Path, nat) -> string, tree: Files)
    requires h != []
  {
    Replaces(s, incoming, newId, h[|h| - 1], tree)
  }

  lemma ImportOutcome(s: Schema, h: seq<Files>, base: Option<nat>, incoming: Files, newId: (Path, nat) -> string)
    requires h != [] && Enumerates(s)
    ensures match UpdateOf(h, base, Import(s, incoming, newId, h[|h| - 1]))
      case Ok(tree) =>
        && ImportMade(s, h, incoming, newId, tree)
        && (IgnoresUuids(s) && GoodIds(s, newId) && AllValid(s, h) ==> AllValid(s, h + [tree]))
      case Err(_) => true
  {
    var head := h[|h| - 1];
    var made := Import(s, incoming, newId, head);
    if UpdateOf(h, base, made).Ok? {
      ImportReplaces(s, incoming, newId, head);
      if IgnoresUuids(s) && GoodIds(s, newId) && AllValid(s, h) {
        ImportIsCareful(s, incoming, newId, head);
        AllValidSnoc(s, h, Written(head, made.value));
      }
    }
  }

  /** One commit more. */
  ghost predicate Grown(was: seq<Files>, now: seq<Files>) { |now| == |was| + 1 && now[..|was|] == was }

  lemma MutationMeans(s: Schema, r: Request, newId: (Path, nat) -> string, t: Files)
    requires Mutation(s, r, newId, t).Ok?
    ensures Careful(s, r, newId, t, Mutation(s, r, newId, t).value)
  {
    ChangeIsDone(r, newId, t);
    OnePath(s, r, newId, t);
    MutationKeepsIds(s, r, newId, t);
    if RulesApart(s) && IsValid(s, t) { MutationIsCareful(s, r, newId, t); }
  }

  lemma OnePath(s: Schema, r: Request, newId: (Path, nat) -> string, t: Files)
    requires Mutation(s, r, newId, t).Ok?
    ensures PathsOf(Mutation(s, r, newId, t).value) == {r.path}
  {
  }
}
