/** The counters of the compiler are numbers of places: what the rules of the
    section expand to, one by one. */
module Tallies {
  import opened Prelude
  import opened Model
  import opened Counting
  import C = Compile

  /** Places of a list of sets, told apart by the position of the set. */
  ghost function Tagged<A>(ss: seq<set<A>>): set<(int, A)> {
    set i, x | 0 <= i < |ss| && x in ss[i] :: (i, x)
  }

  lemma {:induction false} TaggedSnoc<A>(ss: seq<set<A>>, s: set<A>)
    ensures |Tagged(ss + [s])| == |Tagged(ss)| + |s|
  {
    var n := |ss|;
    assert Tagged(ss + [s]) == Tagged(ss) + Pairs({n}, s);
    assert Tagged(ss) !! Pairs({n}, s);
    RowSize(n, s);
  }

  predicate Below(i: int, n: nat) { 0 <= i < n }

  ghost function UpTo(n: nat): set<int> { set i: int | 0 <= i < n && Below(i, n) }

  lemma {:induction false} UpToSize(n: nat)
    ensures |UpTo(n)| == n
  {
    if n > 0 {
      UpToSize(n - 1);
      assert UpTo(n) == UpTo(n - 1) + {n - 1};
    }
  }

  /** A match of an entry: a source, a destination and a service of it, for each
      pair of Interfaces or for none. */
  ghost function Matches(e: C.Entry, width: nat): set<(((int, int), int), int)> {
    Pairs(Pairs(Pairs(UpTo(|e.source|), UpTo(|e.destination|)), UpTo(|e.service|)), UpTo(if width == 0 then 1 else width))
  }

  /** A translation of an entry: a destination and a service of it. */
  ghost function Translations(e: C.Entry): set<(int, int)> {
    match e.translate
    case None => {}
    case Some(Named(n)) => if n.kind == Dnat then Pairs(UpTo(|e.destination|), UpTo(|e.service|)) else {}
    case Some(Resolved(_, _)) => Pairs(UpTo(|e.destination|), UpTo(|e.service|))
  }

  lemma MatchesCounted(e: C.Entry, width: nat)
    ensures C.MatchesOf(e, width) == |Matches(e, width)| && C.DnatEntries(e) == |Translations(e)|
  {
    UpToSize(|e.source|);
    UpToSize(|e.destination|);
    UpToSize(|e.service|);
    UpToSize(if width == 0 then 1 else width);
    var a := Pairs(UpTo(|e.source|), UpTo(|e.destination|));
    PairsSize(UpTo(|e.source|), UpTo(|e.destination|));
    PairsSize(UpTo(|e.destination|), UpTo(|e.service|));
    PairsSize(a, UpTo(|e.service|));
    PairsSize(Pairs(a, UpTo(|e.service|)), UpTo(if width == 0 then 1 else width));
  }

  // ---- all entries ------------------------------------------------------------------------------

  ghost function EntryMatches(l: seq<C.Entry>, width: nat): seq<set<(((int, int), int), int)>> {
    seq(|l|, i requires 0 <= i < |l| => Matches(l[i], width))
  }

  ghost function EntryTranslations(l: seq<C.Entry>): seq<set<(int, int)>> {
    seq(|l|, i requires 0 <= i < |l| => Translations(l[i]))
  }

  lemma {:induction false} EntriesCounted(l: seq<C.Entry>, width: nat)
    ensures C.MatchCount(l, width) == |Tagged(EntryMatches(l, width))|
    ensures C.DnatCount(l) == |Tagged(EntryTranslations(l))|
  {
    if l != [] {
      var n := |l| - 1;
      var (front, e) := (l[..n], l[n]);
      assert l == front + [e];
      EntriesCounted(front, width);
      C.CountsSnoc(front, e, width);
      MatchesCounted(e, width);
      assert EntryMatches(l, width) == EntryMatches(front, width) + [Matches(e, width)];
      assert EntryTranslations(l) == EntryTranslations(front) + [Translations(e)];
      TaggedSnoc(EntryMatches(front, width), Matches(e, width));
      TaggedSnoc(EntryTranslations(front), Translations(e));
    }
  }

  // ---- all RuleSets -----------------------------------------------------------------------------

  ghost function AllPairs(l: seq<C.Compiled>): seq<set<int>> {
    seq(|l|, i requires 0 <= i < |l| => UpTo(|l[i].pairs|))
  }

  ghost function AllPolicies(l: seq<C.Compiled>): seq<set<int>> {
    seq(|l|, i requires 0 <= i < |l| => UpTo(|l[i].rules|))
  }

  ghost function AllMatches(l: seq<C.Compiled>): seq<set<(int, (((int, int), int), int))>> {
    seq(|l|, i requires 0 <= i < |l| => Tagged(EntryMatches(l[i].rules, |l[i].pairs|)))
  }

  ghost function AllTranslations(l: seq<C.Compiled>): seq<set<(int, (int, int))>> {
    seq(|l|, i requires 0 <= i < |l| => Tagged(EntryTranslations(l[i].rules)))
  }

  /** Each counter is the number of its places in the section. */
  lemma {:induction false} CountersArePlaces(l: seq<C.Compiled>)
    ensures C.Counted(l).pairs == |Tagged(AllPairs(l))| && C.Counted(l).policies == |Tagged(AllPolicies(l))|
    ensures C.Counted(l).matches == |Tagged(AllMatches(l))| && C.Counted(l).dnats == |Tagged(AllTranslations(l))|
  {
    if l != [] {
      var n := |l| - 1;
      var (front, c) := (l[..n], l[n]);
      assert l == front + [c];
      CountersArePlaces(front);
      EntriesCounted(c.rules, |c.pairs|);
      UpToSize(|c.pairs|);
      UpToSize(|c.rules|);
      assert AllPairs(l) == AllPairs(front) + [UpTo(|c.pairs|)];
      assert AllPolicies(l) == AllPolicies(front) + [UpTo(|c.rules|)];
      assert AllMatches(l) == AllMatches(front) + [Tagged(EntryMatches(c.rules, |c.pairs|))];
      assert AllTranslations(l) == AllTranslations(front) + [Tagged(EntryTranslations(c.rules))];
      TaggedSnoc(AllPairs(front), UpTo(|c.pairs|));
      TaggedSnoc(AllPolicies(front), UpTo(|c.rules|));
      TaggedSnoc(AllMatches(front), Tagged(EntryMatches(c.rules, |c.pairs|)));
      TaggedSnoc(AllTranslations(front), Tagged(EntryTranslations(c.rules)));
    }
  }
}
