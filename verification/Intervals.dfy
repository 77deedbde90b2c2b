/** Sets of 32-bit numbers as lists of intervals: normalisation, intersection,
    inclusion and size. */
module Intervals {
  import opened Prelude
  import opened Ipv4

  datatype Iv = Iv(lo: U32, hi: U32)

  ghost predicate Ordered(s: seq<Iv>) {
    forall i :: 0 <= i < |s| ==> s[i].lo <= s[i].hi
  }

  /** The set a list denotes. */
  ghost predicate Has(s: seq<Iv>, x: int) {
    exists i :: 0 <= i < |s| && s[i].lo <= x <= s[i].hi
  }

  ghost predicate SameSet(s: seq<Iv>, o: seq<Iv>) {
    forall x :: Has(s, x) <==> Has(o, x)
  }

  ghost predicate Subset(s: seq<Iv>, o: seq<Iv>) {
    forall x :: Has(s, x) ==> Has(o, x)
  }

  /** Ordered, sorted, disjoint, and with a gap between neighbours. */
  ghost predicate Canonical(s: seq<Iv>) {
    && Ordered(s)
    && forall i, j :: 0 <= i < j < |s| ==> s[i].hi + 1 < s[j].lo
  }

  ghost predicate SortedByLo(s: seq<Iv>) {
    forall i, j :: 0 <= i < j < |s| ==> s[i].lo <= s[j].lo
  }

  // ---- sorting ----------------------------------------------------------

  function Insert(x: Iv, s: seq<Iv>): (r: seq<Iv>)
    ensures multiset(r) == multiset(s) + multiset{x}
  {
    if s == [] || x.lo <= s[0].lo then [x] + s
    else
      assert s == [s[0]] + s[1..];
      [s[0]] + Insert(x, s[1..])
  }

  function SortByLo(s: seq<Iv>): (r: seq<Iv>)
    ensures Permuted(r, s)
  {
    if s == [] then []
    else
      assert s == [s[0]] + s[1..];
      Insert(s[0], SortByLo(s[1..]))
  }

  lemma {:induction false} InsertSorts(x: Iv, s: seq<Iv>)
    requires SortedByLo(s)
    ensures SortedByLo(Insert(x, s))
  {
    if s != [] && s[0].lo < x.lo {
      InsertSorts(x, s[1..]);
      var r := Insert(x, s[1..]);
      forall k | 0 <= k < |r| ensures s[0].lo <= r[k].lo {
        assert r[k] in multiset(r);
        assert r[k] == x || r[k] in s[1..];
      }
    }
  }

  lemma {:induction false} SortByLoSorts(s: seq<Iv>)
    ensures SortedByLo(SortByLo(s))
  {
    if s != [] {
      SortByLoSorts(s[1..]);
      InsertSorts(s[0], SortByLo(s[1..]));
    }
  }

  // ---- normalisation ------------------------------------------------------

  /** One round of the merge: widen the last interval, or start a new one. The
      comparison is made on 64-bit numbers, so the successor of the largest
      32-bit number does not wrap. */
  function Push(out: seq<Iv>, x: Iv): seq<Iv> {
    var n := |out|;
    if n > 0 && x.lo <= out[n - 1].hi + 1 then
      out[n - 1 := Iv(out[n - 1].lo, if out[n - 1].hi < x.hi then x.hi else out[n - 1].hi)]
    else out + [x]
  }

  function MergeOnto(out: seq<Iv>, c: seq<Iv>): seq<Iv>
    decreases |c|
  {
    if c == [] then out else MergeOnto(Push(out, c[0]), c[1..])
  }

  function NormOf(s: seq<Iv>): seq<Iv> {
    MergeOnto([], SortByLo(s))
  }

  lemma PushCanonical(out: seq<Iv>, x: Iv)
    requires Canonical(out) && x.lo <= x.hi
    requires out != [] ==> out[|out| - 1].lo <= x.lo
    ensures var r := Push(out, x);
      && Canonical(r) && r != [] && r[|r| - 1].lo <= x.lo
      && forall y :: Has(r, y) <==> Has(out, y) || x.lo <= y <= x.hi
  {
    PushHas(out, x);
  }

  lemma PushHas(out: seq<Iv>, x: Iv)
    requires Canonical(out) && x.lo <= x.hi
    requires out != [] ==> out[|out| - 1].lo <= x.lo
    ensures forall y :: Has(Push(out, x), y) <==> Has(out, y) || x.lo <= y <= x.hi
  {
    var r := Push(out, x);
    var n := |out|;
    forall y | Has(out, y) ensures Has(r, y) {
      var i :| 0 <= i < n && out[i].lo <= y <= out[i].hi;
      assert r[i].lo <= y <= r[i].hi;
    }
    forall y | x.lo <= y <= x.hi ensures Has(r, y) {
      assert if y < r[|r| - 1].lo then false else r[|r| - 1].lo <= y <= r[|r| - 1].hi;
    }
    forall y | Has(r, y) && !(x.lo <= y <= x.hi) ensures Has(out, y) {
      var i :| 0 <= i < |r| && r[i].lo <= y <= r[i].hi;
      assert out[i].lo <= y <= out[i].hi;
    }
  }

  lemma {:induction false} MergeCanonical(out: seq<Iv>, c: seq<Iv>)
    requires Canonical(out) && Ordered(c) && SortedByLo(c)
    requires out != [] && c != [] ==> out[|out| - 1].lo <= c[0].lo
    ensures Canonical(MergeOnto(out, c))
    ensures forall y :: Has(MergeOnto(out, c), y) <==> Has(out, y) || Has(c, y)
    decreases |c|
  {
    if c != [] {
      PushCanonical(out, c[0]);
      MergeCanonical(Push(out, c[0]), c[1..]);
      forall y ensures Has(c, y) <==> c[0].lo <= y <= c[0].hi || Has(c[1..], y) {
        HasCons(c, y);
      }
    }
  }

  lemma HasCons(c: seq<Iv>, y: int)
    requires c != []
    ensures Has(c, y) <==> c[0].lo <= y <= c[0].hi || Has(c[1..], y)
  {
  }

  lemma PermutedSets(a: seq<Iv>, b: seq<Iv>)
    requires Permuted(a, b)
    ensures SameSet(a, b)
    ensures Ordered(a) ==> Ordered(b)
  {
    PermutedMembers(a, b);
    HasMembers(a);
    HasMembers(b);
    forall i | Ordered(a) && 0 <= i < |b| ensures b[i].lo <= b[i].hi {
      assert b[i] in a;
    }
  }

  lemma HasMembers(a: seq<Iv>)
    ensures forall x :: Has(a, x) <==> exists v :: v in a && v.lo <= x <= v.hi
  {
  }

  /** Normalisation keeps the denoted set and yields the canonical form. */
  lemma NormIsCanonical(s: seq<Iv>)
    requires Ordered(s)
    ensures Canonical(NormOf(s)) && SameSet(NormOf(s), s)
  {
    SortByLoSorts(s);
    PermutedSets(s, SortByLo(s));
    MergeCanonical([], SortByLo(s));
  }

  /** The canonical form of a set is unique, up to and including the largest
      32-bit number. */
  lemma {:induction false} CanonicalUnique(a: seq<Iv>, b: seq<Iv>)
    requires Canonical(a) && Canonical(b) && SameSet(a, b)
    ensures a == b
    decreases |a|
  {
    EmptyTogether(a, b);
    if a != [] {
      SameHeads(a, b);
      SameTails(a, b);
      CanonicalUnique(a[1..], b[1..]);
      assert a == [a[0]] + a[1..] && b == [b[0]] + b[1..];
    }
  }

  lemma EmptyTogether(a: seq<Iv>, b: seq<Iv>)
    requires Ordered(a) && Ordered(b) && SameSet(a, b)
    ensures a == [] <==> b == []
  {
    HeadIsIn(a);
    HeadIsIn(b);
  }

  lemma SameHeads(a: seq<Iv>, b: seq<Iv>)
    requires Canonical(a) && Canonical(b) && a != [] && b != [] && SameSet(a, b)
    ensures a[0] == b[0]
  {
    FirstLoLeast(a, b);
    FirstLoLeast(b, a);
    FirstHiGreatest(a, b);
    FirstHiGreatest(b, a);
  }

  lemma SameTails(a: seq<Iv>, b: seq<Iv>)
    requires Canonical(a) && Canonical(b) && a != [] && b != [] && SameSet(a, b) && a[0] == b[0]
    ensures Canonical(a[1..]) && Canonical(b[1..]) && SameSet(a[1..], b[1..])
  {
    forall y ensures Has(a[1..], y) <==> Has(b[1..], y) {
      TailSet(a, y);
      TailSet(b, y);
    }
  }

  lemma HeadIsIn(a: seq<Iv>)
    requires Ordered(a)
    ensures a != [] ==> Has(a, a[0].lo)
  {
  }

  lemma FirstLoLeast(a: seq<Iv>, b: seq<Iv>)
    requires Canonical(a) && Canonical(b) && a != [] && b != [] && Subset(a, b)
    ensures b[0].lo <= a[0].lo
  {
    assert Has(a, a[0].lo);
    var j :| 0 <= j < |b| && b[j].lo <= a[0].lo <= b[j].hi;
    assert j > 0 ==> b[0].hi + 1 < b[j].lo;
  }

  lemma GapAbove(a: seq<Iv>, i: nat)
    requires Canonical(a) && i < |a|
    ensures !Has(a, a[i].hi + 1)
  {
  }

  lemma FirstHiGreatest(a: seq<Iv>, b: seq<Iv>)
    requires Canonical(a) && Canonical(b) && a != [] && b != [] && Subset(a, b)
    requires a[0].lo == b[0].lo
    ensures a[0].hi <= b[0].hi
  {
    GapAbove(b, 0);
    var y := b[0].hi + 1;
    assert a[0].lo <= y <= a[0].hi ==> Has(a, y);
  }

  lemma TailSet(a: seq<Iv>, y: int)
    requires Canonical(a) && a != []
    ensures Has(a[1..], y) <==> Has(a, y) && a[0].hi < y
  {
  }

  /** Equal sets have equal normal forms, however the sort breaks ties. */
  lemma NormOfEqualSets(s: seq<Iv>, o: seq<Iv>, c: seq<Iv>)
    requires Ordered(s) && Ordered(o) && SameSet(s, o)
    requires Permuted(c, o) && SortedByLo(c)
    ensures NormOf(s) == MergeOnto([], c)
  {
    NormIsCanonical(s);
    PermutedSets(o, c);
    MergeCanonical([], c);
    CanonicalUnique(NormOf(s), MergeOnto([], c));
  }

  method Norm(s: seq<Iv>) returns (out: seq<Iv>)
    ensures out == NormOf(s)
    ensures Ordered(s) ==> Canonical(out) && SameSet(out, s)
  {
    out := Merge(s);
    if Ordered(s) { NormIsCanonical(s); }
  }

  /** One interval more is merged. */
  lemma MergeStep(out: seq<Iv>, c: seq<Iv>, i: nat)
    requires i < |c|
    ensures MergeOnto(out, c[i..]) == MergeOnto(Push(out, c[i]), c[i + 1..])
  {
    var rest := c[i..];
    assert rest[0] == c[i] && rest[1..] == c[i + 1..];
  }

  method Merge(s: seq<Iv>) returns (out: seq<Iv>)
    ensures out == NormOf(s)
  {
    if |s| == 0 {
      return s;
    }
    var c := SortByLo(s);
    out := [c[0]];
    assert Push([], c[0]) == out;
    assert MergeOnto([], c) == MergeOnto(out, c[1..]);
    for i := 1 to |c|
      invariant out != []
      invariant MergeOnto(out, c[i..]) == NormOf(s)
    {
      ghost var was := out;
      var last := out[|out| - 1];
      if c[i].lo <= last.hi + 1 {
        out := out[|out| - 1 := Iv(last.lo, if last.hi < c[i].hi then c[i].hi else last.hi)];
      } else {
        out := out + [c[i]];
      }
      assert out == Push(was, c[i]);
      MergeStep(was, c, i);
    }
  }

  // ---- comparisons ----------------------------------------------------------

  ghost predicate Meet(s: seq<Iv>, o: seq<Iv>) {
    exists x :: Has(s, x) && Has(o, x)
  }

  /** Some interval of one list touches some interval of the other. */
  predicate Overlap(s: seq<Iv>, o: seq<Iv>) {
    exists i, j :: 0 <= i < |s| && 0 <= j < |o| && s[i].lo <= o[j].hi && o[j].lo <= s[i].hi
  }

  predicate InOne(n: seq<Iv>, b: Iv) {
    exists i :: 0 <= i < |n| && n[i].lo <= b.lo && b.hi <= n[i].hi
  }

  /** Every interval of the second list lies in one interval of the normal
      form of the first. */
  predicate Cover(s: seq<Iv>, o: seq<Iv>) {
    var n := NormOf(s);
    forall j :: 0 <= j < |o| ==> InOne(n, o[j])
  }

  /** Pairwise overlap is exactly a common element. */
  lemma OverlapIffMeet(s: seq<Iv>, o: seq<Iv>)
    requires Ordered(s) && Ordered(o)
    ensures Overlap(s, o) <==> Meet(s, o)
  {
    if Overlap(s, o) {
      var i, j :| 0 <= i < |s| && 0 <= j < |o| && s[i].lo <= o[j].hi && o[j].lo <= s[i].hi;
      var x := if s[i].lo < o[j].lo then o[j].lo else s[i].lo;
      assert Has(s, x) && Has(o, x);
    }
    if Meet(s, o) {
      var x :| Has(s, x) && Has(o, x);
      var i :| 0 <= i < |s| && s[i].lo <= x <= s[i].hi;
      var j :| 0 <= j < |o| && o[j].lo <= x <= o[j].hi;
      assert s[i].lo <= o[j].hi && o[j].lo <= s[i].hi;
    }
  }

  /** An interval whose elements all lie in a canonical set lies in a single
      interval of it: the gaps leave no other way. */
  lemma InOneIffInside(n: seq<Iv>, b: Iv)
    requires Canonical(n) && b.lo <= b.hi
    ensures InOne(n, b) <==> forall x :: b.lo <= x <= b.hi ==> Has(n, x)
  {
    if forall x :: b.lo <= x <= b.hi ==> Has(n, x) {
      assert Has(n, b.lo);
      var i :| 0 <= i < |n| && n[i].lo <= b.lo <= n[i].hi;
      GapAbove(n, i);
    }
  }

  /** Coverage is exactly inclusion of the sets. */
  lemma CoverIffSubset(s: seq<Iv>, o: seq<Iv>)
    requires Ordered(s) && Ordered(o)
    ensures Cover(s, o) <==> Subset(o, s)
  {
    var n := NormOf(s);
    NormIsCanonical(s);
    forall j | 0 <= j < |o|
      ensures InOne(n, o[j]) <==> forall x :: o[j].lo <= x <= o[j].hi ==> Has(n, x)
    {
      InOneIffInside(n, o[j]);
    }
    if Subset(o, s) {
      forall j, x | 0 <= j < |o| && o[j].lo <= x <= o[j].hi ensures Has(n, x) {
        assert Has(o, x);
      }
    }
    if Cover(s, o) {
      forall x | Has(o, x) ensures Has(s, x) {
        var j :| 0 <= j < |o| && o[j].lo <= x <= o[j].hi;
        assert InOne(n, o[j]);
        assert Has(n, x);
      }
    }
  }

  method SearchOverlap(s: seq<Iv>, o: seq<Iv>) returns (r: bool)
    ensures r <==> Overlap(s, o)
    ensures Ordered(s) && Ordered(o) ==> (r <==> Meet(s, o))
  {
    if Ordered(s) && Ordered(o) { OverlapIffMeet(s, o); }
    for i := 0 to |s|
      invariant forall k, j :: 0 <= k < i && 0 <= j < |o| ==> !(s[k].lo <= o[j].hi && o[j].lo <= s[k].hi)
    {
      for j := 0 to |o|
        invariant forall k :: 0 <= k < j ==> !(s[i].lo <= o[k].hi && o[k].lo <= s[i].hi)
      {
        if s[i].lo <= o[j].hi && o[j].lo <= s[i].hi {
          return true;
        }
      }
    }
    r := false;
  }

  method SearchCover(s: seq<Iv>, o: seq<Iv>) returns (r: bool)
    ensures r <==> Cover(s, o)
    ensures Ordered(s) && Ordered(o) ==> (r <==> Subset(o, s))
  {
    if Ordered(s) && Ordered(o) { CoverIffSubset(s, o); }
    var n := Norm(s);
    for j := 0 to |o|
      invariant forall k :: 0 <= k < j ==> InOne(n, o[k])
    {
      var ok := false;
      for i := 0 to |n|
        invariant ok <==> exists k :: 0 <= k < i && n[k].lo <= o[j].lo && o[j].hi <= n[k].hi
      {
        if n[i].lo <= o[j].lo && o[j].hi <= n[i].hi {
          ok := true;
        }
      }
      if !ok {
        assert !InOne(n, o[j]);
        return false;
      }
    }
    r := true;
  }

  // ---- size -----------------------------------------------------------------

  const TWO_64 := 0x1_0000_0000_0000_0000

  ghost function Span(lo: int, hi: int): (r: set<int>)
    ensures forall x :: x in r <==> lo <= x <= hi
    ensures lo <= hi + 1 ==> |r| == hi - lo + 1
    decreases hi - lo
  {
    if hi < lo then {} else Span(lo, hi - 1) + {hi}
  }

  ghost function Elements(s: seq<Iv>): (r: set<int>)
    ensures forall x :: x in r <==> Has(s, x)
  {
    if s == [] then {}
    else
      assert forall x :: Has(s, x) <==> s[0].lo <= x <= s[0].hi || Has(s[1..], x) by {
        forall x ensures Has(s, x) <==> s[0].lo <= x <= s[0].hi || Has(s[1..], x) { HasCons(s, x); }
      }
      Span(s[0].lo, s[0].hi) + Elements(s[1..])
  }

  /** The length of one interval, as 32-bit subtraction gives it. */
  function Width(v: Iv): nat { (v.hi - v.lo) % TWO_32 + 1 }

  function SumWidths(n: seq<Iv>): nat {
    if n == [] then 0 else Width(n[0]) + SumWidths(n[1..])
  }

  function SizeOf(s: seq<Iv>): nat { SumWidths(NormOf(s)) }

  lemma WidthOrdered(v: Iv)
    requires v.lo <= v.hi
    ensures Width(v) == v.hi - v.lo + 1
  {
  }

  lemma SmallMod(x: int, d: int)
    requires 0 <= x < d
    ensures x % d == x
  {
  }

  lemma {:induction false} SumWidthsCounts(n: seq<Iv>)
    requires Canonical(n)
    ensures SumWidths(n) == |Elements(n)| <= TWO_32
  {
    if n != [] {
      SumWidthsCounts(n[1..]);
      WidthOrdered(n[0]);
      forall x | x in Elements(n[1..]) ensures x !in Span(n[0].lo, n[0].hi) {
        TailSet(n, x);
      }
    }
    SubsetCard(Elements(n), Span(0, TWO_32 - 1));
  }

  /** The size is the exact number of elements. */
  lemma SizeCounts(s: seq<Iv>)
    requires Ordered(s)
    ensures SizeOf(s) == |Elements(s)| <= TWO_32
  {
    NormIsCanonical(s);
    SumWidthsCounts(NormOf(s));
    SameElements(s, NormOf(s));
  }

  lemma SameElements(a: seq<Iv>, b: seq<Iv>)
    requires SameSet(a, b)
    ensures Elements(a) == Elements(b)
  {
  }

  /** The running 64-bit sum never wraps: an interval list has at most 2^32
      elements. */
  method Size(s: seq<Iv>) returns (n: nat)
    requires Ordered(s)
    ensures n == |Elements(s)| == SizeOf(s)
  {
    SizeCounts(s);
    var c := Norm(s);
    n := 0;
    for i := 0 to |c|
      invariant n + SumWidths(c[i..]) == SizeOf(s)
    {
      SizeStep(c, i, n, SizeOf(s));
      n := (n + Width(c[i])) % TWO_64;
    }
  }

  /** One interval more, without wrap. */
  lemma SizeStep(c: seq<Iv>, i: nat, n: nat, size: nat)
    requires i < |c| && n + SumWidths(c[i..]) == size <= TWO_32
    ensures (n + Width(c[i])) % TWO_64 + SumWidths(c[i + 1..]) == size
  {
    var rest := c[i..];
    assert rest[0] == c[i] && rest[1..] == c[i + 1..];
    assert SumWidths(rest) == Width(rest[0]) + SumWidths(rest[1..]);
    SmallMod(n + Width(c[i]), TWO_64);
  }
}
