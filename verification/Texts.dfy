/** Lists of texts in the form the compiler gives them: sorted and without
    repetition. */
module Texts {
  import opened Prelude

  /** The order of texts: the first difference decides, a prefix comes first. */
  predicate Before(a: string, b: string) {
    b != [] && (a == [] || a[0] < b[0] || (a[0] == b[0] && Before(a[1..], b[1..])))
  }

  lemma {:induction false} BeforeTotal(a: string, b: string)
    ensures Before(a, b) || a == b || Before(b, a)
    ensures !(Before(a, b) && Before(b, a))
    ensures a == b ==> !Before(a, b)
  {
    if a != [] && b != [] {
      BeforeTotal(a[1..], b[1..]);
      assert a == [a[0]] + a[1..] && b == [b[0]] + b[1..];
    }
  }

  lemma {:induction false} BeforeTransitive(a: string, b: string, c: string)
    requires Before(a, b) && Before(b, c)
    ensures Before(a, c)
  {
    if a != [] && a[0] == b[0] == c[0] {
      BeforeTransitive(a[1..], b[1..], c[1..]);
    }
  }

  /** Never falling. */
  ghost predicate Sorted(l: seq<string>) {
    forall i, j :: 0 <= i < j < |l| ==> !Before(l[j], l[i])
  }

  /** Always rising: sorted, and nothing twice. */
  ghost predicate Rising(l: seq<string>) {
    forall i, j :: 0 <= i < j < |l| ==> Before(l[i], l[j])
  }

  function Insert(x: string, l: seq<string>): seq<string> {
    if l == [] || !Before(l[0], x) then [x] + l else [l[0]] + Insert(x, l[1..])
  }

  function Sort(l: seq<string>): seq<string> {
    if l == [] then [] else Insert(l[0], Sort(l[1..]))
  }

  /** Of equal neighbours only one stays. */
  function Compact(l: seq<string>): seq<string> {
    if |l| <= 1 then l
    else if l[0] == l[1] then Compact(l[1..])
    else [l[0]] + Compact(l[1..])
  }

  function Normal(l: seq<string>): seq<string> { Compact(Sort(l)) }

  lemma {:induction false} InsertSorted(x: string, l: seq<string>)
    requires Sorted(l)
    ensures Sorted(Insert(x, l))
    ensures forall y :: y in Insert(x, l) <==> y == x || y in l
  {
    if l == [] {
    } else if !Before(l[0], x) {
      SortedCons(x, l);
    } else {
      InsertSorted(x, l[1..]);
      assert forall y :: y in l <==> y == l[0] || y in l[1..];
      var r := Insert(x, l[1..]);
      forall j | 0 <= j < |r| ensures !Before(r[j], l[0]) {
        assert r[j] in r;
        BeforeTotal(l[0], x);
        if r[j] in l[1..] {
          var k :| 0 <= k < |l[1..]| && l[1..][k] == r[j];
          assert l[k + 1] == r[j];
        }
      }
    }
  }

  lemma SortedCons(x: string, l: seq<string>)
    requires Sorted(l) && l != [] && !Before(l[0], x)
    ensures Sorted([x] + l)
  {
    forall j | 0 <= j < |l| ensures !Before(l[j], x) {
      NotBeforeTransitive(x, l[0], l[j]);
    }
  }

  lemma NotBeforeTransitive(a: string, b: string, c: string)
    requires !Before(b, a)
    ensures !Before(c, b) ==> !Before(c, a)
  {
    BeforeTotal(a, b);
    BeforeTotal(b, c);
    if Before(c, a) && Before(a, b) { BeforeTransitive(c, a, b); }
  }

  lemma {:induction false} SortSorts(l: seq<string>)
    ensures Sorted(Sort(l))
    ensures forall y :: y in Sort(l) <==> y in l
  {
    if l != [] {
      SortSorts(l[1..]);
      InsertSorted(l[0], Sort(l[1..]));
      assert forall y :: y in l <==> y == l[0] || y in l[1..];
    }
  }

  lemma {:induction false} CompactRises(l: seq<string>)
    requires Sorted(l)
    ensures Rising(Compact(l))
    ensures forall y :: y in Compact(l) <==> y in l
  {
    if |l| > 1 {
      CompactRises(l[1..]);
      assert forall y :: y in l <==> y == l[0] || y in l[1..];
      if l[0] == l[1] {
        assert l[0] in l[1..];
      } else {
        var r := Compact(l[1..]);
        forall j | 0 <= j < |r| ensures Before(l[0], r[j]) {
          assert r[j] in l[1..];
          var k :| 0 <= k < |l[1..]| && l[1..][k] == r[j];
          assert l[k + 1] == r[j] && !Before(r[j], l[0]);
          BeforeTotal(l[0], l[1]);
          assert Before(l[0], l[1]);
          BeforeTotal(l[1], l[k + 1]);
          if Before(l[1], l[k + 1]) { BeforeTransitive(l[0], l[1], l[k + 1]); }
        }
      }
    }
  }

  /** A rising list is determined by its members. */
  lemma {:induction false} RisingUnique(a: seq<string>, b: seq<string>)
    requires Rising(a) && Rising(b) && forall y :: y in a <==> y in b
    ensures a == b
  {
    HeadIsMember(a);
    HeadIsMember(b);
    if a != [] {
      FirstIsLeast(a, b[0]);
      FirstIsLeast(b, a[0]);
      BeforeTotal(a[0], b[0]);
      TailMembers(a);
      TailMembers(b);
      RisingUnique(a[1..], b[1..]);
    }
  }

  lemma HeadIsMember(l: seq<string>)
    ensures l != [] ==> l[0] in l
  {
  }

  lemma FirstIsLeast(l: seq<string>, x: string)
    requires Rising(l) && x in l
    ensures x == l[0] || Before(l[0], x)
  {
  }

  lemma TailMembers(l: seq<string>)
    requires Rising(l) && l != []
    ensures Rising(l[1..])
    ensures forall y :: y in l[1..] <==> y in l && y != l[0]
  {
    forall y | y in l[1..] ensures y in l && y != l[0] {
      var k :| 0 <= k < |l[1..]| && l[1..][k] == y;
      assert Before(l[0], l[k + 1]);
      BeforeTotal(l[0], y);
    }
  }

  /** The normal form rises, keeps the members, and is the same for all lists
      with the same members. */
  lemma NormalForm(a: seq<string>)
    ensures Rising(Normal(a))
    ensures forall y :: y in Normal(a) <==> y in a
  {
    SortSorts(a);
    CompactRises(Sort(a));
  }

  lemma NormalUnique(a: seq<string>, b: seq<string>)
    ensures Normal(a) == Normal(b) <==> forall y :: y in a <==> y in b
  {
    NormalForm(a);
    NormalForm(b);
    if forall y :: y in a <==> y in b {
      RisingUnique(Normal(a), Normal(b));
    }
  }
}
