/** The Audit Log: entries chained by a digest. The content of an entry stands
    for everything it records besides its place in the chain. */
module Audit {
  import opened Prelude

  datatype Entry = Entry(number: nat, content: string, prev: string, hash: string)

  /** The digest of an entry, computed without its own hash. */
  type Digest = (nat, string, string) -> string

  function DigestOf(d: Digest, e: Entry): string { d(e.number, e.content, e.prev) }

  /** Different entries have different digests, and no digest is empty. */
  ghost predicate Strong(d: Digest) {
    && (forall n, c, p, n', c', p' :: d(n, c, p) == d(n', c', p') ==> (n, c, p) == (n', c', p'))
    && (forall n, c, p :: d(n, c, p) != "")
  }

  /** The hash a next entry has to name. */
  function EndHash(l: seq<Entry>): string { if l == [] then "" else l[|l| - 1].hash }

  function EndNumber(l: seq<Entry>): nat { if l == [] then 0 else l[|l| - 1].number }

  predicate LinkOk(d: Digest, l: seq<Entry>, i: nat)
    requires i < |l|
  {
    l[i].prev == EndHash(l[..i]) && DigestOf(d, l[i]) == l[i].hash
  }

  ghost predicate Chain(d: Digest, l: seq<Entry>) { forall i :: 0 <= i < |l| ==> LinkOk(d, l, i) }

  datatype Verification = Verification(ok: bool, entries: nat, brokenAt: nat)

  /** A log: what is on disk, and what a next entry continues. */
  datatype Snapshot = Snapshot(file: seq<Entry>, last: string, number: nat)

  function OpenOn(file: seq<Entry>): Snapshot { Snapshot(file, EndHash(file), EndNumber(file)) }

  /** A next entry. The write may fail, and the number and hash move on all the
      same. */
  function RecordOn(d: Digest, s: Snapshot, content: string, written: bool): Snapshot {
    var e := Entry(s.number + 1, content, s.last, d(s.number + 1, content, s.last));
    Snapshot(if written then s.file + [e] else s.file, e.hash, e.number)
  }

  class Log {
    const digest: Digest
    var file: seq<Entry>
    var last: string
    var number: nat

    ghost function Now(): Snapshot
      reads this
    {
      Snapshot(file, last, number)
    }

    /** Opens the log on disk. */
    constructor (digest: Digest, file: seq<Entry>)
      ensures this.digest == digest && Now() == OpenOn(file)
    {
      this.digest := digest;
      this.file := file;
      last, number := EndHash(file), EndNumber(file);
    }

    /** Appends an entry; written tells whether the write succeeded, which the
        caller never learns. */
    method Record(content: string, written: bool)
      modifies this`file, this`last, this`number
      ensures Now() == RecordOn(digest, old(Now()), content, written)
      ensures number == old(number) + 1 && last == digest(number, content, old(last))
      ensures file == if written then old(file) + [Entry(number, content, old(last), last)] else old(file)
    {
      number := number + 1;
      var e := Entry(number, content, last, "");
      e := e.(hash := DigestOf(digest, e));
      last := e.hash;
      if written {
        file := file + [e];
      }
    }

    /** Recomputes the chain. */
    method Verify() returns (v: Verification)
      ensures v.ok <==> Chain(digest, file)
      ensures v.entries == |file|
      ensures !v.ok ==> exists k :: 0 <= k < |file| && FirstBroken(digest, file, k) && v.brokenAt == file[k].number
    {
      var prev := "";
      for i := 0 to |file|
        invariant prev == EndHash(file[..i])
        invariant forall k :: 0 <= k < i ==> LinkOk(digest, file, k)
      {
        var e := file[i];
        if e.prev != prev || DigestOf(digest, e) != e.hash {
          assert !LinkOk(digest, file, i) && FirstBroken(digest, file, i);
          return Verification(false, |file|, e.number);
        }
        prev := e.hash;
      }
      v := Verification(true, |file|, 0);
    }
  }

  ghost predicate FirstBroken(d: Digest, l: seq<Entry>, k: nat)
    requires k < |l|
  {
    !LinkOk(d, l, k) && forall j :: 0 <= j < k ==> LinkOk(d, l, j)
  }

  lemma ChainSnoc(d: Digest, l: seq<Entry>, e: Entry)
    requires DigestOf(d, e) == e.hash
    ensures Chain(d, l + [e]) <==> Chain(d, l) && e.prev == EndHash(l)
  {
    var m := l + [e];
    assert m[..|l|] == l;
    forall i | 0 <= i < |l| ensures LinkOk(d, m, i) <==> LinkOk(d, l, i) {
      assert m[..i] == l[..i];
    }
    assert LinkOk(d, m, |l|) <==> e.prev == EndHash(l);
    if Chain(d, m) {
      forall i | 0 <= i < |l| ensures LinkOk(d, l, i) {
        assert LinkOk(d, m, i);
      }
    }
  }

  lemma ChainPrefix(d: Digest, l: seq<Entry>, n: nat)
    requires Chain(d, l) && n <= |l|
    ensures Chain(d, l[..n])
  {
    forall i | 0 <= i < n ensures LinkOk(d, l[..n], i) {
      assert LinkOk(d, l, i) && l[..n][..i] == l[..i];
    }
  }

  /** Two logs that verify and end in the same hash are the same log. */
  lemma {:induction false} SameEndSameLog(d: Digest, a: seq<Entry>, b: seq<Entry>)
    requires Strong(d) && Chain(d, a) && Chain(d, b) && EndHash(a) == EndHash(b)
    ensures a == b
    decreases |a|
  {
    LastLink(d, a);
    LastLink(d, b);
    if a != [] && b != [] {
      var (m, n) := (|a| - 1, |b| - 1);
      ChainPrefix(d, a, m);
      ChainPrefix(d, b, n);
      SameEndSameLog(d, a[..m], b[..n]);
      assert a == a[..m] + [a[m]] && b == b[..n] + [b[n]];
    }
  }

  lemma LastLink(d: Digest, l: seq<Entry>)
    requires Strong(d) && Chain(d, l)
    ensures l == [] <==> EndHash(l) == ""
    ensures l != [] ==> LinkOk(d, l, |l| - 1)
  {
  }

  /** Removing entries from a log that verifies is noticed by verification
      exactly unless the last entries are the ones removed. */
  lemma RemovalNoticed(d: Digest, l: seq<Entry>, i: nat, j: nat)
    requires Strong(d) && Chain(d, l) && i < j <= |l|
    ensures Chain(d, l[..i] + l[j..]) <==> j == |l|
  {
    var m := l[..i] + l[j..];
    ChainPrefix(d, l, i);
    ChainPrefix(d, l, j);
    if j == |l| {
      assert m == l[..i];
    } else {
      assert m[..i] == l[..i] && m[i] == l[j];
      assert LinkOk(d, l, j);
      if EndHash(l[..i]) == EndHash(l[..j]) { SameEndSameLog(d, l[..i], l[..j]); }
      assert !LinkOk(d, m, i);
    }
  }

  /** Every entry of a chain has one place in it. */
  lemma OnePlace(d: Digest, l: seq<Entry>, i: nat, j: nat)
    requires Strong(d) && Chain(d, l) && i < |l| && j < |l| && l[i].prev == l[j].prev
    ensures i == j
  {
    assert LinkOk(d, l, i) && LinkOk(d, l, j);
    ChainPrefix(d, l, i);
    ChainPrefix(d, l, j);
    SameEndSameLog(d, l[..i], l[..j]);
  }

  /** Reordering the entries of a log that verifies is always noticed. */
  lemma {:induction false} ReorderingNoticed(d: Digest, a: seq<Entry>, b: seq<Entry>, k: nat)
    requires Strong(d) && Chain(d, a) && Chain(d, b) && Permuted(a, b) && k <= |a|
    ensures |a| == |b| && a[..k] == b[..k]
  {
    assert |multiset(a)| == |a| && |multiset(b)| == |b|;
    if k > 0 {
      ReorderingNoticed(d, a, b, k - 1);
      PermutedMembers(a, b);
      assert a[k - 1] in a;
      var j :| 0 <= j < |b| && b[j] == a[k - 1];
      assert LinkOk(d, a, k - 1) && LinkOk(d, b, k - 1);
      OnePlace(d, b, j, k - 1);
      assert a[..k] == a[..k - 1] + [a[k - 1]] && b[..k] == b[..k - 1] + [b[k - 1]];
    }
  }

  /** A changed entry is noticed, whatever hash it is given, unless it is the
      last and its hash is the digest of the changed entry. */
  lemma ModificationNoticed(d: Digest, l: seq<Entry>, i: nat, e: Entry)
    requires Strong(d) && Chain(d, l) && i < |l| && e != l[i]
    ensures Chain(d, l[i := e]) <==> i == |l| - 1 && e.prev == l[i].prev && e.hash == DigestOf(d, e)
  {
    var m := l[i := e];
    assert LinkOk(d, l, i) && m[..i] == l[..i] && m[i] == e;
    if i + 1 < |l| {
      assert LinkOk(d, l, i + 1) && EndHash(l[..i + 1]) == l[i].hash;
      assert m[..i + 1][i] == e && m[i + 1] == l[i + 1];
      assert !(LinkOk(d, m, i) && LinkOk(d, m, i + 1));
    } else {
      forall k | 0 <= k < i ensures LinkOk(d, m, k) {
        assert LinkOk(d, l, k) && m[..k] == l[..k];
      }
      assert LinkOk(d, m, i) <==> e.prev == l[i].prev && e.hash == DigestOf(d, e);
    }
  }

  /** A log with an entry of another log is the other log up to that entry, if
      both verify. */
  lemma SharedEntry(d: Digest, l: seq<Entry>, m: seq<Entry>, i: nat, j: nat)
    requires Strong(d) && Chain(d, l) && Chain(d, m) && i < |l| && j < |m| && l[i].hash == m[j].hash
    ensures i == j && l[..i + 1] == m[..j + 1]
  {
    ChainPrefix(d, l, i + 1);
    ChainPrefix(d, m, j + 1);
    SameEndSameLog(d, l[..i + 1], m[..j + 1]);
    assert |l[..i + 1]| == i + 1 && |m[..j + 1]| == j + 1;
  }

  /** Whatever is made of the entries of a log that verifies, by removing,
      repeating and reordering them, verifies if and only if it is a beginning
      of that log. */
  lemma SelectionNoticed(d: Digest, l: seq<Entry>, m: seq<Entry>)
    requires Strong(d) && Chain(d, l) && forall e :: e in m ==> e in l
    ensures Chain(d, m) <==> |m| <= |l| && m == l[..|m|]
  {
    if |m| <= |l| && m == l[..|m|] {
      ChainPrefix(d, l, |m|);
    }
    if Chain(d, m) && m != [] {
      var j := |m| - 1;
      assert m[j] in l;
      var i :| 0 <= i < |l| && l[i] == m[j];
      SharedEntry(d, l, m, i, j);
      assert m[..j + 1] == m;
    }
  }

  /** Edits of any number of entries: if the edited log verifies, then from the
      first edit on no hash is one of the old log, the last one included. */
  lemma EditsSpread(d: Digest, l: seq<Entry>, m: seq<Entry>, i: nat)
    requires Strong(d) && Chain(d, l) && Chain(d, m) && i < |l| && i < |m| && l[i] != m[i]
    ensures forall j, k :: i <= j < |m| && 0 <= k < |l| ==> m[j].hash != l[k].hash
  {
    forall j, k | i <= j < |m| && 0 <= k < |l| ensures m[j].hash != l[k].hash {
      SameBefore(d, l, m, i, j, k);
    }
  }

  lemma SameBefore(d: Digest, l: seq<Entry>, m: seq<Entry>, i: nat, j: nat, k: nat)
    requires Strong(d) && Chain(d, l) && Chain(d, m) && i < |l| && i <= j < |m| && k < |l|
    ensures m[j].hash == l[k].hash ==> l[i] == m[i]
  {
    if m[j].hash == l[k].hash {
      SharedEntry(d, l, m, k, j);
      assert l[..k + 1][i] == l[i] && m[..j + 1][i] == m[i];
    }
  }

  // ---- writes that fail -----------------------------------------------------------------------

  /** What happens to a log: it is opened again, or an entry is recorded. */
  datatype Use = Opened | Recorded(content: string, written: bool)

  function UseOn(d: Digest, s: Snapshot, u: Use): Snapshot {
    match u
    case Opened => OpenOn(s.file)
    case Recorded(content, written) => RecordOn(d, s, content, written)
  }

  function UsesOn(d: Digest, s: Snapshot, us: seq<Use>): Snapshot
    decreases |us|
  {
    if us == [] then s else UsesOn(d, UseOn(d, s, us[0]), us[1..])
  }

  /** A write succeeds after one that failed, and the log was not opened between
      them. */
  ghost predicate WritesPastFailure(us: seq<Use>) {
    exists i, j :: 0 <= i < j < |us| && us[i].Recorded? && !us[i].written && us[j].Recorded? && us[j].written &&
      forall k :: i < k < j ==> us[k].Recorded?
  }

  /** The same, read from the front: stale tells that the last write failed. */
  predicate Loses(stale: bool, us: seq<Use>)
    decreases |us|
  {
    us != [] &&
    match us[0]
    case Opened => Loses(false, us[1..])
    case Recorded(_, written) => (stale && written) || Loses(stale || !written, us[1..])
  }

  /** The first successful write comes before the log is opened. */
  ghost predicate WritesFirst(us: seq<Use>) {
    exists j :: 0 <= j < |us| && us[j].Recorded? && us[j].written && forall k :: 0 <= k < j ==> us[k].Recorded?
  }

  lemma {:induction false} LosesMeans(stale: bool, us: seq<Use>)
    ensures Loses(stale, us) <==> WritesPastFailure(us) || (stale && WritesFirst(us))
    decreases |us|
  {
    if us != [] {
      LosesMeans(if us[0].Opened? then false else stale || !us[0].written, us[1..]);
    }
  }

  /** The log verifies, and what is to be recorded next continues it, unless a
      write has failed: then its number is used up and its hash not on disk. */
  ghost predicate Sound(d: Digest, s: Snapshot, stale: bool) {
    Chain(d, s.file) &&
    if stale then s.number > EndNumber(s.file) && exists c, p :: s.last == d(s.number, c, p)
    else s == OpenOn(s.file)
  }

  lemma StaleEnd(d: Digest, s: Snapshot)
    requires Strong(d) && Sound(d, s, true)
    ensures s.last != EndHash(s.file)
  {
    LastLink(d, s.file);
  }

  lemma BrokenStays(d: Digest, s: Snapshot, u: Use)
    requires !Chain(d, s.file)
    ensures !Chain(d, UseOn(d, s, u).file)
  {
    if u.Recorded? {
      var e := Entry(s.number + 1, u.content, s.last, d(s.number + 1, u.content, s.last));
      ChainSnoc(d, s.file, e);
    }
  }

  lemma {:induction false} BrokenForGood(d: Digest, s: Snapshot, us: seq<Use>)
    requires !Chain(d, s.file)
    ensures !Chain(d, UsesOn(d, s, us).file)
    decreases |us|
  {
    if us != [] {
      BrokenStays(d, s, us[0]);
      BrokenForGood(d, UseOn(d, s, us[0]), us[1..]);
    }
  }

  lemma SoundStep(d: Digest, s: Snapshot, stale: bool, u: Use)
    requires Strong(d) && Sound(d, s, stale)
    ensures if u.Recorded? && u.written && stale then !Chain(d, UseOn(d, s, u).file)
      else Sound(d, UseOn(d, s, u), u.Recorded? && (stale || !u.written))
  {
    if u.Recorded? {
      var e := Entry(s.number + 1, u.content, s.last, d(s.number + 1, u.content, s.last));
      ChainSnoc(d, s.file, e);
      if stale { StaleEnd(d, s); }
      assert EndNumber(s.file + [e]) == e.number && EndHash(s.file + [e]) == e.hash;
    }
  }

  lemma {:induction false} SoundUses(d: Digest, s: Snapshot, stale: bool, us: seq<Use>)
    requires Strong(d) && Sound(d, s, stale)
    ensures Chain(d, UsesOn(d, s, us).file) <==> !Loses(stale, us)
    decreases |us|
  {
    if us != [] {
      SoundStep(d, s, stale, us[0]);
      if us[0].Recorded? && us[0].written && stale {
        BrokenForGood(d, UseOn(d, s, us[0]), us[1..]);
      } else {
        SoundUses(d, UseOn(d, s, us[0]), us[0].Recorded? && (stale || !us[0].written), us[1..]);
      }
    }
  }

  /** Over every use of a log that verifies when it is opened: it goes on to
      verify if and only if no write succeeds after one that failed before the
      log is opened again. */
  lemma VerifiesIff(d: Digest, file: seq<Entry>, us: seq<Use>)
    requires Strong(d) && Chain(d, file)
    ensures Chain(d, UsesOn(d, OpenOn(file), us).file) <==> !WritesPastFailure(us)
  {
    SoundUses(d, OpenOn(file), false, us);
    LosesMeans(false, us);
  }

  // ---- what the log holds ---------------------------------------------------------------------

  /** The entries from one on have these contents. */
  ghost predicate HoldsFrom(l: seq<Entry>, n: nat, contents: seq<string>) {
    |l| == n + |contents| && forall i :: 0 <= i < |contents| ==> l[n + i].content == contents[i]
  }

  /** What was recorded and written. */
  function WrittenBy(us: seq<Use>): seq<string> {
    if us == [] then []
    else (if us[0].Recorded? && us[0].written then [us[0].content] else []) + WrittenBy(us[1..])
  }

  /** The log is added to only: what it had stays, and each entry written since
      holds what was recorded, in order. */
  lemma {:induction false} LogHolds(d: Digest, s: Snapshot, us: seq<Use>)
    ensures var l := UsesOn(d, s, us).file;
      |s.file| <= |l| && l[..|s.file|] == s.file && HoldsFrom(l, |s.file|, WrittenBy(us))
    decreases |us|
  {
    if us != [] {
      var v := UseOn(d, s, us[0]);
      LogHolds(d, v, us[1..]);
      var l := UsesOn(d, s, us).file;
      assert l[..|s.file|] == l[..|v.file|][..|s.file|];
      if us[0].Recorded? && us[0].written {
        assert l[|s.file|] == l[..|v.file|][|s.file|];
      }
    }
  }

  ghost predicate NumbersRise(l: seq<Entry>) { forall i, j :: 0 <= i < j < |l| ==> l[i].number < l[j].number }

  /** Numbers only rise, over every use. */
  lemma {:induction false} UsesRise(d: Digest, s: Snapshot, us: seq<Use>)
    requires NumbersRise(s.file) && (s.file != [] ==> EndNumber(s.file) <= s.number)
    ensures NumbersRise(UsesOn(d, s, us).file)
    decreases |us|
  {
    if us != [] { UsesRise(d, UseOn(d, s, us[0]), us[1..]); }
  }

  /** They are consecutive if all writes succeed. */
  lemma {:induction false} NumbersConsecutive(d: Digest, file: seq<Entry>, us: seq<Use>, i: nat)
    requires forall k :: 0 <= k < |us| && us[k].Recorded? ==> us[k].written
    requires |file| <= i < |UsesOn(d, OpenOn(file), us).file|
    ensures UsesOn(d, OpenOn(file), us).file[i].number == EndNumber(file) + (i - |file|) + 1
    decreases |us|
  {
    if us != [] {
      var v := UseOn(d, OpenOn(file), us[0]);
      assert v == OpenOn(v.file);
      LogHolds(d, v, us[1..]);
      var l := UsesOn(d, v, us[1..]).file;
      if i < |v.file| {
        assert l[i] == l[..|v.file|][i];
      } else {
        NumbersConsecutive(d, v.file, us[1..], i);
      }
    }
  }
}
