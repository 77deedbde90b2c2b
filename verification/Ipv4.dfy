/** IPv4 addresses as 32-bit numbers, and prefixes in the notation of section
    3.1 of RFC 4632: an address together with the number of leading bits that
    identify the network. */
module Ipv4 {

  const TWO_32 := 0x1_0000_0000

  type U32 = n: int | 0 <= n < TWO_32

  type Bits = n: int | 0 <= n <= 32

  datatype Prefix = Prefix(addr: U32, bits: Bits)

  function Pow2(n: nat): (r: nat)
    ensures 1 <= r
  {
    if n == 0 then 1 else 2 * Pow2(n - 1)
  }

  lemma {:induction false} Pow2Add(m: nat, n: nat)
    ensures Pow2(m + n) == Pow2(m) * Pow2(n)
  {
    if m > 0 {
      Pow2Add(m - 1, n);
      assert m - 1 + n == m + n - 1;
    }
  }

  lemma Pow2Of32()
    ensures Pow2(32) == TWO_32
  {
    assert Pow2(8) == 256;
    Pow2Add(8, 8);
    Pow2Add(16, 16);
  }

  /** The number of addresses of a prefix. */
  function Block(p: Prefix): (r: nat)
    ensures 1 <= r
  {
    Pow2(32 - p.bits)
  }

  /** The prefix with its host bits cleared. */
  function Masked(p: Prefix): Prefix {
    ModSmall(p.addr, Block(p));
    Prefix(p.addr - p.addr % Block(p), p.bits)
  }

  /** Two addresses agree on the leading bits of the prefix. */
  predicate Contains(p: Prefix, x: U32) {
    x / Block(p) == p.addr / Block(p)
  }

  /** Two prefixes agree on the leading bits of the shorter one. */
  predicate Overlaps(p: Prefix, q: Prefix) {
    var b := if p.bits < q.bits then p.bits else q.bits;
    p.addr / Pow2(32 - b) == q.addr / Pow2(32 - b)
  }

  /** The mask of the host bits, as the shift on 32-bit words gives it: for a
      prefix of length zero the shift yields zero and the subtraction wraps. */
  function HostMask(bits: Bits): U32 {
    (Pow2(32 - bits) % TWO_32 - 1) % TWO_32
  }

  function First(p: Prefix): U32 { Masked(p).addr }

  // The host bits of the masked address are zero, so the bitwise "or" with
  // the mask is an addition.
  function Last(p: Prefix): (r: int) { First(p) + HostMask(p.bits) }

  lemma ModSmall(x: nat, d: nat)
    requires 1 <= d
    ensures 0 <= x % d <= x
    ensures x == x / d * d + x % d
  {
    assert x == d * (x / d) + x % d;
    assert 0 <= x / d;
    assert 0 <= d * (x / d);
  }

  lemma MulMono(a: int, b: int, d: nat)
    requires a <= b
    ensures a * d <= b * d
  {
    assert 0 <= (b - a) * d;
  }

  /** A quotient is determined by any decomposition with a small remainder. */
  lemma DivUnique(x: int, d: int, q: int, r: int)
    requires 0 < d && 0 <= r < d && x == q * d + r
    ensures x / d == q && x % d == r
  {
    var k := x / d;
    assert x == k * d + x % d;
    if q < k { MulMono(q + 1, k, d); }
    if k < q { MulMono(k + 1, q, d); }
  }

  /** Dropping m bits and then n bits drops m + n bits. */
  lemma DivTwice(x: nat, m: nat, n: nat)
    ensures x / Pow2(m + n) == x / Pow2(m) / Pow2(n)
  {
    var a, b := Pow2(m), Pow2(n);
    Pow2Add(m, n);
    var u := x / a;
    ModSmall(x, a);
    ModSmall(u, b);
    NestedQuotient(x, a, b, u / b, u % b, x % a);
  }

  lemma NestedQuotient(x: int, a: nat, b: nat, q: int, r1: nat, r0: nat)
    requires r0 < a && r1 < b && x == (q * b + r1) * a + r0
    ensures 0 < a * b && x / (a * b) == q
  {
    MulMono(r1, b - 1, a);
    MulMono(0, r1, a);
    assert x == q * (a * b) + (r1 * a + r0);
    DivUnique(x, a * b, q, r1 * a + r0);
  }

  lemma BlockBound(bits: Bits)
    ensures Pow2(32 - bits) * Pow2(bits) == TWO_32
    ensures Pow2(32 - bits) <= TWO_32
    ensures HostMask(bits) == Pow2(32 - bits) - 1
  {
    assert Pow2(32 - bits) * Pow2(bits) == TWO_32 by {
      Pow2Add(32 - bits, bits);
      Pow2Of32();
    }
    FactorBound(Pow2(32 - bits), Pow2(bits), TWO_32);
    MaskBelow(Pow2(32 - bits));
  }

  lemma MaskBelow(n: nat)
    requires 1 <= n <= TWO_32
    ensures (n % TWO_32 - 1) % TWO_32 == n - 1
  {
    if n < TWO_32 {
      assert n % TWO_32 == n;
      assert (n - 1) % TWO_32 == n - 1;
    }
  }

  lemma FactorBound(a: nat, b: nat, c: nat)
    requires a * b == c && 1 <= b
    ensures a <= c
  {
    MulMono(1, b, a);
  }

  lemma IntervalBounds(p: Prefix)
    ensures First(p) == p.addr / Block(p) * Block(p)
    ensures Last(p) == First(p) + Block(p) - 1 < TWO_32
  {
    BlockBound(p.bits);
    LastBlockFits(p.addr, Block(p), Pow2(p.bits));
  }

  lemma LastBlockFits(x: nat, d: nat, blocks: nat)
    requires 0 < d && x < d * blocks
    ensures x - x % d == x / d * d
    ensures x - x % d + d <= d * blocks
  {
    ModSmall(x, d);
    QuotientBound(x, d, blocks);
    MulMono(x / d + 1, blocks, d);
    assert (x / d + 1) * d == x / d * d + d;
  }

  lemma QuotientIsInterval(x: nat, d: nat, q: nat)
    requires 0 < d
    ensures x / d == q <==> q * d <= x <= q * d + d - 1
  {
    ModSmall(x, d);
    if q * d <= x <= q * d + d - 1 {
      DivUnique(x, d, q, x - q * d);
    }
  }

  /** A prefix contains exactly the addresses of its interval, which never
      leaves the 32-bit range. */
  lemma ContainsIsInterval(p: Prefix, x: U32)
    ensures First(p) <= Last(p) < TWO_32
    ensures Contains(p, x) <==> First(p) <= x <= Last(p)
  {
    IntervalBounds(p);
    QuotientIsInterval(x, Block(p), p.addr / Block(p));
  }

  lemma QuotientBound(x: nat, d: nat, top: nat)
    requires 0 < d && x < top * d
    ensures x / d < top
  {
  }

  lemma MaskedContains(p: Prefix, x: U32)
    ensures Contains(Masked(p), x) <==> Contains(p, x)
  {
    var d := Block(p);
    ModSmall(p.addr, d);
    DivUnique(Masked(p).addr, d, p.addr / d, 0);
  }

  /** The comparison of leading bits decides exactly whether two prefixes have
      an address in common. */
  lemma OverlapsIffMeet(p: Prefix, q: Prefix)
    ensures Overlaps(p, q) <==> exists x: U32 :: Contains(p, x) && Contains(q, x)
  {
    if p.bits <= q.bits {
      OverlapsNested(p, q);
    } else {
      OverlapsNested(q, p);
    }
  }

  lemma MaskedOverlaps(p: Prefix, q: Prefix)
    ensures Overlaps(Masked(p), q) <==> Overlaps(p, q)
  {
    OverlapsIffMeet(Masked(p), q);
    OverlapsIffMeet(p, q);
    forall x: U32 ensures Contains(Masked(p), x) <==> Contains(p, x) {
      MaskedContains(p, x);
    }
  }

  lemma OverlapsNested(p: Prefix, q: Prefix)
    requires p.bits <= q.bits
    ensures Overlaps(p, q) <==> Overlaps(q, p)
    ensures Overlaps(p, q) <==> Contains(p, q.addr)
    ensures forall x: U32 :: Contains(p, x) && Contains(q, x) ==> Overlaps(p, q)
    ensures Overlaps(p, q) <==> exists x: U32 :: Contains(p, x) && Contains(q, x)
  {
    forall x: U32 | Contains(p, x) && Contains(q, x) ensures Overlaps(p, q) {
      DivTwice(x, 32 - q.bits, q.bits - p.bits);
      DivTwice(q.addr, 32 - q.bits, q.bits - p.bits);
    }
    assert Contains(q, q.addr);
  }

  /** Prefixes of equal length with a common address have the same network. */
  lemma SameLengthMeet(p: Prefix, q: Prefix, x: U32)
    requires p.bits == q.bits && Contains(p, x) && Contains(q, x)
    ensures Masked(p) == Masked(q)
  {
    ModSmall(p.addr, Block(p));
    ModSmall(q.addr, Block(q));
  }
}
