/** The limit on translation entries, with the 64-bit arithmetic of the check. */
module Limits {
  import opened Prelude
  import opened Ipv4
  import opened Intervals
  import opened Model
  import opened Expand
  import opened Matching
  import opened Clean

  const MAX_DNAT_ENTRIES := 16384
  const ANY_PORTS := 65535

  function Max(a: nat, b: nat): nat { if a < b then b else a }

  function PortsFor(s: SvcSet, proto: string): nat {
    if proto in s.ports then SizeOf(s.ports[proto]) else 0
  }

  /** The number of destination ports of the protocols that have ports. */
  function PortCount(s: SvcSet): nat {
    if s.any then ANY_PORTS
    else Max(PortsFor(s, "tcp") + PortsFor(s, "udp") + PortsFor(s, "sctp"), 1)
  }

  /** The entries of one translation rule, in unbounded arithmetic. */
  function Entries(d: DnatRule): nat { Product(Max(1, SizeOf(d.dst.ivs)), PortCount(d.svc)) }

  function Product(a: nat, b: nat): nat { a * b }

  function TotalEntries(ds: seq<DnatRule>): nat {
    if ds == [] then 0 else Entries(ds[0]) + TotalEntries(ds[1..])
  }

  // ---- the check, on 64-bit words -----------------------------------------------------

  function Entries64(d: DnatRule): nat {
    Product(Max(1, SizeOf(d.dst.ivs) % TWO_64), PortCount(d.svc) % TWO_64) % TWO_64
  }

  function Sum64(sum: nat, d: DnatRule): nat { Add64(sum, Entries64(d)) }

  /** The running sum after a list of rules. */
  function RunningSum(sum: nat, ds: seq<DnatRule>): nat
    decreases |ds|
  {
    if ds == [] then sum else RunningSum(Sum64(sum, ds[0]), ds[1..])
  }

  /** Some running sum is above the limit. */
  predicate LimitHit(sum: nat, ds: seq<DnatRule>)
    decreases |ds|
  {
    ds != [] && (Sum64(sum, ds[0]) > MAX_DNAT_ENTRIES || LimitHit(Sum64(sum, ds[0]), ds[1..]))
  }

  ghost predicate SetsOrdered(d: DnatRule) {
    && Ordered(d.dst.ivs) && SvcOrdered(d.svc)
    && forall q, i :: q in d.svc.ports && 0 <= i < |d.svc.ports[q]| ==> d.svc.ports[q][i].hi <= MAX_PORT
  }

  lemma PortSizeBound(s: seq<Iv>)
    requires Ordered(s) && forall i :: 0 <= i < |s| ==> s[i].hi <= MAX_PORT
    ensures SizeOf(s) <= MAX_PORT + 1
  {
    SizeCounts(s);
    SubsetCard(Elements(s), Span(0, MAX_PORT));
  }

  /** Entries of one rule need fewer than 51 bits. */
  lemma EntriesBound(d: DnatRule)
    requires SetsOrdered(d)
    ensures Entries64(d) == Entries(d) <= TWO_32 * 196608
  {
    SizeCounts(d.dst.ivs);
    forall q | q in d.svc.ports ensures SizeOf(d.svc.ports[q]) <= 65536 {
      PortSizeBound(d.svc.ports[q]);
    }
    SmallMod(SizeOf(d.dst.ivs), TWO_64);
    NoWrap(Max(1, SizeOf(d.dst.ivs)), PortCount(d.svc));
  }

  lemma NoWrap(a: nat, b: nat)
    requires a <= TWO_32 && b <= 196608
    ensures b % TWO_64 == b && Product(a, b) % TWO_64 == Product(a, b) <= TWO_32 * 196608
  {
    SmallMod(b, TWO_64);
    ProductBound(a, b, TWO_32, 196608);
    SmallMod(a * b, TWO_64);
  }

  lemma ProductBound(a: nat, b: nat, m: nat, n: nat)
    requires a <= m && b <= n
    ensures 0 <= a * b <= m * n
  {
    MulMono(a, m, b);
    assert b * m <= n * m by { MulMono(b, n, m); }
  }

  /** The wrapping check finds the limit exceeded exactly when the true total
      exceeds it: no wrap can hide an excess. */
  lemma {:induction false} LimitExact(sum: nat, ds: seq<DnatRule>)
    requires sum <= MAX_DNAT_ENTRIES && forall i :: 0 <= i < |ds| ==> SetsOrdered(ds[i])
    ensures LimitHit(sum, ds) <==> sum + TotalEntries(ds) > MAX_DNAT_ENTRIES
    decreases |ds|
  {
    if ds != [] {
      EntriesBound(ds[0]);
      SmallMod(sum + Entries(ds[0]), TWO_64);
      if Sum64(sum, ds[0]) <= MAX_DNAT_ENTRIES {
        LimitExact(Sum64(sum, ds[0]), ds[1..]);
      }
    }
  }

  lemma {:induction false} LimitAppend(sum: nat, a: seq<DnatRule>, b: seq<DnatRule>)
    ensures LimitHit(sum, a + b) <==> LimitHit(sum, a) || LimitHit(RunningSum(sum, a), b)
    ensures RunningSum(sum, a + b) == RunningSum(RunningSum(sum, a), b)
    decreases |a|
  {
    if a == [] {
      assert a + b == b;
    } else {
      assert a + b == [a[0]] + (a[1..] + b);
      LimitAppend(Sum64(sum, a[0]), a[1..], b);
    }
  }

  lemma LimitSnoc(sum: nat, ds: seq<DnatRule>, d: DnatRule)
    ensures RunningSum(sum, ds + [d]) == Sum64(RunningSum(sum, ds), d)
    ensures LimitHit(sum, ds + [d]) <==> LimitHit(sum, ds) || Sum64(RunningSum(sum, ds), d) > MAX_DNAT_ENTRIES
  {
    LimitAppend(sum, ds, [d]);
    assert [d][1..] == [];
  }

  method CountProtocol(s: SvcSet, proto: string) returns (n: nat)
    requires SvcOrdered(s)
    ensures n == PortsFor(s, proto) <= TWO_32
  {
    n := 0;
    if proto in s.ports {
      n := Size(s.ports[proto]);
      SizeCounts(s.ports[proto]);
    }
  }

  /** The number of ports: the protocols with ports are summed, in whatever
      order the map gives them. */
  method CountPorts(s: SvcSet) returns (n: nat)
    requires SvcOrdered(s)
    ensures n == PortCount(s) < TWO_64
  {
    if s.any {
      return ANY_PORTS;
    }
    var tcp := CountProtocol(s, "tcp");
    var udp := CountProtocol(s, "udp");
    var sctp := CountProtocol(s, "sctp");
    n := Add64(Add64(tcp, udp), sctp);
    if n < 1 {
      n := 1;
    }
  }

  function Add64(a: nat, b: nat): (r: nat)
    ensures a + b < TWO_64 ==> r == a + b
  {
    assert a + b < TWO_64 ==> (a + b) % TWO_64 == a + b by {
      if a + b < TWO_64 { SmallMod(a + b, TWO_64); }
    }
    (a + b) % TWO_64
  }
}
