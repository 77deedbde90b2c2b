/** The entries of a translation rule are places: pairs of an address it
    translates and a port of a protocol it translates. */
module Counting {
  import opened Prelude
  import opened Ipv4
  import opened Intervals
  import opened Model
  import opened Matching
  import opened Clean
  import opened Limits

  // ---- sizes of sets --------------------------------------------------------------------------

  ghost function Pairs<A, B>(a: set<A>, b: set<B>): set<(A, B)> {
    set x, y | x in a && y in b :: (x, y)
  }

  lemma {:induction false} RowSize<A, B>(x: A, b: set<B>)
    ensures |Pairs({x}, b)| == |b|
  {
    if b != {} {
      var y :| y in b;
      RowSize(x, b - {y});
      assert Pairs({x}, b) == Pairs({x}, b - {y}) + {(x, y)};
    }
  }

  lemma {:induction false} PairsSize<A, B>(a: set<A>, b: set<B>)
    ensures |Pairs(a, b)| == |a| * |b|
  {
    if a != {} {
      var x :| x in a;
      PairsSize(a - {x}, b);
      RowSize(x, b);
      assert Pairs(a, b) == Pairs(a - {x}, b) + Pairs({x}, b);
      assert |a| == |a - {x}| + 1;
      OneMore(|a - {x}|, |b|);
    }
  }

  lemma {:induction false} OneMore(m: nat, n: nat)
    ensures (m + 1) * n == m * n + n
  {
  }

  // ---- places ---------------------------------------------------------------------------------

  /** The addresses of a destination; "any" and a destination without IPv4
      addresses count as one. */
  ghost function AddressSpots(s: AddrSet): set<int> {
    if s.any || s.ivs == [] then {0} else Elements(s.ivs)
  }

  ghost function PortsIn(s: SvcSet, q: string): set<(string, int)> {
    if q in s.ports then Pairs({q}, Elements(s.ports[q])) else {}
  }

  ghost function AllPorts(s: SvcSet): set<(string, int)> { PortsIn(s, "tcp") + PortsIn(s, "udp") + PortsIn(s, "sctp") }

  /** The ports of a service, of the protocols that have ports; "any" counts as
      the ports of one protocol, and a service without ports as one. */
  ghost function PortSpots(s: SvcSet): set<(string, int)> {
    if s.any then Pairs({"any"}, Span(1, 65535)) else if AllPorts(s) == {} then {("", 0)} else AllPorts(s)
  }

  ghost function Places(d: DnatRule): set<(int, (string, int))> { Pairs(AddressSpots(d.dst), PortSpots(d.svc)) }

  lemma {:induction false} PortsInSize(s: SvcSet, q: string)
    requires SvcOrdered(s)
    ensures |PortsIn(s, q)| == PortsFor(s, q)
    ensures forall x :: x in PortsIn(s, q) ==> x.0 == q
  {
    if q in s.ports {
      RowSize(q, Elements(s.ports[q]));
      SizeCounts(s.ports[q]);
    }
  }

  lemma {:induction false} DisjointSize<A>(a: set<A>, b: set<A>, c: set<A>)
    requires a !! b && a !! c && b !! c
    ensures |a + b + c| == |a| + |b| + |c|
  {
  }

  lemma {:induction false} PortSpotsSize(s: SvcSet)
    requires SvcOrdered(s)
    ensures |PortSpots(s)| == PortCount(s)
  {
    if s.any {
      RowSize("any", Span(1, 65535));
    } else {
      PortsInSize(s, "tcp");
      PortsInSize(s, "udp");
      PortsInSize(s, "sctp");
      DisjointSize(PortsIn(s, "tcp"), PortsIn(s, "udp"), PortsIn(s, "sctp"));
    }
  }

  lemma {:induction false} AddressSpotsSize(s: AddrSet)
    requires Ordered(s.ivs) && (s.any ==> s.ivs == [])
    ensures |AddressSpots(s)| == Max(1, SizeOf(s.ivs))
  {
    SizeCounts(s.ivs);
    if s.ivs != [] {
      assert Has(s.ivs, s.ivs[0].lo);
      assert s.ivs[0].lo in Elements(s.ivs);
    }
  }

  /** The entries of a rule are as many as its places. */
  lemma {:induction false} EntriesArePlaces(d: DnatRule)
    requires SetsOrdered(d) && (d.dst.any ==> d.dst.ivs == [])
    ensures Entries(d) == |Places(d)|
  {
    AddressSpotsSize(d.dst);
    PortSpotsSize(d.svc);
    PairsSize(AddressSpots(d.dst), PortSpots(d.svc));
  }

  /** The places of all rules. */
  ghost function TotalPlaces(ds: seq<DnatRule>): nat { if ds == [] then 0 else |Places(ds[0])| + TotalPlaces(ds[1..]) }

  lemma {:induction false} TotalArePlaces(ds: seq<DnatRule>)
    requires forall i :: 0 <= i < |ds| ==> SetsOrdered(ds[i]) && (ds[i].dst.any ==> ds[i].dst.ivs == [])
    ensures TotalEntries(ds) == TotalPlaces(ds)
  {
    if ds != [] {
      EntriesArePlaces(ds[0]);
      TotalArePlaces(ds[1..]);
    }
  }
}
