/** The texts the compiler writes for addresses and services, and that they can
    be told apart: the compiler's results do not rest on an unmet assumption. */
module Rendering {
  import opened Prelude
  import opened Ipv4
  import opened Model
  import opened Matching
  import opened Compile

  // ---- numbers --------------------------------------------------------------------------------

  function Digit(d: nat): char
    requires d < 10
  {
    ('0' as int + d) as char
  }

  predicate IsDigit(c: char) { '0' <= c <= '9' }

  function Decimal(n: nat): string {
    if n < 10 then [Digit(n)] else Decimal(n / 10) + [Digit(n % 10)]
  }

  function ReadDecimal(x: string): int {
    if x == "" then 0 else 10 * ReadDecimal(x[..|x| - 1]) + (x[|x| - 1] as int - '0' as int)
  }

  ghost predicate Digits(x: string) { x != "" && forall i :: 0 <= i < |x| ==> IsDigit(x[i]) }

  lemma {:induction false} DecimalRound(n: nat)
    ensures Digits(Decimal(n)) && ReadDecimal(Decimal(n)) == n
  {
    if n >= 10 {
      DecimalRound(n / 10);
      assert Decimal(n)[..|Decimal(n)| - 1] == Decimal(n / 10);
    }
  }

  /** The first separator splits a text in one way. */
  lemma Cut(c: char, a: string, x: string, b: string, y: string)
    requires c !in a && c !in b && a + [c] + x == b + [c] + y
    ensures a == b && x == y
  {
    var (m, n) := (a + [c] + x, b + [c] + y);
    assert m[|a|] == c && n[|b|] == c;
    assert forall i :: 0 <= i < |a| ==> m[i] == a[i];
    assert forall i :: 0 <= i < |b| ==> n[i] == b[i];
    assert |a| == |b|;
    assert a == m[..|a|] && b == n[..|b|];
    assert x == m[|a| + 1..] && y == n[|b| + 1..];
  }

  // ---- addresses ------------------------------------------------------------------------------

  function Octet(n: U32, k: nat): string
    requires k < 4
  {
    Decimal(OctetOf(n, k))
  }

  function OctetOf(n: U32, k: nat): nat
    requires k < 4
  {
    if k == 0 then n / 256 / 256 / 256
    else if k == 1 then n / 256 / 256 % 256
    else if k == 2 then n / 256 % 256
    else n % 256
  }

  function Dotted(n: U32): string {
    Octet(n, 0) + ['.'] + (Octet(n, 1) + ['.'] + (Octet(n, 2) + ['.'] + Octet(n, 3)))
  }

  lemma OctetRound(n: U32, k: nat)
    requires k < 4
    ensures Digits(Octet(n, k)) && '.' !in Octet(n, k)
    ensures ReadDecimal(Octet(n, k)) == OctetOf(n, k)
  {
    DecimalRound(OctetOf(n, k));
  }

  lemma DottedInjective(m: U32, n: U32)
    requires Dotted(m) == Dotted(n)
    ensures m == n
  {
    forall k | 0 <= k < 3 ensures '.' !in Octet(m, k) && '.' !in Octet(n, k) {
      OctetRound(m, k);
      OctetRound(n, k);
    }
    OctetsApart(Octet(m, 0), Octet(m, 1), Octet(m, 2), Octet(m, 3), Octet(n, 0), Octet(n, 1), Octet(n, 2), Octet(n, 3));
    SameOctets(m, n);
  }

  lemma OctetsApart(a: string, b: string, c: string, d: string, p: string, q: string, r: string, s: string)
    requires '.' !in a && '.' !in b && '.' !in c && '.' !in p && '.' !in q && '.' !in r
    requires a + ['.'] + (b + ['.'] + (c + ['.'] + d)) == p + ['.'] + (q + ['.'] + (r + ['.'] + s))
    ensures a == p && b == q && c == r && d == s
  {
    Cut('.', a, b + ['.'] + (c + ['.'] + d), p, q + ['.'] + (r + ['.'] + s));
    Cut('.', b, c + ['.'] + d, q, r + ['.'] + s);
    Cut('.', c, d, r, s);
  }

  lemma SameOctets(m: U32, n: U32)
    requires Octet(m, 0) == Octet(n, 0) && Octet(m, 1) == Octet(n, 1)
    requires Octet(m, 2) == Octet(n, 2) && Octet(m, 3) == Octet(n, 3)
    ensures m == n
  {
    forall k | 0 <= k < 4 ensures OctetOf(m, k) == OctetOf(n, k) {
      OctetRound(m, k);
      OctetRound(n, k);
    }
    assert OctetOf(m, 0) == OctetOf(n, 0) && OctetOf(m, 1) == OctetOf(n, 1);
    assert OctetOf(m, 2) == OctetOf(n, 2) && OctetOf(m, 3) == OctetOf(n, 3);
    SameDigits(m / 256 / 256, n / 256 / 256);
    SameDigits(m / 256, n / 256);
    SameDigits(m, n);
  }

  lemma SameDigits(m: nat, n: nat)
    requires m / 256 == n / 256 && m % 256 == n % 256
    ensures m == n
  {
  }

  /** The four numbers of a text in dots make up the address, the first one
      counting most. */
  lemma DottedReads(n: U32) returns (a: string, b: string, c: string, d: string)
    ensures Dotted(n) == a + "." + b + "." + c + "." + d
    ensures Digits(a) && Digits(b) && Digits(c) && Digits(d)
    ensures n == ((ReadDecimal(a) * 256 + ReadDecimal(b)) * 256 + ReadDecimal(c)) * 256 + ReadDecimal(d)
    ensures 0 <= ReadDecimal(b) < 256 && 0 <= ReadDecimal(c) < 256 && 0 <= ReadDecimal(d) < 256
  {
    a, b, c, d := Octet(n, 0), Octet(n, 1), Octet(n, 2), Octet(n, 3);
    OctetRound(n, 0);
    OctetRound(n, 1);
    OctetRound(n, 2);
    OctetRound(n, 3);
    assert a + ['.'] + (b + ['.'] + (c + ['.'] + d)) == a + "." + b + "." + c + "." + d;
  }

  /** An address in dots has digits and dots only, and ends in a digit. */
  lemma DottedChars(n: U32)
    ensures ':' !in Dotted(n) && '-' !in Dotted(n) && '/' !in Dotted(n)
    ensures Dotted(n) != "" && IsDigit(Dotted(n)[|Dotted(n)| - 1])
  {
    forall k | 0 <= k < 4 ensures Digits(Octet(n, k)) {
      OctetRound(n, k);
    }
    var x := Dotted(n);
    forall i | 0 <= i < |x| ensures IsDigit(x[i]) || x[i] == '.' {
    }
    assert x[|x| - 1] == Octet(n, 3)[|Octet(n, 3)| - 1];
  }

  function IpText(ip: Ip): string { if ip.V4? then Dotted(ip.n) else ip.text }

  function AddressText(form: AddressForm): string {
    match form
    case Subnet(p) => Dotted(p.addr) + ['/'] + Decimal(p.bits)
    case Subnet6(_, x, bits) => x + ['/'] + Decimal(bits)
    case Range(s, e) => IpText(s) + ['-'] + IpText(e)
    case Fqdn(h) => h
    case Mac(h) => h
  }

  lemma IpTextChars(ip: Ip)
    ensures '-' !in IpText(ip) && '/' !in IpText(ip) && (':' in IpText(ip) <==> ip.V6?)
    ensures ip.V4? ==> IpText(ip) != "" && IsDigit(IpText(ip)[|IpText(ip)| - 1])
  {
    if ip.V4? { DottedChars(ip.n); }
  }

  lemma SubnetTextsTell(p: Prefix, q: Prefix)
    requires AddressText(Subnet(p)) == AddressText(Subnet(q))
    ensures p == q
  {
    DottedChars(p.addr);
    DottedChars(q.addr);
    Cut('/', Dotted(p.addr), Decimal(p.bits), Dotted(q.addr), Decimal(q.bits));
    DottedInjective(p.addr, q.addr);
    DecimalRound(p.bits);
    DecimalRound(q.bits);
  }

  /** Texts of ranges say where they start and end; of an IPv6 end, only that
      it is one matters here. */
  lemma RangeTextsTell(a: AddressForm, b: AddressForm)
    requires a.Range? && b.Range? && AddressText(a) == AddressText(b)
    ensures SameAddresses(a, b)
  {
    IpTextChars(a.start);
    IpTextChars(a.end);
    IpTextChars(b.start);
    IpTextChars(b.end);
    Cut('-', IpText(a.start), IpText(a.end), IpText(b.start), IpText(b.end));
    if a.start.V4? { DottedInjective(a.start.n, b.start.n); }
    if a.end.V4? { DottedInjective(a.end.n, b.end.n); }
  }

  /** What tells the forms that contain IPv4 addresses from all others. */
  predicate LooksLikeSubnet(x: string) { '/' in x && ':' !in x }

  predicate LooksLikeRange(x: string) {
    x != "" && '/' !in x && '-' in x && (':' in x || IsDigit(x[|x| - 1]))
  }

  lemma FormLooks(form: AddressForm)
    ensures LooksLikeSubnet(AddressText(form)) <==> form.Subnet?
    ensures LooksLikeRange(AddressText(form)) <==> form.Range?
    ensures AddressText(form) != ANY
  {
    match form
    case Subnet(p) => SubnetLooks(p);
    case Subnet6(_, x, bits) =>
      Parted(x, '/', Decimal(bits));
      assert forall c :: c in x ==> c in AddressText(form);
    case Range(s, e) => RangeLooks(s, e);
    case Fqdn(h) =>
    case Mac(h) =>
  }

  /** A text in three parts. */
  lemma Parted(x: string, c: char, y: string)
    ensures c in x + [c] + y
    ensures forall d :: d in x + [c] + y <==> d in x || d == c || d in y
  {
    assert (x + [c] + y)[|x|] == c;
  }

  lemma SubnetLooks(p: Prefix)
    ensures LooksLikeSubnet(AddressText(Subnet(p))) && !LooksLikeRange(AddressText(Subnet(p)))
    ensures AddressText(Subnet(p)) != ANY
  {
    DottedChars(p.addr);
    DecimalRound(p.bits);
    Parted(Dotted(p.addr), '/', Decimal(p.bits));
  }

  lemma RangeLooks(s: Ip, e: Ip)
    ensures LooksLikeRange(AddressText(Range(s, e))) && !LooksLikeSubnet(AddressText(Range(s, e)))
    ensures AddressText(Range(s, e)) != ANY
  {
    IpTextChars(s);
    IpTextChars(e);
    Parted(IpText(s), '-', IpText(e));
    var x := IpText(s) + ['-'] + IpText(e);
    if e.V4? {
      assert x[|x| - 1] == IpText(e)[|IpText(e)| - 1];
    }
  }

  lemma AddressTextsTell(a: AddressForm, b: AddressForm)
    requires AddressText(a) == AddressText(b)
    ensures SameAddresses(a, b)
  {
    FormLooks(a);
    FormLooks(b);
    if a.Subnet? {
      SubnetTextsTell(a.prefix, b.prefix);
    } else if a.Range? {
      RangeTextsTell(a, b);
    }
  }

  // ---- services -------------------------------------------------------------------------------

  /** A number that may be missing. */
  function Field(n: Option<nat>): string { if n.Some? then Decimal(n.value) else "" }

  function Low(p: Option<PortRange>): Option<nat> { if p.Some? then Some(p.value.lo) else None }

  function High(p: Option<PortRange>): Option<nat> { if p.Some? then Some(p.value.hi) else None }

  function Fields(e: ProtocolEntry): seq<string> {
    [e.protocol, Field(Low(e.port)), Field(High(e.port)), Field(Low(e.sourcePort)), Field(High(e.sourcePort)),
     Field(e.icmpType), Field(e.icmpCode), Field(e.number)]
  }

  function Joined(fields: seq<string>): string {
    if fields == [] then "" else fields[0] + [';'] + Joined(fields[1..])
  }

  function ServiceText(l: seq<ProtocolEntry>): string {
    if l == [] then "" else Joined(Fields(l[0])) + ServiceText(l[1..])
  }

  ghost predicate Plain(fields: seq<string>) { forall i :: 0 <= i < |fields| ==> ';' !in fields[i] }

  lemma FieldPlain(n: Option<nat>)
    ensures ';' !in Field(n)
  {
    if n.Some? { DecimalRound(n.value); }
  }

  lemma FieldTells(m: Option<nat>, n: Option<nat>)
    requires Field(m) == Field(n)
    ensures m == n
  {
    if m.Some? { DecimalRound(m.value); }
    if n.Some? { DecimalRound(n.value); }
  }

  lemma FieldsPlain(e: ProtocolEntry)
    ensures Plain(Fields(e))
  {
    FieldPlain(Low(e.port));
    FieldPlain(High(e.port));
    FieldPlain(Low(e.sourcePort));
    FieldPlain(High(e.sourcePort));
    FieldPlain(e.icmpType);
    FieldPlain(e.icmpCode);
    FieldPlain(e.number);
    assert forall p :: p in PROTOCOLS ==> ';' !in p;
  }

  /** The fields before two rests of the same text. */
  lemma {:induction false} JoinedTells(a: seq<string>, x: string, b: seq<string>, y: string)
    requires |a| == |b| && Plain(a) && Plain(b) && Joined(a) + x == Joined(b) + y
    ensures a == b && x == y
  {
    if a == [] {
      assert Joined(a) + x == x && Joined(b) + y == y;
    } else {
      var (p, q) := (Joined(a[1..]) + x, Joined(b[1..]) + y);
      assert Joined(a) + x == a[0] + [';'] + p;
      assert Joined(b) + y == b[0] + [';'] + q;
      Cut(';', a[0], p, b[0], q);
      JoinedTells(a[1..], x, b[1..], y);
      assert a == [a[0]] + a[1..] && b == [b[0]] + b[1..];
    }
  }

  lemma EntryTells(a: ProtocolEntry, b: ProtocolEntry)
    requires Fields(a) == Fields(b)
    ensures a == b
  {
    var (x, y) := (Fields(a), Fields(b));
    assert x[0] == y[0] && x[1] == y[1] && x[2] == y[2] && x[3] == y[3] && x[4] == y[4];
    assert x[5] == y[5] && x[6] == y[6] && x[7] == y[7];
    FieldTells(Low(a.port), Low(b.port));
    FieldTells(High(a.port), High(b.port));
    FieldTells(Low(a.sourcePort), Low(b.sourcePort));
    FieldTells(High(a.sourcePort), High(b.sourcePort));
    FieldTells(a.icmpType, b.icmpType);
    FieldTells(a.icmpCode, b.icmpCode);
    FieldTells(a.number, b.number);
  }

  lemma {:induction false} ServiceTextsTell(a: seq<ProtocolEntry>, b: seq<ProtocolEntry>)
    requires ServiceText(a) == ServiceText(b)
    ensures a == b
  {
    if a != [] && b != [] {
      FieldsPlain(a[0]);
      FieldsPlain(b[0]);
      JoinedTells(Fields(a[0]), ServiceText(a[1..]), Fields(b[0]), ServiceText(b[1..]));
      EntryTells(a[0], b[0]);
      ServiceTextsTell(a[1..], b[1..]);
      assert a == [a[0]] + a[1..] && b == [b[0]] + b[1..];
    }
  }

  lemma {:induction false} ServiceTextEnds(l: seq<ProtocolEntry>)
    ensures l != [] ==> ';' in ServiceText(l)
  {
    if l != [] {
      var f := Fields(l[0]);
      assert Joined(f) == f[0] + [';'] + Joined(f[1..]);
      Parted(f[0], ';', Joined(f[1..]));
      assert forall c :: c in Joined(f) ==> c in ServiceText(l);
    }
  }

  // ---- the renderer ---------------------------------------------------------------------------

  /** What the renderer writes can be told apart as the compiler needs. */
  lemma TextsAreFaithful()
    ensures Faithful(Renderer(AddressText, ServiceText))
  {
    var r := Renderer(AddressText, ServiceText);
    forall a, b | r.address(a) == r.address(b) ensures SameAddresses(a, b) {
      AddressTextsTell(a, b);
    }
    forall a ensures r.address(a) != ANY {
      FormLooks(a);
    }
    forall a, b | r.service(a) == r.service(b) ensures SameServices(a, b) {
      ServiceTextsTell(a, b);
    }
    forall l ensures r.service(l) != ANY {
      ServiceTextEnds(l);
    }
  }
}
