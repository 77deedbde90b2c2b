/** The check of names: the keys of all objects in one list are distinct exactly
    when names are apart inside each namespace. */
module NameRules {
  import opened Prelude
  import opened Model
  import opened Clean
  import L = Lawful

  ghost predicate NoneShared(a: seq<Doc>, b: seq<Doc>) { forall x, y :: x in a && y in b ==> !SameKey(x, y) }

  ghost predicate Within(l: seq<Doc>, s: set<Namespace>) { forall d :: d in l ==> NamespaceOf(d.kind) in s }

  lemma {:induction false} ConcatDistinct(a: seq<Doc>, b: seq<Doc>)
    ensures KeysDistinct(a + b) <==> KeysDistinct(a) && KeysDistinct(b) && NoneShared(a, b)
  {
    if KeysDistinct(a + b) { KeysDistinctParts(a, b); }
    if KeysDistinct(a) && KeysDistinct(b) && NoneShared(a, b) { JoinDistinct(a, b); }
  }

  /** The documents of a list. */
  ghost predicate Lists<S>(k: Kind, l: seq<Object<S>>, d: seq<Doc>) {
    |d| == |l| && forall i :: 0 <= i < |l| ==> d[i] == Doc(k, l[i].meta.name)
  }

  lemma {:induction false} DocsListed<S>(k: Kind, l: seq<Object<S>>) returns (d: seq<Doc>)
    ensures d == DocsOf(k, l) && Lists(k, l, d)
  {
    d := DocsOf(k, l);
  }

  /** What a list contributes: its names are apart or not, and it is all in one
      namespace. */
  lemma {:induction false} DocsRead<S>(k: Kind, l: seq<Object<S>>, d: seq<Doc>)
    requires Lists(k, l, d)
    ensures KeysDistinct(d) <==> L.NamesApart(l)
    ensures Within(d, {NamespaceOf(k)})
  {
    forall i, j | 0 <= i < j < |l| ensures SameKey(d[i], d[j]) <==> l[i].meta.name == l[j].meta.name {
    }
  }

  lemma {:induction false} DocsAcross<A, B>(k: Kind, a: seq<Object<A>>, d: seq<Doc>, j: Kind, b: seq<Object<B>>,
                                            e: seq<Doc>)
    requires NamespaceOf(k) == NamespaceOf(j) && Lists(k, a, d) && Lists(j, b, e)
    ensures NoneShared(d, e) <==> L.ListsApart(a, b)
  {
    if NoneShared(d, e) {
      forall m, n | 0 <= m < |a| && 0 <= n < |b| ensures a[m].meta.name != b[n].meta.name {
        assert d[m] in d && e[n] in e;
        assert !SameKey(d[m], e[n]);
      }
    }
    if L.ListsApart(a, b) {
      forall m, n | 0 <= m < |d| && 0 <= n < |e| ensures !SameKey(d[m], e[n]) {
        assert a[m] in a && b[n] in b;
      }
    }
  }

  /** Documents of a namespace that no later one is in. */
  lemma {:induction false} Head(d: seq<Doc>, ns: Namespace, rest: seq<Doc>, s: set<Namespace>)
    requires Within(d, {ns}) && Within(rest, s) && ns !in s
    ensures KeysDistinct(d + rest) <==> KeysDistinct(d) && KeysDistinct(rest)
    ensures Within(d + rest, s + {ns})
  {
    ConcatDistinct(d, rest);
  }

  /** Documents that share their namespace with the next ones. */
  lemma {:induction false} Partner(a: seq<Doc>, b: seq<Doc>, ns: Namespace, rest: seq<Doc>, s: set<Namespace>)
    requires Within(a, {ns}) && Within(b, {ns}) && Within(rest, s) && ns !in s
    ensures KeysDistinct(a + (b + rest)) <==>
      KeysDistinct(a) && KeysDistinct(b) && NoneShared(a, b) && KeysDistinct(rest)
    ensures Within(a + (b + rest), s + {ns})
  {
    Head(b, ns, rest, s);
    ConcatDistinct(a, b + rest);
    SharedConcat(a, b, rest);
  }

  lemma {:induction false} SharedConcat(a: seq<Doc>, b: seq<Doc>, c: seq<Doc>)
    ensures NoneShared(a, b + c) <==> NoneShared(a, b) && NoneShared(a, c)
  {
  }

  lemma {:induction false} LastParts(a: seq<Doc>, b: seq<Doc>, c: seq<Doc>, d: seq<Doc>)
    requires Within(a, {ServiceNS}) && Within(b, {ServiceNS}) && Within(c, {RuleSetNS}) && Within(d, {UserNS})
    ensures Within(a + (b + (c + d)), {UserNS} + {RuleSetNS} + {ServiceNS})
    ensures KeysDistinct(a + (b + (c + d))) <==>
      KeysDistinct(a) && KeysDistinct(b) && NoneShared(a, b) && KeysDistinct(c) && KeysDistinct(d)
  {
    Head(c, RuleSetNS, d, {UserNS});
    Partner(a, b, ServiceNS, c + d, {UserNS} + {RuleSetNS});
  }

  lemma {:induction false} LastRead<A, B, C, E>(a: seq<Object<A>>, da: seq<Doc>, b: seq<Object<B>>, db: seq<Doc>,
                             c: seq<Object<C>>, dc: seq<Doc>, e: seq<Object<E>>, de: seq<Doc>)
    requires Lists(ServiceKind, a, da) && Lists(ServiceGroupKind, b, db)
    requires Lists(RuleSetKind, c, dc) && Lists(UserKind, e, de)
    ensures Within(da + (db + (dc + de)), {UserNS} + {RuleSetNS} + {ServiceNS})
    ensures KeysDistinct(da + (db + (dc + de))) <==>
      L.NamesApart(a) && L.NamesApart(b) && L.ListsApart(a, b) && L.NamesApart(c) && L.NamesApart(e)
  {
    DocsWithin(ServiceKind, a, da);
    DocsWithin(ServiceGroupKind, b, db);
    DocsWithin(RuleSetKind, c, dc);
    DocsWithin(UserKind, e, de);
    LastParts(da, db, dc, de);
    PairRead(ServiceKind, a, da, ServiceGroupKind, b, db);
    assert (KeysDistinct(dc) <==> L.NamesApart(c)) && (KeysDistinct(de) <==> L.NamesApart(e)) by {
      DocsRead(RuleSetKind, c, dc);
      DocsRead(UserKind, e, de);
    }
  }

  lemma {:induction false} DocsWithin<S>(k: Kind, l: seq<Object<S>>, d: seq<Doc>)
    requires Lists(k, l, d)
    ensures Within(d, {NamespaceOf(k)})
  {
  }

  lemma {:induction false} PairRead<A, B>(k: Kind, a: seq<Object<A>>, da: seq<Doc>, j: Kind, b: seq<Object<B>>,
                                          db: seq<Doc>)
    requires NamespaceOf(k) == NamespaceOf(j) && Lists(k, a, da) && Lists(j, b, db)
    ensures KeysDistinct(da) && KeysDistinct(db) && NoneShared(da, db) <==>
      L.NamesApart(a) && L.NamesApart(b) && L.ListsApart(a, b)
  {
    DocsRead(k, a, da);
    DocsRead(j, b, db);
    DocsAcross(k, a, da, j, b, db);
  }

  ghost predicate NoEarly(l: seq<Doc>) {
    forall d :: d in l ==> NamespaceOf(d.kind) !in {SystemNS, ColorNS, NetworkNS, RouteNS}
  }

  lemma {:induction false} ObjectsRead<A, B, C>(c: seq<Object<C>>, dc: seq<Doc>, a: seq<Object<A>>, da: seq<Doc>,
                             b: seq<Object<B>>, db: seq<Doc>, rest: seq<Doc>)
    requires Lists(DhcpKind, c, dc) && Lists(AddressKind, a, da) && Lists(AddressGroupKind, b, db)
    requires Within(rest, {UserNS} + {RuleSetNS} + {ServiceNS})
    ensures NoEarly(dc + (da + (db + rest)))
    ensures KeysDistinct(dc + (da + (db + rest))) <==>
      L.NamesApart(c) && L.NamesApart(a) && L.NamesApart(b) && L.ListsApart(a, b) && KeysDistinct(rest)
  {
    ObjectsSplit(dc, da, db, rest);
    PairRead(AddressKind, a, da, AddressGroupKind, b, db);
    assert KeysDistinct(dc) <==> L.NamesApart(c) by { DocsRead(DhcpKind, c, dc); }
  }

  lemma {:induction false} ObjectsSplit(dc: seq<Doc>, da: seq<Doc>, db: seq<Doc>, rest: seq<Doc>)
    requires Within(dc, {DhcpNS}) && Within(da, {AddressNS}) && Within(db, {AddressNS})
    requires Within(rest, {UserNS} + {RuleSetNS} + {ServiceNS})
    ensures NoEarly(dc + (da + (db + rest)))
    ensures KeysDistinct(dc + (da + (db + rest))) <==>
      KeysDistinct(dc) && KeysDistinct(da) && KeysDistinct(db) && NoneShared(da, db) && KeysDistinct(rest)
  {
    var s := {UserNS} + {RuleSetNS} + {ServiceNS};
    Partner(da, db, AddressNS, rest, s);
    Head(dc, DhcpNS, da + (db + rest), s + {AddressNS});
  }

  ghost predicate NoFirst(l: seq<Doc>) { forall d :: d in l ==> NamespaceOf(d.kind) !in {SystemNS, ColorNS} }

  lemma {:induction false} NetworkRead<A, B, C>(a: seq<Object<A>>, da: seq<Doc>, b: seq<Object<B>>, db: seq<Doc>,
                             c: seq<Object<C>>, dc: seq<Doc>, rest: seq<Doc>)
    requires Lists(InterfaceKind, a, da) && Lists(ZoneKind, b, db) && Lists(RouteKind, c, dc) && NoEarly(rest)
    ensures NoFirst(da + (db + (dc + rest)))
    ensures KeysDistinct(da + (db + (dc + rest))) <==>
      L.NamesApart(a) && L.NamesApart(b) && L.ListsApart(a, b) && L.NamesApart(c) && KeysDistinct(rest)
  {
    NetworkSplit(da, db, dc, rest);
    PairRead(InterfaceKind, a, da, ZoneKind, b, db);
    assert KeysDistinct(dc) <==> L.NamesApart(c) by { DocsRead(RouteKind, c, dc); }
  }

  lemma {:induction false} NetworkSplit(da: seq<Doc>, db: seq<Doc>, dc: seq<Doc>, rest: seq<Doc>)
    requires Within(da, {NetworkNS}) && Within(db, {NetworkNS}) && Within(dc, {RouteNS}) && NoEarly(rest)
    ensures NoFirst(da + (db + (dc + rest)))
    ensures KeysDistinct(da + (db + (dc + rest))) <==>
      KeysDistinct(da) && KeysDistinct(db) && NoneShared(da, db) && KeysDistinct(dc) && KeysDistinct(rest)
  {
    var s := set d | d in rest :: NamespaceOf(d.kind);
    Head(dc, RouteNS, rest, s);
    Partner(da, db, NetworkNS, dc + rest, s + {RouteNS});
  }

  lemma {:induction false} TopRead<A, B>(a: seq<Object<A>>, da: seq<Doc>, b: seq<Object<B>>, db: seq<Doc>, rest: seq<Doc>)
    requires Lists(SystemKind, a, da) && Lists(ColorKind, b, db) && NoFirst(rest)
    ensures KeysDistinct(da + (db + rest)) <==> L.NamesApart(a) && L.NamesApart(b) && KeysDistinct(rest)
  {
    DocsRead(SystemKind, a, da);
    DocsRead(ColorKind, b, db);
    var s := set d | d in rest :: NamespaceOf(d.kind);
    Head(db, ColorNS, rest, s);
    Head(da, SystemNS, db + rest, s + {ColorNS});
  }

  /** DM-01. */
  lemma {:induction false} NamesLawful(t: Tree)
    ensures UniqueNames(t) <==> L.LawfulNames(t)
  {
    var services := DocsListed(ServiceKind, t.services);
    var serviceGroups := DocsListed(ServiceGroupKind, t.serviceGroups);
    var ruleSets := DocsListed(RuleSetKind, t.ruleSets);
    var users := DocsListed(UserKind, t.users);
    var last := services + (serviceGroups + (ruleSets + users));
    LastRead(t.services, services, t.serviceGroups, serviceGroups, t.ruleSets, ruleSets, t.users, users);
    ObjectsLawful(t, last);
    NetworkLawful(t);
    var system := DocsListed(SystemKind, t.system);
    var colors := DocsListed(ColorKind, t.colors);
    TopRead(t.system, system, t.colors, colors, NetworkDocs(t));
  }

  lemma {:induction false} ObjectsLawful(t: Tree, last: seq<Doc>)
    requires last == DocsOf(ServiceKind, t.services) + (DocsOf(ServiceGroupKind, t.serviceGroups) +
      (DocsOf(RuleSetKind, t.ruleSets) + DocsOf(UserKind, t.users)))
    requires Within(last, {UserNS} + {RuleSetNS} + {ServiceNS})
    ensures NoEarly(ObjectDocs(t))
    ensures KeysDistinct(ObjectDocs(t)) <==>
      L.NamesApart(t.dhcp) && L.NamesApart(t.addresses) && L.NamesApart(t.addressGroups)
      && L.ListsApart(t.addresses, t.addressGroups) && KeysDistinct(last)
  {
    var dhcp := DocsListed(DhcpKind, t.dhcp);
    var addresses := DocsListed(AddressKind, t.addresses);
    var groups := DocsListed(AddressGroupKind, t.addressGroups);
    ObjectsRead(t.dhcp, dhcp, t.addresses, addresses, t.addressGroups, groups, last);
  }

  lemma {:induction false} NetworkLawful(t: Tree)
    requires NoEarly(ObjectDocs(t))
    ensures NoFirst(NetworkDocs(t))
    ensures KeysDistinct(NetworkDocs(t)) <==>
      L.NamesApart(t.interfaces) && L.NamesApart(t.zones) && L.ListsApart(t.interfaces, t.zones)
      && L.NamesApart(t.routes) && KeysDistinct(ObjectDocs(t))
  {
    var interfaces := DocsListed(InterfaceKind, t.interfaces);
    var zones := DocsListed(ZoneKind, t.zones);
    var routes := DocsListed(RouteKind, t.routes);
    NetworkRead(t.interfaces, interfaces, t.zones, zones, t.routes, routes, ObjectDocs(t));
  }
}
