/** What two configurations may differ in without any section showing it, object
    by object. */
module Metadata {
  import opened Prelude
  import opened Model
  import opened Classify
  import I = Identifiers
  import C = Compile
  import R = Reconciler
  import A = Appliance
  import V = Validator
  import T = Transaction

  ghost predicate SameSpecs<S>(a: seq<Object<S>>, b: seq<Object<S>>) {
    |a| == |b| && forall i :: 0 <= i < |a| ==> a[i].spec == b[i].spec
  }

  /** Interfaces may differ in their IPv6 settings. */
  predicate SameInterface(a: Object<InterfaceSpec>, b: Object<InterfaceSpec>) {
    a.meta.name == b.meta.name && a.spec.(ipv6 := b.spec.ipv6) == b.spec
  }

  /** Addresses may belong to other Interfaces. */
  predicate SameAddress(a: Object<AddressSpec>, b: Object<AddressSpec>) {
    a.meta.name == b.meta.name && a.spec.form == b.spec.form
  }

  ghost predicate SameInterfaces(a: seq<Object<InterfaceSpec>>, b: seq<Object<InterfaceSpec>>) {
    |a| == |b| && forall i :: 0 <= i < |a| ==> SameInterface(a[i], b[i])
  }

  ghost predicate SameAddresses(a: seq<Object<AddressSpec>>, b: seq<Object<AddressSpec>>) {
    |a| == |b| && forall i :: 0 <= i < |a| ==> SameAddress(a[i], b[i])
  }

  /** The settings of the System that a driver is given. */
  predicate SameSystem(a: SystemSpec, b: SystemSpec) { a.(other := b.other) == b }

  /** No driver can tell the configurations apart. Colors and Users may differ in
      everything, routes, servers and the System in their names. */
  ghost predicate SameForDrivers(t: Tree, u: Tree) {
    && SameSystem(C.Sys(t), C.Sys(u))
    && SameInterfaces(t.interfaces, u.interfaces) && I.Alike(t.zones, u.zones)
    && SameSpecs(t.routes, u.routes) && SameSpecs(t.dhcp, u.dhcp)
    && SameAddresses(t.addresses, u.addresses) && I.Alike(t.addressGroups, u.addressGroups)
    && I.Alike(t.services, u.services) && I.Alike(t.serviceGroups, u.serviceGroups)
    && I.SameRuleSets(t.ruleSets, u.ruleSets)
  }

  // ---- what is erased ---------------------------------------------------------------------------

  lemma {:induction false} SpecsErased<S>(a: seq<Object<S>>, b: seq<Object<S>>)
    requires SameSpecs(a, b)
    ensures C.EraseNames(a) == C.EraseNames(b)
  {
    if a != [] {
      assert a[0].spec == b[0].spec;
      SpecsErased(a[1..], b[1..]);
    }
  }

  lemma {:induction false} MetaErased<S>(a: seq<Object<S>>, b: seq<Object<S>>)
    requires I.Alike(a, b)
    ensures C.EraseMeta(a) == C.EraseMeta(b)
  {
    if a != [] {
      assert a[0].meta.name == b[0].meta.name && a[0].spec == b[0].spec;
      MetaErased(a[1..], b[1..]);
    }
  }

  lemma {:induction false} InterfacesErased(a: seq<Object<InterfaceSpec>>, b: seq<Object<InterfaceSpec>>)
    requires SameInterfaces(a, b)
    ensures C.EraseInterfaces(a) == C.EraseInterfaces(b)
  {
    if a != [] {
      assert SameInterface(a[0], b[0]);
      InterfacesErased(a[1..], b[1..]);
    }
  }

  lemma {:induction false} AddressesErased(a: seq<Object<AddressSpec>>, b: seq<Object<AddressSpec>>)
    requires SameAddresses(a, b)
    ensures C.EraseAddresses(a) == C.EraseAddresses(b)
  {
    if a != [] {
      assert SameAddress(a[0], b[0]);
      AddressesErased(a[1..], b[1..]);
    }
  }

  lemma {:induction false} RulesErased(a: seq<Rule>, b: seq<Rule>)
    requires I.SameRules(a, b)
    ensures C.EraseRules(a) == C.EraseRules(b)
  {
    if a != [] {
      assert I.SameRule(a[0], b[0]);
      RulesErased(a[1..], b[1..]);
    }
  }

  lemma {:induction false} RuleSetsErased(a: seq<RuleSet>, b: seq<RuleSet>)
    requires I.SameRuleSets(a, b)
    ensures C.EraseRuleSets(a) == C.EraseRuleSets(b)
  {
    if a != [] {
      assert I.SameRuleSet(a[0], b[0]);
      RulesErased(a[0].spec.rules, b[0].spec.rules);
      RuleSetsErased(a[1..], b[1..]);
    }
  }

  lemma {:induction false} TreesErased(t: Tree, u: Tree)
    requires SameForDrivers(t, u)
    ensures C.Erase(t) == C.Erase(u)
  {
    InterfacesErased(t.interfaces, u.interfaces);
    MetaErased(t.zones, u.zones);
    SpecsErased(t.routes, u.routes);
    SpecsErased(t.dhcp, u.dhcp);
    AddressesErased(t.addresses, u.addresses);
    MetaErased(t.addressGroups, u.addressGroups);
    MetaErased(t.services, u.services);
    MetaErased(t.serviceGroups, u.serviceGroups);
    RuleSetsErased(t.ruleSets, u.ruleSets);
  }

  /** Configurations that no driver can tell apart have the same plan. */
  lemma {:induction false} SamePlan(r: C.Renderer, t: Tree, u: Tree)
    requires SameForDrivers(t, u)
    ensures C.PlanOf(r, t) == C.PlanOf(r, u)
  {
    TreesErased(t, u);
    C.MetadataIsNoOp(r, t, u);
  }

  /** A valid commit of such a configuration touches no driver, even if all
      would fail, and becomes the applied commit. */
  lemma {:induction false} CommitIsNoOp(r: C.Renderer, w: R.Parts<Tree, A.Section>, was: R.Running<Tree, A.Section>,
                                        c: R.CommitId, faults: nat -> set<T.Driver>, a: R.Attempt,
                                        now: R.Running<Tree, A.Section>)
    requires A.Standard(r, w) && R.Truthful(w, was) && was.commit.Some?
    requires R.Attempted(w, was, c, faults, a, now)
    requires V.Accepted(w.repo(c)) && SameForDrivers(w.repo(c), was.tree.value)
    ensures a.result == R.NoOp && a.steps == [] && now.commit == Some(c)
  {
    TreesErased(w.repo(c), was.tree.value);
    A.MetadataCommitIsNoOp(r, w, was, c, faults, a, now);
  }
}
