/** The validator accepts a configuration exactly when it is lawful. */
module Acceptance {
  import opened Prelude
  import opened Model
  import opened Cycles
  import opened Matching
  import opened Routing
  import opened Clean
  import opened Guarantees
  import opened Limits
  import opened NameRules
  import opened ObjectRules
  import opened TrafficRules
  import D = DhcpRules
  import L = Lawful
  import V = Validator

  lemma {:induction false} ObjectsLawful(t: Tree)
    ensures V.ObjectsHold(t) <==> L.LawfulObjects(t)
  {
    NamesLawful(t);
    SubnetsLawful(t.interfaces);
    HostsLawful(t.interfaces);
    ZonesLawful(t);
    FormsLawful(t);
    PortsLawful(t);
    if UniqueNames(t) {
      UniqueObjects(t);
      GroupsLawful(t.addressGroups);
      GroupsLawful(t.serviceGroups);
    }
  }

  lemma {:induction false} TrafficLawful(t: Tree)
    requires V.ObjectsHold(t) && NamesNotEmpty(t)
    ensures V.TrafficHolds(t) <==>
      L.LawfulRuleSets(t) && L.LawfulTranslations(t, t.ruleSets) && L.TotalWeight(t, t.ruleSets) <= 16384
      && L.LawfulRoutes(t.routes) && L.LawfulServers(t)
  {
    RuleSetsLawful(t);
    TranslationsLawful(t, t.ruleSets);
    LimitLawful(t);
    RoutesLawful(t.routes);
    ServersLawful(t);
  }

  /** A configuration with proper names is accepted if and only if it is lawful. */
  lemma {:induction false} AcceptedIffLawful(t: Tree)
    requires NamesNotEmpty(t)
    ensures V.Accepted(t) <==> L.Lawful(t)
  {
    ObjectsLawful(t);
    if V.ObjectsHold(t) { TrafficLawful(t); }
  }
}
