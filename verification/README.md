# songbird: a verified model of the web UI prototype

The prototype `PoC-webui-v2` is a firewall appliance. Its configuration is a Git
history of objects: Interfaces, Zones, Addresses, Services, RuleSets, routes,
DHCP servers. A validator decides which configurations are allowed. A reconciler
reads HEAD, validates, compiles and applies it in one transaction across four
drivers. A reference classifier says what happens to a flow. This project models
these parts and proves how they fit together.

| file | component |
|---|---|
| `Prelude.dfy` | options, results, facts about sequences and sets |
| `Ipv4.dfy`, `Intervals.dfy` | 32-bit prefixes (section 3.1 of RFC 4632) and interval sets |
| `Model.dfy`, `Expand.dfy`, `Cycles.dfy` | the configuration tree, resolution of groups, the search for group cycles |
| `Matching.dfy`, `Routing.dfy`, `Classify.dfy` | what references match, longest-match routing (section 5.2.4.3 of RFC 1812), the classifier |
| `Clean.dfy`, `Dhcp.dfy`, `Limits.dfy` | the rules for configurations and the limit arithmetic |
| `Findings.dfy`, `Validator.dfy`, `Identifiers.dfy` | findings, the checks as programmed, and that identifiers do not count |
| `Guarantees.dfy` | what a clean configuration guarantees about the classifier |
| `Texts.dfy`, `Compile.dfy`, `Rendering.dfy` | the compiler, and texts that can be told apart |
| `EqualPlans.dfy`, `EqualVerdicts.dfy`, `Targets.dfy`, `Samples.dfy` | what equal sections say about verdicts and targets, and accepted configurations that show what they do not |
| `Facts.dfy`, `Readings.dfy` | what a configuration says, read off the fields of its objects, and that the program reads the same |
| `Verdicts.dfy`, `Sections.dfy` | the verdict and the plan a configuration should get, in those terms, and that it gets them |
| `Lawful.dfy`, `NameRules.dfy`, `ObjectRules.dfy`, `TrafficRules.dfy`, `Acceptance.dfy` | the rules for configurations in those terms, and that the validator accepts exactly what they allow |
| `Counting.dfy`, `Tallies.dfy` | that entry counts and the counters of the compiler are numbers of places |
| `Transaction.dfy`, `Reconciler.dfy` | the driver transaction and the reconciler |
| `Protocol.dfy`, `Starts.dfy`, `Histories.dfy`, `Settling.dfy` | commits, notifications, triggers, attempts and waiting callers as a state machine |
| `Joined.dfy`, `Appliance.dfy`, `Metadata.dfy` | the protocol with the reconciler, and these with the validator and the compiler; commits no driver can tell from what runs |
| `Store.dfy`, `Updates.dfy`, `Commits.dfy` | the repository, what may be committed, imports and identifiers, what operations should leave, and the configurations of its commits |
| `Collector.dfy`, `Audit.dfy` | the Event Collector and the Audit Log |

## Main results

- The classifier, the validator, the compiler and the repository are proved against
  descriptions of their own. `Facts`, `Verdicts`, `Lawful` and `Sections` speak of what the
  objects of a configuration say, not of how it is computed: the classifier gives a verdict if and only if it is the
  right one (`Verdicts.DecideIsRight`, `Verdicts.DecideIffRight`), the validator accepts a
  configuration if and only if it is lawful (`Acceptance.AcceptedIffLawful`), the plan holds
  what belongs there (`Sections.PlanIsRight`), and each operation of the repository leaves
  what was asked for or refuses it for the reason that applies (`Updates.OutcomeIsRight`).
- A configuration the validator accepts is unambiguous: the whole verdict of every
  IPv4 flow is independent of the order of every list (`Guarantees.OrderIndependent`
  with `Validator.Checker.Validate` and `Validator.AcceptedIsClean`).
- From an accepted factory default, every commit of every run of mutations, imports and
  reverts is accepted and clean (`Commits.EveryCommitIsClean`).
- Compilation preserves first match, and what it must not see it does not see
  (`Compile.CompilationKeepsMeaning`, `Compile.MetadataIsNoOp`). Exactly when equal
  sections mean equal verdicts is `EqualVerdicts.EqualPlansDecide`.
- The commit protocol loses no update over any interleaving and always settles
  (`Protocol.NoLostUpdate`, `Settling.Settles`). Exactly when a caller can return with an
  attempt is `Settling.WaitReturnsIff`.
- Over every run of protocol and reconciler together, at rest: HEAD is what runs and the
  status is in-sync if HEAD is valid and met no fault at its last attempt, and the section
  the data plane was given then decides flows as the classifier does on HEAD
  (`Joined.RestIsInSync`, `Appliance.RestDecides`).
- The transaction restores every driver when it fails, and the status of the
  reconciler always tells the truth (`Transaction.FailureRestores`,
  `Reconciler.Reconciler.Reconcile`).
- A start whose HEAD cannot be applied attempts the last known good commit, and runs it if it
  is valid and meets no fault (`Reconciler.Reconciler.Boot`, `Reconciler.FallBackRuns`); over
  every run of the protocol the start does not come to rest with nothing applied before it
  has tried that commit (`Starts.StartTries`).
- Equal sections mean equal targets: a translation cannot be redirected without touching the
  data plane (`Targets.TargetsNameAlike`, `Targets.HostsAlike`).
- No update is lost to a stale base. A drop event is kept if and only if it brings no window
  above the rate (`Collector.KeptIff`). Two verifying logs with one end hash are one log.

## Where the code and its documentation disagree

The model follows the code.

- `Wait` is documented to return when a newer commit supersedes the one waited for
  (PoC-webui-v2/internal/reconciler/reconciler.go:211-212). It returns only for its own
  commit: `Settling.SupersededSleeps` is a run that shows it, `Settling.SupersededAtStart`
  one during the start. `Settling.WaitReturnsIff` gives the condition, over all runs from
  every reachable state: a caller that waits for a commit up to HEAD can return with an
  attempt if and only if the commit has one or is in the loop's hands, it is HEAD, or it is
  the last known good commit and the start may still fall back to it.
- `ActiveRoutes` applies the preference per destination text, the classifier and the
  validator per masked prefix. `Routing.ActivePerNetwork` says exactly when the two
  agree, and `Samples.SpellingsAccepted` has accepted configurations where they do not.
  All samples hold with any System, palette and Users that name no other object
  (`Samples.Sensible`).
- The compiler is documented to let the Reconciler skip drivers a commit does not affect
  (PoC-webui-v2/internal/reconciler/compile.go:14-20), but a commit can change a verdict
  without touching a driver. Membership in a Zone is in no section
  (`Samples.MembersUnseen`), and a pool for source addresses stays a name in its section
  (`Samples.PoolUnseen`). `EqualVerdicts.EqualPlansDecide` says exactly when clean
  configurations with equal sections give a flow one verdict. If no translation of the
  destination takes it: they agree on traffic inside the Zone where no RuleSet governs the
  way, and on the address of the pool where the entry that decides names one. If one takes
  it in both: the targets lead out by one Interface; where that way is governed by another
  RuleSet or none, they have the same address and port; where the translation is accepted,
  they are also written alike. If one takes it in one configuration only: another entry,
  which does not translate, drops the flow, and the target leads where the flow goes anyway.
- Verification of the Audit Log is documented to notice any modified, removed or reordered
  entry. What is made of the entries of a log alone, by removing, repeating and reordering,
  is noticed exactly unless it is a beginning of the log (`Audit.SelectionNoticed`). Edits
  are noticed unless every hash from the first edit on is new (`Audit.EditsSpread`).
- A failed write of the Audit Log is not reported. The log verifies after any use of it if
  and only if no write succeeds after one that failed before the log is opened again
  (`Audit.VerifiesIff`).
- A range that starts in IPv4 and ends in IPv6 has no interval for the validator but
  matches in the classifier (`Matching.IntervalAgreement`); the family check excludes it
  from accepted configurations.

## Assumptions

- Configurations are valid against the schema: the forms of an Address exclude each
  other, texts have the schema's shapes (`Model.Host` and its neighbours), names are not
  empty (`Clean.NamesNotEmpty`), Zones have a member (`EqualVerdicts.ZonesNotEmpty`),
  prefixes and addresses parse.
- Equal texts of addresses and of services mean the same, and none is "any"
  (`Compile.Faithful`). `Rendering.TextsAreFaithful` proves it of addresses as the compiler
  writes them and of services as lists of fields; the source writes those as JSON. Section
  hashes stand for the hashed values, and the digest of the Audit Log is injective and never
  empty (`Audit.Strong`).
- The last known good commit that a start finds is in the history (`Protocol.Leads`).
- The store is a growing sequence of immutable trees; reads of it may fail at any time. A
  file holds one object, its path gives kind and name, objects are listed by path, and what
  is committed is judged by the validator of this model and by the shape the schema gives
  to identifiers (`Commits.Standard`). The rest of the schema layer is taken to hold. Fresh
  identifiers have the shape (`Store.GoodIds`). The parsers of the bodies are parameters.

## Model

| member | source | states |
|---|---|---|
| `Ipv4.ContainsIsInterval` | PoC-webui-v2/internal/events/classify.go:54 | A prefix holds exactly the addresses of its interval, for every length from 0 to 32 |
| `Ipv4.MaskedContains` | PoC-webui-v2/internal/events/classify.go:54 | Clearing host bits does not change which addresses a prefix holds |
| `Ipv4.OverlapsIffMeet` | PoC-webui-v2/internal/validator/validator.go:357 | Two prefixes overlap exactly when some address is in both |
| `Ipv4.IntervalBounds` | PoC-webui-v2/internal/validator/sets.go:31-33 | The 32-bit mask computation gives the last address of the block, also for length 0 where the shift yields zero and wraps |
| `Intervals.NormIsCanonical` | PoC-webui-v2/internal/validator/sets.go:45-61 | Normalisation keeps the denoted set and yields sorted intervals with gaps between them |
| `Intervals.CanonicalUnique` | PoC-webui-v2/internal/validator/sets.go:45-61 | The canonical list of a set is unique, also when it ends at 2^32-1 |
| `Intervals.NormOfEqualSets` | PoC-webui-v2/internal/validator/sets.go:45-61 | Equal sets normalise to equal lists, however the unstable sort orders equal lower ends |
| `Intervals.Norm` | PoC-webui-v2/internal/validator/sets.go:45-61 | The loop computes the normal form, in canonical shape and with the same set |
| `Intervals.OverlapIffMeet` | PoC-webui-v2/internal/validator/sets.go:63-72 | Two interval lists overlap exactly when they have a common element |
| `Intervals.SearchOverlap` | PoC-webui-v2/internal/validator/sets.go:63-72 | The nested search returns true exactly when a common element exists |
| `Intervals.CoverIffSubset` | PoC-webui-v2/internal/validator/sets.go:74-90 | The coverage test holds exactly for set inclusion, which needs the normal form |
| `Intervals.SearchCover` | PoC-webui-v2/internal/validator/sets.go:74-90 | The search returns exactly set inclusion on ordered intervals |
| `Intervals.SizeCounts` | PoC-webui-v2/internal/validator/sets.go:92-98 | The size is the number of elements, at most 2^32 |
| `Intervals.Size` | PoC-webui-v2/internal/validator/sets.go:92-98 | The 64-bit sum equals the number of elements: 32-bit subtraction and 64-bit addition never wrap |
| `Model.FindPermuted` | PoC-webui-v2/internal/model/tree.go:320-372 | A lookup by name does not depend on list order when names are unique |
| `Model.ZoneOfSound` | PoC-webui-v2/internal/model/tree.go:375-384 | The Zone found for an Interface lists it, and none is found only if none lists it |
| `Expand.LeavesExact` | PoC-webui-v2/internal/model/tree.go:399-444 | A reference resolves to exactly the leaves it reaches, each once, even through cyclic groups |
| `Expand.WalkComplete` | PoC-webui-v2/internal/model/tree.go:399-444 | The walk visits everything below the list, adds only new names and outputs each new leaf once |
| `Expand.Walker.Visit` | PoC-webui-v2/internal/model/tree.go:399-444 | The recursive closure with its captured visited set and output computes the walk and terminates on every graph |
| `Expand.Expand` | PoC-webui-v2/internal/model/tree.go:399-444 | The result holds an object exactly when the reference reaches a name of it |
| `Cycles.Search.Dfs` | PoC-webui-v2/internal/validator/validator.go:449-468 | The three-colour search terminates, keeps grey for the current path, and finishes what it enters |
| `Cycles.Check` | PoC-webui-v2/internal/validator/validator.go:439-476 | Something is reported exactly when the group graph has a cycle, and every reported path runs into one |
| `Matching.IntervalAgreement` | PoC-webui-v2/internal/validator/sets.go:24-43 | Validator and classifier agree on an address form if and only if it is not a range from IPv4 to IPv6 |
| `Matching.AddrSetAgrees` | PoC-webui-v2/internal/validator/sets.go:106-119 | The address set of a reference list holds exactly the addresses the classifier matches |
| `Matching.AddrOverlapsIff` | PoC-webui-v2/internal/validator/sets.go:121-129 | Address sets are found to overlap exactly when they share an address |
| `Matching.AddrCoversIff` | PoC-webui-v2/internal/validator/sets.go:131-140 | Coverage of address sets is inclusion, except that a list never covers "any" |
| `Matching.SvcSetAgrees` | PoC-webui-v2/internal/validator/sets.go:148-165 | The service set of a list holds exactly the protocol and port pairs the classifier matches |
| `Matching.SvcOverlapsIff` | PoC-webui-v2/internal/validator/sets.go:167-177 | The overlap test of service sets is complete, and over-approximates exactly when one side is "any" and the other empty |
| `Matching.SvcCoversIff` | PoC-webui-v2/internal/validator/sets.go:179-194 | Coverage of service sets is inclusion, except that a list never covers "any" |
| `Matching.BuildAddrSet` | PoC-webui-v2/internal/validator/sets.go:106-119 | The builder loops compute the address set |
| `Matching.BuildSvcSet` | PoC-webui-v2/internal/validator/sets.go:148-165 | The builder loops compute the service set |
| `Routing.RouteIsOptimum` | PoC-webui-v2/internal/events/classify.go:86-116 | The route is a candidate no other is better than; there is none exactly when nothing holds the destination |
| `Routing.Route` | PoC-webui-v2/internal/events/classify.go:88-116 | The two loops return the Interface of the best candidate |
| `Routing.RouteOrderIndependent` | PoC-webui-v2/internal/events/classify.go:88-116 | Without subnet overlaps and route ties the route is independent of list order |
| `Routing.DecidingRouteIsActive` | PoC-webui-v2/internal/observer/observer.go:206-222 | A static route that decides a destination is in the list of active routes, on every configuration |
| `Routing.ActivePerNetwork` | PoC-webui-v2/internal/observer/observer.go:206-222 | The active routes are one per network if and only if every network is written alike in all its routes |
| `Samples.SpellingsAccepted` | PoC-webui-v2/internal/validator/validator.go:498-521 | Accepted configurations in which two active routes lead to one network written in two ways |
| `Routing.ActiveRoutes` | PoC-webui-v2/internal/observer/observer.go:206-222 | The loop returns the names of exactly the active routes |
| `Readings.ActiveRead` | PoC-webui-v2/internal/observer/observer.go:206-222 | A route is active exactly when no route to the same destination has less distance, or equal distance and less priority, with the defaults 10 and 1, the first winning a tie |
| `Readings.BlockRead` | PoC-webui-v2/internal/events/classify.go:50-61 | A prefix holds an address exactly when both lie in the same block of its size |
| `Readings.ExpandedRead` | PoC-webui-v2/internal/model/tree.go:399-444 | A reference means exactly the objects it names and those of groups that have them at some depth |
| `Readings.AddressesRead` | PoC-webui-v2/internal/events/classify.go:36-61 | A list of references matches an address exactly when it is just "any" or an object it means has the address in its block or range |
| `Readings.ServicesRead` | PoC-webui-v2/internal/events/classify.go:63-80 | A list of references matches a protocol and port exactly when it is just "any" or an entry of a service it means has the protocol and no other port range |
| `Readings.FirstIpRead` | PoC-webui-v2/internal/events/classify.go:128-142 | The address of a target is the start of a form the reference means, and there is none only if no form it means has one |
| `Readings.SideRead` | PoC-webui-v2/internal/model/tree.go:386-397 | A side of a RuleSet is the Interface of the name or the members of the Zone of the name |
| `Readings.GovernorRead` | PoC-webui-v2/internal/events/classify.go:118-126 | The governing RuleSet is one whose sides have the two Interfaces, and there is none only if no RuleSet is |
| `Readings.ZoneAllowsRead` | PoC-webui-v2/internal/events/classify.go:206-217 | Traffic without a RuleSet is allowed exactly if some Zone lists both Interfaces and allows it; an unset Zone does not |
| `Readings.RouteRead` | PoC-webui-v2/internal/events/classify.go:86-116 | A destination leaves by an unbeaten way: the longest prefix, an Interface before a route, then the least distance, then the least priority; and nowhere only if there is no way |
| `Classify.Classify` | PoC-webui-v2/internal/events/classify.go:155-237 | The nested loops with early returns compute the specified verdict |
| `Verdicts.DecideIsRight` | PoC-webui-v2/internal/events/classify.go:155-237 | On a clean configuration the verdict is right in terms of the objects alone: who translates the flow, where it is sent, whether it leaves the way its RuleSet governs, which rule takes it first, which source it leaves with, and what happens without a RuleSet |
| `Verdicts.DecideIffRight` | PoC-webui-v2/internal/events/classify.go:155-237 | If targets and pools are Addresses and not groups of them, a verdict is right if and only if the classifier gives it |
| `Classify.FirstDnatTranslates` | PoC-webui-v2/internal/events/classify.go:157-169 | The translation found matches and has a target address; none is found only if none does |
| `Classify.GoverningSound` | PoC-webui-v2/internal/events/classify.go:118-126 | The governing RuleSet governs the pair, and none is found only if none does |
| `Classify.FirstPolicySound` | PoC-webui-v2/internal/events/classify.go:218-234 | The policy found matches and does not translate the destination; none is found only if no such rule matches |
| `Classify.SearchMatch` | PoC-webui-v2/internal/events/classify.go:183-197 | The inner search always ends with the first match, because the rule it is made for matches |
| `Guarantees.NoSelfGoverning` | PoC-webui-v2/internal/validator/rulesets.go:102-121 | With the checks on names, Zones and sides, no RuleSet governs an Interface to itself |
| `Guarantees.GoverningUnique` | PoC-webui-v2/internal/validator/rulesets.go:33-48 | With the checks on names, Zones, sides and pairs, an ordered pair of Interfaces has at most one RuleSet |
| `Guarantees.DnatUnique` | PoC-webui-v2/internal/validator/rulesets.go:306-326 | Without an overlap error at most one enabled translation rule, over all RuleSets of the incoming Interface, takes a flow |
| `Guarantees.OrderIndependent` | PoC-webui-v2/internal/events/classify.go:155-237 | On a clean configuration the whole verdict of every flow is the same under every reordering of all lists; only rule order inside a RuleSet counts |
| `Guarantees.ShadowMatches` | PoC-webui-v2/internal/validator/rulesets.go:265-281 | Every flow that matches a shadowed rule matches the covering rule |
| `Guarantees.ShadowedNeverNamed` | PoC-webui-v2/internal/validator/rulesets.go:265-281 | No flow ever gets a verdict that names a shadowed translation rule, in either phase |
| `Guarantees.ShadowedIsDropped` | PoC-webui-v2/internal/events/classify.go:183-197 | A flow that a shadowed translation rule would take is always dropped |
| `Guarantees.OnlyTranslation` | PoC-webui-v2/internal/events/classify.go:157-199 | On a clean configuration a rule that can translate a flow is the one that decides it |
| `Limits.EntriesBound` | PoC-webui-v2/internal/validator/rulesets.go:81-84 | The product of addresses and ports never wraps in 64 bits |
| `Limits.LimitExact` | PoC-webui-v2/internal/validator/rulesets.go:84-87 | The limit error is raised exactly when the true total of entries exceeds 16384: no wrap hides an excess |
| `Limits.CountPorts` | PoC-webui-v2/internal/validator/rulesets.go:252-263 | The number of ports is the sum over the protocols that have ports, at least 1, without wrap |
| `Counting.EntriesArePlaces` | PoC-webui-v2/internal/validator/rulesets.go:81-87 | The entries of a translation rule are as many as the pairs of an address it translates and a port of a protocol it translates; "any" and no address count as one address, "any" as 65535 ports, no ports as one |
| `DhcpRules.RangesApart` | PoC-webui-v2/internal/validator/validator.go:583-588 | Ranges accepted for different Interfaces are disjoint when subnets are |
| `DhcpRules.OverlapNeverReported` | PoC-webui-v2/internal/validator/validator.go:525-588 | Without subnet overlap and with each Interface served once, no DHCP ranges overlap (DM-28 follows from DM-04 and DM-25) |
| `Validator.CheckNames` | PoC-webui-v2/internal/validator/validator.go:160-187 | unique-name is reported exactly when two objects of a namespace share a name |
| `Validator.CheckZones` | PoC-webui-v2/internal/validator/validator.go:385-399 | Each of dangling-ref, wrong-kind and zone-overlap is reported exactly when some member of a Zone breaks that rule, the last meaning an Interface listed before |
| `Validator.CheckAddresses` | PoC-webui-v2/internal/validator/validator.go:403-437 | An error is reported exactly when some range mixes families or is out of order |
| `Validator.CheckServices` | PoC-webui-v2/internal/validator/validator.go:480-496 | port-range is reported exactly when some port range is out of bounds or order |
| `Validator.CheckGroups` | PoC-webui-v2/internal/validator/validator.go:439-476 | group-cycle is reported exactly when the group graph has a cycle |
| `Validator.CheckInterfaces` | PoC-webui-v2/internal/validator/validator.go:319-361 | subnet-overlap is reported exactly when two addresses of Interfaces have overlapping prefixes, and interface-address exactly when one is the address of a network larger than a pair |
| `Validator.CheckRoutes` | PoC-webui-v2/internal/validator/validator.go:498-521 | route-tie is reported exactly when two routes have equal masked destination, distance and priority |
| `Validator.CheckSide` | PoC-webui-v2/internal/validator/rulesets.go:36-48 | Which errors one RuleSet gets for its sides, in terms of references, equality, earlier pairs and Zones |
| `Validator.SidesExact` | PoC-webui-v2/internal/validator/rulesets.go:33-48 | dangling-ref, same-side and duplicate-pair are reported exactly when the rule fails for the configuration, and zone-member exactly when some RuleSet with existing and different sides breaks it |
| `Validator.IsShadowed` | PoC-webui-v2/internal/validator/rulesets.go:268-281 | The search finds exactly whether one earlier enabled rule covers the rule |
| `Validator.CheckRuleSets` | PoC-webui-v2/internal/validator/rulesets.go:25-98 | The errors about sides, names, the limit and overlaps are each reported exactly for a breach; the warnings are exactly the shadowed translation rules |
| `Validator.CheckDnatOverlaps` | PoC-webui-v2/internal/validator/rulesets.go:306-326 | dnat-overlap is reported exactly when two kept rules clash |
| `Validator.CheckDhcp` | PoC-webui-v2/internal/validator/validator.go:525-588 | Each modelled DHCP rule is reported exactly when some server breaks it, in the order in which servers and ranges are collected |
| `Validator.ServersExact` | PoC-webui-v2/internal/validator/validator.go:525-588 | A DHCP error is reported exactly when the rule fails for the configuration: references, one server for an Interface, ranges, gateways, overlaps |
| `Validator.Checker.Validate` | PoC-webui-v2/internal/validator/validator.go:114-133 | No error is reported exactly when every modelled rule holds, and a finding warns exactly when its rule is one of the four that only warn |
| `Validator.AcceptedIsClean` | PoC-webui-v2/internal/validator/validator.go:112-114 | An accepted configuration with proper names is clean, so all guarantees apply to it |
| `Acceptance.AcceptedIffLawful` | PoC-webui-v2/internal/validator/validator.go:112-133 | A configuration with proper names is accepted if and only if it is lawful in terms of its objects alone: every modelled rule read off their fields |
| `NameRules.NamesLawful` | PoC-webui-v2/internal/validator/validator.go:160-187 | The check of names is that no two objects of a namespace have one name, kind by kind |
| `ObjectRules.SubnetsLawful` | PoC-webui-v2/internal/validator/validator.go:345-361 | The check of subnets is that no address is in the blocks of two addresses of Interfaces |
| `ObjectRules.GroupsLawful` | PoC-webui-v2/internal/validator/validator.go:439-476 | The check of groups is that no group is a member of itself at some depth |
| `TrafficRules.RuleSetsLawful` | PoC-webui-v2/internal/validator/rulesets.go:25-61 | The checks of sides and rule names, read off the RuleSets and Zones |
| `TrafficRules.TranslationsLawful` | PoC-webui-v2/internal/validator/rulesets.go:306-326 | The check of overlaps is that no two translations that enter by one Interface share an address and a service |
| `TrafficRules.LimitLawful` | PoC-webui-v2/internal/validator/rulesets.go:81-87 | The limit is exceeded exactly when the rules have more than 16384 places: the numbers of addresses their destinations hold times the numbers of ports their services have |
| `TrafficRules.ShadowsRead` | PoC-webui-v2/internal/validator/rulesets.go:265-281 | A translation is shadowed exactly when one earlier enabled rule takes all it could take, by lists of addresses and services |
| `TrafficRules.RoutesLawful` | PoC-webui-v2/internal/validator/validator.go:498-521 | The check of routes is that no two have one block, distance and priority, with the defaults |
| `TrafficRules.ServersLawful` | PoC-webui-v2/internal/validator/validator.go:525-588 | The checks of DHCP servers, read off ranges, gateways and the addresses of the served Interface |
| `Identifiers.AcceptedByContent` | PoC-webui-v2/internal/api/config.go:488-500 | Configurations that differ only in metadata other than names and in identifiers, comments and schedules of rules are accepted together |
| `Validator.AcceptedWithinLimit` | PoC-webui-v2/internal/validator/rulesets.go:81-87 | With port ranges in order, dnat-limit is absent exactly when the rules have at most 16384 places in all |
| `Texts.NormalForm` | PoC-webui-v2/internal/reconciler/compile.go:124-125 | Sorting and compacting keeps the members and yields a strictly rising list |
| `Texts.NormalUnique` | PoC-webui-v2/internal/reconciler/compile.go:124-125 | The sorted list depends on the set of members only |
| `Compile.AddressesKeepMeaning` | PoC-webui-v2/internal/reconciler/compile.go:114-126 | Resolved address texts match exactly the addresses the references match |
| `Compile.ServicesKeepMeaning` | PoC-webui-v2/internal/reconciler/compile.go:127-140 | Resolved service texts match exactly the protocol and port pairs the references match |
| `Compile.PairsOfMembers` | PoC-webui-v2/internal/reconciler/compile.go:144-150 | The pairs are those the RuleSet governs, without an Interface paired with itself |
| `Compile.PairKeepsMeaning` | PoC-webui-v2/internal/reconciler/compile.go:142-150 | The compiled RuleSet found for a pair is the one that governs it |
| `Compile.FirstEntryKeepsMeaning` | PoC-webui-v2/internal/reconciler/compile.go:152-167 | First match over the entries is first match over the rules, with and without translation rules, disabled rules dropped |
| `Compile.CompilationKeepsMeaning` | PoC-webui-v2/internal/reconciler/compile.go:114-169 | For every configuration and every flow that leaves by another Interface the section says what the second phase of the classifier decides |
| `Compile.EraseInvisible` | PoC-webui-v2/internal/reconciler/compile.go:14-20 | Metadata, Colors, Users, rule comments, schedules and identifiers, IPv6 settings and route and server names reach no section |
| `Compile.MetadataIsNoOp` | PoC-webui-v2/internal/reconciler/compile.go:14-20 | Configurations that differ only in those have the same sections |
| `Metadata.SamePlan` | PoC-webui-v2/internal/reconciler/compile.go:14-20 | Object by object: configurations that differ in Colors, Users, metadata other than names, names of routes and servers, IPv6 settings, Interfaces of Addresses, and identifiers, comments and schedules of rules have the same plan |
| `Compile.Compile` | PoC-webui-v2/internal/reconciler/compile.go:21-189 | The loops compute the plan; every rule is counted once, as policy or as disabled, and the counters of pairs, match entries and translation entries are those of the section |
| `Sections.PlanIsRight` | PoC-webui-v2/internal/reconciler/compile.go:21-189 | The plan holds what belongs there in terms of the objects alone: the entries of enabled rules in order with the texts of all they mean, resolved targets, pairs of Interfaces, Zones, what each Interface lets in, addresses, links, routes, servers, services and feeds |
| `Sections.OutsideReadsZones` | PoC-webui-v2/internal/events/classify.go:206-217 | A flow that leaves by another Interface where the section has no RuleSet is accepted if the section allows traffic in a Zone of both Interfaces, and dropped otherwise |
| `Tallies.CountersArePlaces` | PoC-webui-v2/internal/reconciler/compile.go:151-161 | The counters of pairs, policies, match entries and translation entries are the numbers of their places in the section |
| `Rendering.AddressTextsTell` | PoC-webui-v2/internal/model/types.go:130-142 | Addresses written alike contain the same IPv4 addresses, whatever their forms |
| `Rendering.DottedReads` | PoC-webui-v2/internal/model/types.go:130-142 | The four decimal numbers of an address in dots make it up, each below 256, the first counting most |
| `Rendering.TextsAreFaithful` | PoC-webui-v2/internal/model/types.go:130-142 | A renderer that writes addresses as the source does meets what the compiler needs of texts |
| `EqualPlans.EqualRoutes` | PoC-webui-v2/internal/reconciler/compile.go:25-41 | The network section decides every route |
| `EqualPlans.EqualPlansRoute` | PoC-webui-v2/internal/reconciler/compile.go:158-187 | Equal sections give equal verdicts in the second phase if and only if the configurations agree on traffic inside the Zone where no RuleSet governs the way, and on the pool the deciding entry names |
| `EqualVerdicts.TakerFound` | PoC-webui-v2/internal/reconciler/compile.go:142-167 | On a clean configuration the translation that takes a flow is found in the section: the first compiled RuleSet the flow enters with an entry that has a target and takes it |
| `EqualVerdicts.TranslationRead` | PoC-webui-v2/internal/events/classify.go:157-199 | The verdict of the first phase is determined by the section, the route to the target and the target |
| `EqualVerdicts.EqualPlansDecide` | PoC-webui-v2/internal/reconciler/compile.go:14-20 | The whole verdicts of two clean configurations with equal sections are equal for a flow if and only if they agree on targets of translations, or else on what the second phase leaves open |
| `Targets.TargetsNameAlike` | PoC-webui-v2/internal/reconciler/compile.go:160-165 | If two proper configurations have equal sections and a translation takes a flow in both, the targets name the same addresses and the same services |
| `Targets.HostsAlike` | PoC-webui-v2/internal/reconciler/compile.go:160-165 | Targets that are single hosts are then the same host, and the flow is sent to it in both |
| `Targets.HostsDecide` | PoC-webui-v2/internal/events/classify.go:157-199 | The verdicts then differ in the port and the written target at most |
| `Samples.MembersUnseen` | PoC-webui-v2/internal/reconciler/compile.go:170-187 | Two accepted configurations with equal sections, one accepting and one dropping the same flow inside a Zone |
| `Samples.PoolUnseen` | PoC-webui-v2/internal/reconciler/compile.go:158-165 | Accepted configurations with equal sections that give every flow from one Interface different verdicts, because a pool has another address |
| `Appliance.Check` | PoC-webui-v2/internal/reconciler/reconciler.go:267-272 | The verdict of the validator on a configuration is acceptance by every modelled rule |
| `Appliance.Sections` | PoC-webui-v2/internal/reconciler/reconciler.go:274-284 | The sections compared with what is applied are those of the plan |
| `Transaction.Apply` | PoC-webui-v2/internal/reconciler/reconciler.go:317-366 | A transaction succeeds with all stages in the fixed order, or does the stages before the first failing commit, that commit, and rollbacks in reverse, whatever the fault flags do meanwhile |
| `Transaction.FailureRestores` | PoC-webui-v2/internal/reconciler/reconciler.go:352-359 | Replaying a failed transaction on a stack of snapshots restores every driver and leaves no snapshot |
| `Transaction.UnchangedUntouched` | PoC-webui-v2/internal/reconciler/reconciler.go:319-345 | No step names a driver that has not changed, in success or failure |
| `Transaction.SuccessCommits` | PoC-webui-v2/internal/reconciler/reconciler.go:324-345 | A success prepares each changed driver once and commits it once, the network twice |
| `Transaction.FaultsFail` | PoC-webui-v2/internal/reconciler/reconciler.go:347-360 | A transaction fails exactly when a stage commits a driver that is set to fail then, and it names the first |
| `Transaction.LastingFaultFails` | PoC-webui-v2/internal/reconciler/reconciler.go:347-360 | A changed driver that stays set to fail makes every transaction fail |
| `Transaction.StagesInOrder` | PoC-webui-v2/internal/reconciler/reconciler.go:324-345 | No driver is committed before it is prepared, none but the data plane is prepared after a commit, services change after the data plane |
| `Transaction.NetworkAround` | PoC-webui-v2/internal/reconciler/reconciler.go:331-344 | The network is committed before everything else and again at the end |
| `Reconciler.Reconciler.constructor` | PoC-webui-v2/internal/reconciler/reconciler.go:105-121 | A new reconciler runs nothing and knows the saved last known good commit |
| `Reconciler.Reconciler.Reconcile` | PoC-webui-v2/internal/reconciler/reconciler.go:231-315 | The outcome of an attempt in every case; a failed one changes neither what is running nor the last known good; the status stays truthful |
| `Reconciler.Reconciler.Boot` | PoC-webui-v2/internal/reconciler/reconciler.go:149-164 | HEAD is attempted first; if it could not be read or applied and another commit is last known good, that commit is attempted on the empty appliance, and otherwise nothing else is. If it then runs, the status is failed with the attempt and the error of HEAD |
| `Reconciler.Reconciler.SetFault` | PoC-webui-v2/internal/reconciler/reconciler.go:196-209 | Only the fault flag changes, the change is published, and clearing asks for a reconciliation |
| `Reconciler.NoFaultApplies` | PoC-webui-v2/internal/reconciler/reconciler.go:286-304 | Without faults a valid commit is always applied |
| `Reconciler.FallBackRuns` | PoC-webui-v2/internal/reconciler/reconciler.go:149-164 | A start that falls back runs the last known good commit, with all its sections, if that is valid and no driver is set to fail then |
| `Reconciler.SameSectionsIsNoOp` | PoC-webui-v2/internal/reconciler/reconciler.go:277-304 | A valid commit with the running sections touches no driver, even if all would fail, and becomes the applied commit |
| `Appliance.MetadataCommitIsNoOp` | PoC-webui-v2/internal/reconciler/compile.go:14-20 | A commit that changes only erased parts touches no driver through the whole reconciler |
| `Metadata.CommitIsNoOp` | PoC-webui-v2/internal/reconciler/reconciler.go:277-304 | A valid commit that differs from what runs in those only touches no driver, even if all would fail, and becomes the applied commit |
| `Appliance.RunningDecides` | PoC-webui-v2/internal/reconciler/reconciler.go:296-304 | The section the data plane was given decides flows as the classifier does on the configuration of the applied commit |
| `Appliance.RunningIsClean` | PoC-webui-v2/internal/reconciler/reconciler.go:267-275 | What runs is a clean configuration |
| `Protocol.NoLostUpdate` | PoC-webui-v2/internal/reconciler/reconciler.go:124-148 | In every reachable state at rest, if the last read of HEAD succeeded, the desired commit is HEAD, HEAD has an attempt, and no caller waiting for HEAD sleeps on an open channel |
| `Protocol.RestTellsTruth` | PoC-webui-v2/internal/reconciler/reconciler.go:231-315 | In every reachable state at rest, if the last read of HEAD succeeded, the status is in-sync if and only if the last attempt at HEAD has succeeded, and then HEAD is applied and last known good |
| `Protocol.SleeperMissesNothing` | PoC-webui-v2/internal/reconciler/reconciler.go:213-229 | In every reachable state a caller that sleeps on an open channel has no attempt to miss |
| `Protocol.RunKeeps` | PoC-webui-v2/internal/configstore/store.go:319-336 | The invariant holds after every run of commits, notifications, forwards, triggers, attempts, faults and waits |
| `Starts.StartTries` | PoC-webui-v2/internal/reconciler/reconciler.go:149-164 | In every run in which the last known good commit can be read, the loop does not wait for a trigger with nothing applied unless that commit has been attempted or there is none |
| `Histories.MissedIff` | PoC-webui-v2/internal/reconciler/reconciler.go:248-258 | After every run, HEAD is noted as missed if and only if a notification or a read of it failed and no read of it has succeeded since |
| `Histories.DegradedIff` | PoC-webui-v2/internal/reconciler/reconciler.go:248-315 | After every run, where the loop waits for a trigger, the status is degraded if and only if the last attempt could not read its commit, and otherwise in-sync or failed |
| `Settling.Settles` | PoC-webui-v2/internal/reconciler/reconciler.go:131-148 | Every step of the program brings it closer to rest, and a step is possible until it rests |
| `Settling.ComesToRest` | PoC-webui-v2/internal/reconciler/reconciler.go:131-148 | From every state after the start the program alone comes to rest, with HEAD desired and attempted |
| `Settling.SupersededSleeps` | PoC-webui-v2/internal/reconciler/reconciler.go:211-229 | A reachable state at rest in which a caller waiting for a superseded commit still sleeps |
| `Settling.SupersededAtStart` | PoC-webui-v2/internal/reconciler/reconciler.go:149-164 | A reachable state of a first start in which a caller waits for a superseded commit that will never be attempted |
| `Settling.LostForever` | PoC-webui-v2/internal/reconciler/reconciler.go:213-229 | A superseded commit that has no attempt, is out of the loop's hands and is not what the start may fall back to is never attempted in any continuation |
| `Settling.AtRest` | PoC-webui-v2/internal/reconciler/reconciler.go:131-148 | Whichever way the program takes to rest without failures, a commit in its hands, and HEAD if due to be read, has been attempted |
| `Settling.WaitReturnsIff` | PoC-webui-v2/internal/reconciler/reconciler.go:211-229 | In every reachable state a caller waiting for a commit up to HEAD returns with an attempt in some continuation if and only if the commit has one, is in the loop's hands or is HEAD, or is the last known good commit and the start may still fall back to it |
| `Joined.StepJoins` | PoC-webui-v2/internal/reconciler/reconciler.go:231-315 | Every event keeps what runs in step with what the protocol records as applied, and an attempt at a valid commit fails only by a fault |
| `Joined.RestIsInSync` | PoC-webui-v2/internal/reconciler/reconciler.go:124-148 | At rest after any run, a HEAD that could be read, is valid and met no fault at its last attempt is in sync, and whenever the status is in-sync HEAD is what runs |
| `Appliance.RestDecides` | PoC-webui-v2/internal/reconciler/reconciler.go:124-148 | At rest after any run, with an accepted HEAD that met no fault, the section the data plane was given decides flows as the classifier does on HEAD |
| `Store.FilterHidesNothing` | PoC-webui-v2/internal/api/config.go:133-145 | Judged from a valid tree the filter returns all errors of the changed tree, because each rule has one severity, which Commits.StandardIsCareful proves of the validator |
| `Store.FindNewErrors` | PoC-webui-v2/internal/api/config.go:133-145 | The loops compute the filter |
| `Store.TryMutation` | PoC-webui-v2/internal/api/config.go:224-267 | The checks of one request in their order, each refusal stated by itself; acceptance means that the tree has the object that was sent at its path, or none, that nothing else changes, identifiers stay and a valid tree stays valid |
| `Store.MutationAnswers` | PoC-webui-v2/internal/api/config.go:224-267 | A request is refused for exactly what is wrong with it: an unknown kind, a path that exists or not, the System, a shipped object, or the errors the tree it asks for would have and had not; otherwise the object that was sent is at its path, or gone, and nothing else has changed |
| `Store.AssignStores` | PoC-webui-v2/internal/model/tree.go:446-481 | An object is stored as sent; an earlier identifier stays, the last rule of a name counting, else a given one is kept, and a fresh one is made only if neither is known |
| `Store.MutationIsCareful` | PoC-webui-v2/internal/api/config.go:224-267 | An accepted mutation of a valid tree leaves a valid tree |
| `Store.MutationKeepsIds` | PoC-webui-v2/internal/api/config.go:224-267 | An accepted mutation changes no identifier of an object or of a rule known by name |
| `Store.TryImport` | PoC-webui-v2/internal/api/config.go:473-501 | The loops of an import compute its changes |
| `Store.ImportWrites` | PoC-webui-v2/internal/api/config.go:488-500 | The changes of an import leave exactly the imported objects |
| `Store.ImportIsCareful` | PoC-webui-v2/internal/api/config.go:473-501 | An accepted import onto a valid tree leaves a valid tree although identifiers are assigned after validation, because those kept and those fresh have their shape |
| `Store.ImportReplaces` | PoC-webui-v2/internal/api/config.go:473-501 | An import leaves its own content and nothing else, keeps the Users if it has none, and changes no identifier |
| `Store.AssignKeepsIds` | PoC-webui-v2/internal/model/tree.go:446-481 | Identifiers of objects and of rules known by name never change once assigned |
| `Store.AcceptedOverwrites` | PoC-webui-v2/internal/configstore/store.go:203-214 | An accepted update from a stale base overwrites only files whose content at the base equals that at HEAD, and leaves the others |
| `Store.SecondIsRefused` | PoC-webui-v2/internal/configstore/store.go:203-214 | An update from a revision in which a file had other content is refused when it touches the file |
| `Updates.UpdateIsRight` | PoC-webui-v2/internal/configstore/store.go:192-263 | Each file becomes what the last change of it says; the update is refused for an unknown base, for the first changed file that is no longer as at the base, or if it changes nothing |
| `Updates.ImportIsRight` | PoC-webui-v2/internal/api/config.go:473-501 | An import is refused for exactly the errors of the whole that it asks for, and otherwise leaves the objects of that whole with identifiers |
| `Updates.OutcomeIsRight` | PoC-webui-v2/internal/configstore/store.go:192-279 | Each mutation, import and revert comes to the commit it asks for, or is refused for the reason that applies |
| `Store.Repository.Update` | PoC-webui-v2/internal/configstore/store.go:192-220 | The history grows by the written tree, or the call fails with the specified error and changes nothing |
| `Store.Repository.Revert` | PoC-webui-v2/internal/configstore/store.go:265-279 | A revert adds a commit equal to an earlier tree, or changes nothing, and keeps all trees valid |
| `Store.Repository.Mutate` | PoC-webui-v2/internal/api/config.go:224-267 | An accepted request leaves the object that was sent at its path, or none, and all other files as they were, overwrites nothing the client has not seen, keeps identifiers and keeps every tree of the history valid |
| `Store.Repository.ImportAll` | PoC-webui-v2/internal/api/config.go:457-501 | An accepted import keeps every tree of the history valid and replaces the configuration |
| `Store.HistoryIsCareful` | PoC-webui-v2/internal/configstore/store.go:192-220 | Every run of mutations, imports and reverts keeps all commits valid |
| `Commits.SameRead` | PoC-webui-v2/internal/configstore/store.go:118-179 | Trees of files that differ in identifiers are read as configurations of the same content |
| `Commits.TreeHoldsFiles` | PoC-webui-v2/internal/configstore/store.go:118-179 | The configuration of a tree has exactly the objects of its files, by kind, with the names of the paths and the identifiers of the files and, by position, of the rules |
| `Commits.StandardIsCareful` | PoC-webui-v2/internal/api/config.go:133-145 | The modelled validator meets what the repository relies on: valid means accepted with identifiers of the right shape, each rule has one severity, and identifiers count by their shape only |
| `Commits.EveryCommitIsClean` | PoC-webui-v2/internal/api/config.go:224-267 | From an accepted factory default every commit of every run is accepted and clean |
| `Commits.CommitsAreUnambiguous` | PoC-webui-v2/internal/events/classify.go:155-237 | No commit of any run leaves a verdict to the order of its lists |
| `Collector.AtMostThirtyPerSecond` | PoC-webui-v2/internal/events/events.go:69-78 | In every window of drop events at most 30 plus 30 per second get an identifier |
| `Collector.KeptIff` | PoC-webui-v2/internal/events/events.go:69-78 | A drop event gets an identifier if and only if it brings no window that ends with it above 30 plus 30 per second |
| `Collector.KeptAfterRest` | PoC-webui-v2/internal/events/events.go:69-78 | A drop event that comes a thirtieth of a second after the last one is always kept |
| `Collector.OneMore` | PoC-webui-v2/internal/events/events.go:63-68 | Counting adds one to one counter and changes no other |
| `Collector.WindowBound` | PoC-webui-v2/internal/events/events.go:69-78 | The tokens taken in a window plus those left are bounded by capacity plus rate |
| `Collector.LevelInBounds` | PoC-webui-v2/internal/events/events.go:72-78 | The bucket stays between 0 and 30 |
| `Collector.TotalBumped` | PoC-webui-v2/internal/events/events.go:66-68 | Counting one reason adds one to the sum of all reasons |
| `Collector.Collector.Emit` | PoC-webui-v2/internal/events/events.go:60-94 | Counters, bucket, identifiers and buffer after each event; the invariant ties them to the whole history |
| `Collector.Collector.Recent` | PoC-webui-v2/internal/events/events.go:96-103 | The last events of the whole history, with consecutive identifiers |
| `Collector.CollectorWindow` | PoC-webui-v2/internal/events/events.go:60-94 | The window bound for the events of a collector |
| `Audit.Log.constructor` | PoC-webui-v2/internal/audit/audit.go:38-48 | An opened log continues the log on disk |
| `Audit.Log.Record` | PoC-webui-v2/internal/audit/audit.go:57-77 | Number and hash move on with every entry, written or not; the file grows by a written entry that holds the content, the next number, the last hash and its own digest |
| `Audit.VerifiesIff` | PoC-webui-v2/internal/audit/audit.go:57-77 | After any sequence of opening and recording, a log that verified still does if and only if no write succeeded after one that failed without the log being opened between them |
| `Audit.LogHolds` | PoC-webui-v2/internal/audit/audit.go:57-77 | After any use the log has its old entries and then, in order, exactly what was recorded and written |
| `Audit.UsesRise` | PoC-webui-v2/internal/audit/audit.go:57-77 | Numbers only rise, whatever fails and whenever the log is opened |
| `Audit.NumbersConsecutive` | PoC-webui-v2/internal/audit/audit.go:57-77 | If all writes succeed the new entries are numbered without gaps |
| `Audit.Log.Verify` | PoC-webui-v2/internal/audit/audit.go:123-143 | Verification succeeds exactly on a chain and otherwise names the first broken entry |
| `Audit.SameEndSameLog` | PoC-webui-v2/internal/audit/audit.go:123-143 | Two logs that verify and end in the same hash are identical |
| `Audit.RemovalNoticed` | PoC-webui-v2/internal/audit/audit.go:123-124 | Removing entries is noticed exactly unless they are the last ones |
| `Audit.ReorderingNoticed` | PoC-webui-v2/internal/audit/audit.go:123-124 | A log that verifies and has the same entries as another that verifies has them in the same order |
| `Audit.ModificationNoticed` | PoC-webui-v2/internal/audit/audit.go:123-124 | Changing an entry is noticed exactly unless it is the last, keeps its link and gets its own digest as hash |
| `Audit.SelectionNoticed` | PoC-webui-v2/internal/audit/audit.go:123-124 | Any list made of entries of a verifying log verifies if and only if it is a beginning of that log |
| `Audit.EditsSpread` | PoC-webui-v2/internal/audit/audit.go:123-124 | If an edited log verifies too, no hash from the first edit on is a hash of the old log |

## Left out

- Validator.Checker.Validate: does not model the checks that only report on one object or one reference and decide nothing about verdicts: structure, System, Colors, Users, VLANs and devices, gateways on link, lease times, roles, reservations, binding and existence of the references in rules, the shape of translations, the management port, and the limits on RuleSets and Policies.
- Validator.CheckRuleSets: does not model references inside rules, the shape of translations and the management port.
- Validator.CheckZones: the order of findings is not stated; messages, paths and lines of findings are not modelled.
- Validator.CheckDhcp: roles, lease times and reservations are not modelled; addresses of DHCP servers are IPv4, as the schema demands.
- Compile.Compile: DNS and NTP settings are opaque texts with the references that matter.
- Rendering.TextsAreFaithful: services are written as lists of fields, not as JSON.
- Reconciler.Reconciler.Reconcile: fault flags that change during an attempt are an arbitrary function of the stage, and stopped services, delays, times and the file with the last known good commit are not modelled.
- Protocol.NoLostUpdate: one subscriber, one forwarder; an attempt ends in success or failure, which the joined model takes from the reconciler; real time is replaced by arbitrary expiry of waits.
- Store.Repository.Update: failures of Git and of the file system are not modelled, nor are authors, messages, the cache and the redaction of passwords.
- Collector.Collector.Emit: counters do not wrap at 64 bits, streams to subscribers and flow ends waiting in the simulator are not modelled.
- Audit.Log.Record: entries are abstract contents, the normalisation through JSON is assumed to have happened.
- IPv6 addresses, FQDN and MAC forms match no IPv4 flow in the code; they are forms that contain nothing.
- HTTP handling, YAML and JSON decoding, schema evaluation, authentication, the traffic simulator, sampling and health texts, the UI and the archived prototypes.
