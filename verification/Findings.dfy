/** Findings of the validator: which rule, how grave, and where. */
module Findings {
  import opened Model

  datatype Severity = Error | Warning

  /** The identifiers of the rules, each named after its text: UniqueName stands
      for "unique-name". */
  datatype RuleId = SchemaShape | UniqueName | DanglingRef | WrongKind | ZoneOverlap | RangeFamily | RangeOrder
                  | CidrHostBits | Ipv6Deferred | DataplaneUnsupported | PortRangeRule | GroupCycle | InterfaceAddress
                  | SubnetOverlap | RouteTie | SameSide | DuplicatePair | ZoneMember | DuplicateRule | DnatLimit
                  | DnatOverlap | DnatShadowed | DhcpDuplicate | DhcpRange | DhcpGateway | DhcpOverlap

  /** The rules that only warn. */
  const WARNING_RULES := {CidrHostBits, Ipv6Deferred, DataplaneUnsupported, DnatShadowed}

  /** A finding names a file and a place in it. The reason and the line say no
      more about the configuration. */
  datatype Finding = Finding(rule: RuleId, severity: Severity, file: Name, index: int, reason: string, line: nat)

  function Blocks(rule: RuleId, file: Name, index: int): Finding { Finding(rule, Error, file, index, "", 0) }

  function Warns(rule: RuleId, file: Name, index: int): Finding { Finding(rule, Warning, file, index, "", 0) }

  function ErrorRules(fs: seq<Finding>): set<RuleId> {
    set f | f in fs && f.severity == Error :: f.rule
  }

  function WarningRules(fs: seq<Finding>): set<RuleId> {
    set f | f in fs && f.severity == Warning :: f.rule
  }

  /** Each rule has one severity: it warns or it blocks. */
  ghost predicate Graded(fs: seq<Finding>) {
    forall f :: f in fs ==> (f.severity == Warning <==> f.rule in WARNING_RULES)
  }

  lemma GradedByRules(fs: seq<Finding>)
    requires ErrorRules(fs) !! WARNING_RULES && WarningRules(fs) <= WARNING_RULES
    ensures Graded(fs)
  {
    forall f | f in fs ensures f.severity == Warning <==> f.rule in WARNING_RULES {
      assert f.severity == Error ==> f.rule in ErrorRules(fs);
      assert f.severity == Warning ==> f.rule in WarningRules(fs);
    }
  }

  lemma NoneWarns(fs: seq<Finding>)
    requires WarningRules(fs) == {}
    ensures forall f :: f in fs ==> f.severity == Error
  {
    forall f | f in fs ensures f.severity == Error {
      assert f.severity == Warning ==> f.rule in WarningRules(fs);
    }
  }

  lemma RulesAppend(a: seq<Finding>, b: seq<Finding>)
    ensures ErrorRules(a + b) == ErrorRules(a) + ErrorRules(b)
    ensures WarningRules(a + b) == WarningRules(a) + WarningRules(b)
  {
  }

  function One(f: Finding): (r: seq<Finding>)
    ensures r == [f] && ErrorRules(r) == (if f.severity == Error then {f.rule} else {})
    ensures WarningRules(r) == if f.severity == Warning then {f.rule} else {}
  {
    [f]
  }

  function Add(a: seq<Finding>, b: seq<Finding>): (r: seq<Finding>)
    ensures r == a + b && ErrorRules(r) == ErrorRules(a) + ErrorRules(b)
    ensures WarningRules(r) == WarningRules(a) + WarningRules(b)
  {
    a + b
  }

  /** A rule that is reported when a condition holds. */
  function Rules(c: bool, r: RuleId): set<RuleId> { if c then {r} else {} }

  /** One more error when a condition holds. */
  function AddIf(fs: seq<Finding>, c: bool, rule: RuleId, file: Name, index: int): (r: seq<Finding>)
    ensures ErrorRules(r) == ErrorRules(fs) + Rules(c, rule) && WarningRules(r) == WarningRules(fs)
  {
    if c then Add(fs, One(Blocks(rule, file, index))) else fs
  }
}
