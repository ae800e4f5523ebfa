/** Policy rules and the decisions they lead to: deny overrides allow, block overrides redact. */
module PolicyDecision {
  import opened Prelude

  datatype MemoryRule = MemoryRule(
    action: string, targetTypes: seq<string>, namespaces: seq<string>, effect: string)

  datatype PIIRule = PIIRule(typesToRedact: seq<string>, action: string)

  datatype Content = Content(memoryRules: seq<MemoryRule>, piiRules: seq<PIIRule>)

  datatype Policy = Policy(
    id: string, agentDid: string, version: string, content: Content, createdAt: Time, updatedAt: Time)

  datatype Request = Request(agentDid: string, action: string, memoryType: string, namespace: string)

  datatype Reason =
    | RetrievalFailed
    | NoPolicies
    | NoMatchingAllow
    | ExplicitDeny(policyId: string)
    | AllowedBy(policyId: string)

  datatype Decision = Decision(allowed: bool, reason: Reason)

  // ------------------------------------------------------------------ matching

  function Lower(c: char): char {
    if 'A' <= c <= 'Z' then (c as int + 32) as char else c
  }

  predicate EqualFold(a: string, b: string) {
    |a| == |b| && forall i | 0 <= i < |a| :: Lower(a[i]) == Lower(b[i])
  }

  predicate ActionMatches(ruleAction: string, reqAction: string) {
    ruleAction == "*" || EqualFold(ruleAction, reqAction)
  }

  predicate ListMatches(list: seq<string>, item: string) {
    exists i | 0 <= i < |list| :: list[i] == "*" || EqualFold(list[i], item)
  }

  method StringMatches(list: seq<string>, item: string) returns (matches: bool)
    ensures matches <==> ListMatches(list, item)
  {
    for i := 0 to |list|
      invariant forall j | 0 <= j < i :: !(list[j] == "*" || EqualFold(list[j], item))
    {
      if list[i] == "*" || EqualFold(list[i], item) {
        return true;
      }
    }
    return false;
  }

  predicate Applies(rule: MemoryRule, req: Request) {
    && ActionMatches(rule.action, req.action)
    && ListMatches(rule.targetTypes, req.memoryType)
    && ListMatches(rule.namespaces, req.namespace)
  }

  predicate Denies(rule: MemoryRule, req: Request) {
    Applies(rule, req) && rule.effect == "deny"
  }

  predicate Allows(rule: MemoryRule, req: Request) {
    Applies(rule, req) && rule.effect == "allow"
  }

  predicate PolicyDenies(p: Policy, req: Request) {
    exists i | 0 <= i < |p.content.memoryRules| :: Denies(p.content.memoryRules[i], req)
  }

  predicate PolicyAllows(p: Policy, req: Request) {
    exists i | 0 <= i < |p.content.memoryRules| :: Allows(p.content.memoryRules[i], req)
  }

  // ------------------------------------------------------------------ the decision

  /** Policy i is the first with a matching deny. */
  predicate FirstDenying(policies: seq<Policy>, req: Request, i: nat) {
    i < |policies| && PolicyDenies(policies[i], req) && forall j | 0 <= j < i :: !PolicyDenies(policies[j], req)
  }

  /** Policy i is the last with a matching allow. */
  predicate LastAllowing(policies: seq<Policy>, req: Request, i: nat) {
    i < |policies| && PolicyAllows(policies[i], req)
    && forall j | i < j < |policies| :: !PolicyAllows(policies[j], req)
  }

  predicate Denied(policies: seq<Policy>, req: Request) {
    exists i | 0 <= i < |policies| :: PolicyDenies(policies[i], req)
  }

  predicate Permitted(policies: seq<Policy>, req: Request) {
    exists i | 0 <= i < |policies| :: PolicyAllows(policies[i], req)
  }

  /** Deny overrides: the first denying policy decides, or else the last allowing one. */
  predicate IsDecision(policies: seq<Policy>, req: Request, d: Decision) {
    if policies == [] then d == Decision(false, NoPolicies)
    else if Denied(policies, req) then
      exists i: nat | i < |policies| ::
        FirstDenying(policies, req, i) && d == Decision(false, ExplicitDeny(policies[i].id))
    else if Permitted(policies, req) then
      exists i: nat | i < |policies| ::
        LastAllowing(policies, req, i) && d == Decision(true, AllowedBy(policies[i].id))
    else d == Decision(false, NoMatchingAllow)
  }

  /** Any two admissible decisions are the same one. */
  lemma DecisionIsUnique(policies: seq<Policy>, req: Request, a: Decision, b: Decision)
    requires IsDecision(policies, req, a) && IsDecision(policies, req, b)
    ensures a == b
  {
  }

  /** Goes through one policy's rules, leaving at the first deny. */
  method ScanRules(rules: seq<MemoryRule>, req: Request) returns (denied: bool, allowed: bool)
    ensures denied <==> exists i | 0 <= i < |rules| :: Denies(rules[i], req)
    ensures !denied ==> (allowed <==> exists i | 0 <= i < |rules| :: Allows(rules[i], req))
  {
    denied, allowed := false, false;
    for i := 0 to |rules|
      invariant forall j | 0 <= j < i :: !Denies(rules[j], req)
      invariant allowed <==> exists j | 0 <= j < i :: Allows(rules[j], req)
      invariant !denied
    {
      if !ActionMatches(rules[i].action, req.action) { continue; }
      var typeMatches := StringMatches(rules[i].targetTypes, req.memoryType);
      if !typeMatches { continue; }
      var namespaceMatches := StringMatches(rules[i].namespaces, req.namespace);
      if !namespaceMatches { continue; }
      if rules[i].effect == "deny" {
        denied := true;
        return;
      }
      if rules[i].effect == "allow" {
        allowed := true;
      }
    }
  }

  method Decide(policies: seq<Policy>, req: Request) returns (d: Decision)
    ensures IsDecision(policies, req, d)
  {
    if |policies| == 0 {
      return Decision(false, NoPolicies);
    }
    d := Decision(false, NoMatchingAllow);
    ghost var last := 0;
    for i := 0 to |policies|
      invariant forall j | 0 <= j < i :: !PolicyDenies(policies[j], req)
      invariant d.allowed ==> last < i && LastAllowing(policies[..i], req, last)
                              && d == Decision(true, AllowedBy(policies[last].id))
      invariant !d.allowed ==> d == Decision(false, NoMatchingAllow)
                               && forall j | 0 <= j < i :: !PolicyAllows(policies[j], req)
    {
      var denied, allowed := ScanRules(policies[i].content.memoryRules, req);
      if denied {
        assert PolicyDenies(policies[i], req);
        assert FirstDenying(policies, req, i);
        return Decision(false, ExplicitDeny(policies[i].id));
      }
      assert !PolicyDenies(policies[i], req);
      assert allowed <==> PolicyAllows(policies[i], req);
      if allowed {
        d := Decision(true, AllowedBy(policies[i].id));
        last := i;
      }
    }
    assert policies[..|policies|] == policies;
  }

  // ------------------------------------------------------------------ order does not matter

  function Rules(policies: seq<Policy>): set<MemoryRule> {
    set i, j | 0 <= i < |policies| && 0 <= j < |policies[i].content.memoryRules| ::
      policies[i].content.memoryRules[j]
  }

  /** Allowed exactly when some rule allows and no rule denies, wherever the rules are. */
  lemma AllowedIff(policies: seq<Policy>, req: Request, d: Decision)
    requires IsDecision(policies, req, d)
    ensures d.allowed <==> (exists r <- Rules(policies) :: Allows(r, req)) && !(exists r <- Rules(policies) :: Denies(r, req))
  {
  }

  /** Permuting, duplicating or regrouping rules never changes whether a request is allowed. */
  lemma RegroupingIsHarmless(a: seq<Policy>, b: seq<Policy>, req: Request, da: Decision, db: Decision)
    requires Rules(a) == Rules(b)
    requires IsDecision(a, req, da) && IsDecision(b, req, db)
    ensures da.allowed == db.allowed
  {
    AllowedIff(a, req, da);
    AllowedIff(b, req, db);
  }

  // ------------------------------------------------------------------ the documented flow

  /** All memory rules, policy by policy, in the order the evaluator meets them. */
  function Flatten(policies: seq<Policy>): seq<MemoryRule> {
    if policies == [] then []
    else Flatten(policies[..|policies| - 1]) + policies[|policies| - 1].content.memoryRules
  }

  /**
   * The flow the policy document describes: the first matching rule decides, and no match denies.
   * A rule whose effect is neither allow nor deny decides nothing.
   */
  predicate FirstMatchAllows(rules: seq<MemoryRule>, req: Request) {
    rules != [] &&
      if Denies(rules[0], req) then false
      else if Allows(rules[0], req) then true
      else FirstMatchAllows(rules[1..], req)
  }

  /** Some matching allow has no matching deny before it. */
  predicate AllowStandsFirst(rules: seq<MemoryRule>, req: Request) {
    exists i | 0 <= i < |rules| :: Allows(rules[i], req) && forall j | 0 <= j < i :: !Denies(rules[j], req)
  }

  lemma {:induction false} FirstMatchIsFirstAllow(rules: seq<MemoryRule>, req: Request)
    ensures FirstMatchAllows(rules, req) <==> AllowStandsFirst(rules, req)
  {
    if rules != [] {
      var rest := rules[1..];
      FirstMatchIsFirstAllow(rest, req);
      if AllowStandsFirst(rest, req) && !Denies(rules[0], req) {
        var i :| 0 <= i < |rest| && Allows(rest[i], req) && forall j | 0 <= j < i :: !Denies(rest[j], req);
        forall j | 0 <= j < i + 1 ensures !Denies(rules[j], req) {
          assert j > 0 ==> rules[j] == rest[j - 1];
        }
        assert Allows(rules[i + 1], req);
      }
      if AllowStandsFirst(rules, req) && !Allows(rules[0], req) {
        var i :| 0 <= i < |rules| && Allows(rules[i], req) && forall j | 0 <= j < i :: !Denies(rules[j], req);
        assert rest[i - 1] == rules[i];
        assert forall j | 0 <= j < i - 1 :: rest[j] == rules[j + 1];
      }
    }
  }

  lemma {:induction false} FlattenHoldsRules(policies: seq<Policy>, r: MemoryRule)
    ensures r in Flatten(policies) <==> r in Rules(policies)
  {
    if policies != [] {
      var front, last := policies[..|policies| - 1], policies[|policies| - 1];
      FlattenHoldsRules(front, r);
      assert forall i | 0 <= i < |front| :: policies[i] == front[i];
      if r in last.content.memoryRules {
        var j :| 0 <= j < |last.content.memoryRules| && last.content.memoryRules[j] == r;
        assert policies[|policies| - 1].content.memoryRules[j] in Rules(policies);
      }
    }
  }

  /**
   * The evaluator and the documented flow agree exactly when no rule denies, or no matching allow
   * stands before the first matching deny.
   */
  lemma FirstMatchAgreesIff(policies: seq<Policy>, req: Request, d: Decision)
    requires IsDecision(policies, req, d)
    ensures var rules := Flatten(policies);
            (d.allowed == FirstMatchAllows(rules, req)) <==>
              ((forall r <- rules :: !Denies(r, req)) || !AllowStandsFirst(rules, req))
  {
    var rules := Flatten(policies);
    AllowedIff(policies, req, d);
    FirstMatchIsFirstAllow(rules, req);
    forall r ensures r in rules <==> r in Rules(policies) {
      FlattenHoldsRules(policies, r);
    }
    if exists r <- rules :: Allows(r, req) {
      var i :| 0 <= i < |rules| && Allows(rules[i], req);
    }
  }

  /** The rules of the example: everything may be read, then finance records may not. */
  const ALLOW_THEN_DENY := [
    MemoryRule("read", ["*"], ["*"], "allow"),
    MemoryRule("read", ["finance"], ["*"], "deny")]

  /** One policy with these rules on which the two flows differ. */
  lemma FirstMatchDiffers(p: Policy, d: Decision)
    requires p.content.memoryRules == ALLOW_THEN_DENY
    requires IsDecision([p], Request(p.agentDid, "read", "finance", "default"), d)
    ensures d == Decision(false, ExplicitDeny(p.id))
    ensures FirstMatchAllows(Flatten([p]), Request(p.agentDid, "read", "finance", "default"))
  {
    var req := Request(p.agentDid, "read", "finance", "default");
    var rules := p.content.memoryRules;
    assert rules[0].targetTypes[0] == "*" && rules[0].namespaces[0] == "*";
    assert rules[1].targetTypes[0] == "finance" && rules[1].namespaces[0] == "*";
    assert EqualFold("read", "read") && EqualFold("finance", "finance");
    assert Allows(rules[0], req) && Denies(rules[1], req);
    assert PolicyDenies([p][0], req);
    assert [p][..0] == [] && Flatten([p]) == rules;
  }

  // ------------------------------------------------------------------ personal data

  datatype PIIAction = Allow | Redact | Block

  function Severity(a: PIIAction): nat {
    match a case Allow => 0 case Redact => 1 case Block => 2
  }

  /** What a rule asks for a type of data; an unknown action asks for nothing. */
  function Asks(rule: PIIRule, piiType: string): PIIAction {
    if !ListMatches(rule.typesToRedact, piiType) then Allow
    else if rule.action == "block" then Block
    else if rule.action == "redact" then Redact
    else Allow
  }

  function PIIRules(policies: seq<Policy>): set<PIIRule> {
    set i, j | 0 <= i < |policies| && 0 <= j < |policies[i].content.piiRules| :: policies[i].content.piiRules[j]
  }

  /** The action is the most severe one any rule asks for, in whatever order the rules stand. */
  predicate IsMostSevere(rules: set<PIIRule>, piiType: string, a: PIIAction) {
    && (forall r <- rules :: Severity(Asks(r, piiType)) <= Severity(a))
    && (a != Allow ==> exists r <- rules :: Asks(r, piiType) == a)
  }

  lemma MostSevereIsUnique(rules: set<PIIRule>, piiType: string, a: PIIAction, b: PIIAction)
    requires IsMostSevere(rules, piiType, a) && IsMostSevere(rules, piiType, b)
    ensures a == b
  {
  }

  method CheckPII(policies: seq<Policy>, piiType: string) returns (action: PIIAction)
    ensures IsMostSevere(PIIRules(policies), piiType, action)
  {
    action := Allow;
    ghost var seen: set<PIIRule> := {};
    for i := 0 to |policies|
      invariant seen == PIIRules(policies[..i])
      invariant action != Block && IsMostSevere(seen, piiType, action)
    {
      var rules := policies[i].content.piiRules;
      for j := 0 to |rules|
        invariant seen == PIIRules(policies[..i]) + set k | 0 <= k < j :: rules[k]
        invariant action != Block && IsMostSevere(seen, piiType, action)
      {
        var matches := StringMatches(rules[j].typesToRedact, piiType);
        seen := seen + {rules[j]};
        if matches {
          if rules[j].action == "block" {
            assert rules[j] in PIIRules(policies);
            return Block;
          } else if rules[j].action == "redact" {
            action := Redact;
          }
        }
      }
      PIIRulesStep(policies, i);
    }
    assert policies[..|policies|] == policies;
  }

  lemma PIIRulesStep(policies: seq<Policy>, i: nat)
    requires i < |policies|
    ensures var rules := policies[i].content.piiRules;
            PIIRules(policies[..i + 1]) == PIIRules(policies[..i]) + set k | 0 <= k < |rules| :: rules[k]
  {
  }
}
