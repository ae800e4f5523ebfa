/**
 * What policies come to, said of rules, texts and seconds: when a rule matches, which rule a
 * decision names, what a personal-data check answers, how long a cached list is served, and what
 * the table's statements do.
 */
module PolicyOutcomes {
  import opened Prelude
  import opened PolicyDecision
  import opened PolicyCache

  // ------------------------------------------------------------------ matching

  /** Texts are equal but for the case of ASCII letters: 32 lies between the two cases. */
  lemma FoldOutcome(a: string, b: string)
    ensures EqualFold(a, b) <==>
              && |a| == |b|
              && forall i | 0 <= i < |a| ::
                   || a[i] == b[i]
                   || ('A' <= a[i] <= 'Z' && b[i] as int == a[i] as int + 32)
                   || ('A' <= b[i] <= 'Z' && a[i] as int == b[i] as int + 32)
  {
  }

  /** One of the texts is a star or the item. */
  predicate Names(list: seq<string>, item: string) {
    exists i | 0 <= i < |list| :: list[i] == "*" || EqualFold(list[i], item)
  }

  /** The rule is about the request: its action, its type and its namespace, each by a star or by name. */
  predicate Concerns(rule: MemoryRule, req: Request) {
    && (rule.action == "*" || EqualFold(rule.action, req.action))
    && Names(rule.targetTypes, req.memoryType)
    && Names(rule.namespaces, req.namespace)
  }

  /** Some rule of the policy concerns the request and has the effect. */
  predicate Speaks(p: Policy, req: Request, effect: string) {
    exists j | 0 <= j < |p.content.memoryRules| ::
      Concerns(p.content.memoryRules[j], req) && p.content.memoryRules[j].effect == effect
  }

  lemma SpeaksMeans(p: Policy, req: Request)
    ensures Speaks(p, req, "deny") <==> PolicyDenies(p, req)
    ensures Speaks(p, req, "allow") <==> PolicyAllows(p, req)
  {
    forall j | 0 <= j < |p.content.memoryRules|
      ensures Concerns(p.content.memoryRules[j], req) <==> Applies(p.content.memoryRules[j], req)
    {
    }
  }

  /**
   * The decision, said of rules: no policies, or else the first policy with a deny that concerns
   * the request, or else the last one with such an allow, or else none.
   */
  lemma DecisionOutcome(policies: seq<Policy>, req: Request, d: Decision, i: nat)
    requires IsDecision(policies, req, d)
    ensures policies == [] ==> d == Decision(false, NoPolicies)
    ensures i < |policies| && Speaks(policies[i], req, "deny")
            && (forall j | 0 <= j < i :: !Speaks(policies[j], req, "deny")) ==>
              d == Decision(false, ExplicitDeny(policies[i].id))
    ensures i < |policies| && Speaks(policies[i], req, "allow")
            && (forall j | i < j < |policies| :: !Speaks(policies[j], req, "allow"))
            && (forall j | 0 <= j < |policies| :: !Speaks(policies[j], req, "deny")) ==>
              d == Decision(true, AllowedBy(policies[i].id))
    ensures policies != []
            && (forall j | 0 <= j < |policies| ::
                  !Speaks(policies[j], req, "deny") && !Speaks(policies[j], req, "allow")) ==>
              d == Decision(false, NoMatchingAllow)
  {
    forall j | 0 <= j < |policies|
      ensures Speaks(policies[j], req, "deny") <==> PolicyDenies(policies[j], req)
      ensures Speaks(policies[j], req, "allow") <==> PolicyAllows(policies[j], req)
    {
      SpeaksMeans(policies[j], req);
    }
  }

  /** Some personal-data rule names the type of data and asks for the action. */
  predicate AsksFor(policies: seq<Policy>, piiType: string, action: string) {
    exists i, j | 0 <= i < |policies| && 0 <= j < |policies[i].content.piiRules| ::
      && Names(policies[i].content.piiRules[j].typesToRedact, piiType)
      && policies[i].content.piiRules[j].action == action
  }

  lemma AsksMeans(rule: PIIRule, piiType: string)
    ensures Asks(rule, piiType) == Block <==> Names(rule.typesToRedact, piiType) && rule.action == "block"
    ensures Asks(rule, piiType) == Redact <==> Names(rule.typesToRedact, piiType) && rule.action == "redact"
  {
  }

  lemma AsksForMeans(policies: seq<Policy>, piiType: string)
    ensures AsksFor(policies, piiType, "block") <==> exists r <- PIIRules(policies) :: Asks(r, piiType) == Block
    ensures AsksFor(policies, piiType, "redact") <==> exists r <- PIIRules(policies) :: Asks(r, piiType) == Redact
  {
    forall r | r in PIIRules(policies)
      ensures Asks(r, piiType) == Block <==> Names(r.typesToRedact, piiType) && r.action == "block"
      ensures Asks(r, piiType) == Redact <==> Names(r.typesToRedact, piiType) && r.action == "redact"
    {
      AsksMeans(r, piiType);
    }
  }

  /** One rule that blocks is enough to block, and otherwise one that redacts to redact. */
  lemma PIIOutcome(policies: seq<Policy>, piiType: string, action: PIIAction)
    requires IsMostSevere(PIIRules(policies), piiType, action)
    ensures action == if AsksFor(policies, piiType, "block") then Block
                      else if AsksFor(policies, piiType, "redact") then Redact else Allow
  {
    AsksForMeans(policies, piiType);
  }

  // ------------------------------------------------------------------ seconds and rows

  /** A list that is not empty, cached at t, is served for 300 seconds, and not at their end. */
  lemma ServedFor300Seconds(s: State, agent: string, policies: seq<Policy>, t: Time, delay: nat)
    requires agent in s.cache && s.cache[agent] == Cached(policies, t) && policies != []
    ensures Next(s, Served(agent, policies), s, delay) <==> s.now < t + 300 * 1_000_000_000
  {
  }

  /** A list read from the table and cached in the same instant is what the next evaluation is served. */
  lemma FetchedIsServedNext(s: State, agent: string, policies: seq<Policy>, mid: State, s': State, delay: nat)
    requires Next(s, Fetched(agent, policies), mid, delay) && Next(mid, Filled(|s.refills|), s', delay)
    ensures policies != [] ==> Next(s', Served(agent, policies), s', delay)
    ensures s'.rows == s.rows && s'.refills == s.refills && s'.now == s.now
    ensures forall other | other != agent ::
              (other in s'.cache <==> other in s.cache) && (other in s.cache ==> s'.cache[other] == s.cache[other])
  {
    assert mid.refills[..|s.refills|] == s.refills;
  }

  /** After an invalidation nothing is served for the agent, and other entries stay. */
  lemma InvalidateOutcome(s: State, agent: string, s': State, policies: seq<Policy>, delay: nat)
    requires Next(s, Invalidate(agent), s', delay)
    ensures !Next(s', Served(agent, policies), s', delay)
    ensures s'.rows == s.rows && s'.refills == s.refills && s'.now == s.now
    ensures forall other | other != agent ::
              (other in s'.cache <==> other in s.cache) && (other in s.cache ==> s'.cache[other] == s.cache[other])
  {
  }

  /** A list holds exactly the rows that name the agent, each once. */
  lemma ListedOutcome(policies: seq<Policy>, rows: Rows, agent: string, id: string)
    requires Lists(policies, rows, agent) && id in rows && forall x <- rows :: rows[x].id == x
    ensures (exists i | 0 <= i < |policies| :: policies[i] == rows[id]) <==> rows[id].agentDid == agent
    ensures forall i, j | 0 <= i < j < |policies| :: policies[i] != policies[j]
    ensures forall i | 0 <= i < |policies| :: policies[i].id in rows && policies[i] == rows[policies[i].id]
  {
    if rows[id].agentDid == agent {
      assert id in Owned(rows, agent);
    }
  }

  /**
   * A save under a new id adds a row for a registered agent; under a known id it replaces the
   * version, the rules and the time of update, whoever the saved policy names.
   */
  lemma SaveOutcome(agents: set<string>, rows: Rows, p: Policy, now: Time)
    ensures var (rows', outcome) := Save(agents, rows, p, now);
            && (outcome == Ok <==> p.id in rows || p.agentDid in agents)
            && (outcome != Ok ==> rows' == rows)
            && (outcome == Ok ==>
                  && rows'.Keys == rows.Keys + {p.id}
                  && (forall id <- rows :: id != p.id ==> rows'[id] == rows[id])
                  && (var row := rows'[p.id];
                      && row.version == p.version && row.content == p.content && row.updatedAt == now
                      && (p.id in rows ==>
                            && row.id == rows[p.id].id && row.agentDid == rows[p.id].agentDid
                            && row.createdAt == rows[p.id].createdAt)
                      && (p.id !in rows ==>
                            && row.id == p.id && row.agentDid == p.agentDid
                            && row.createdAt == (if p.createdAt == -62_135_596_800 * 1_000_000_000
                                                 then now else p.createdAt))))
  {
  }

  /** Forgetting deletes exactly the rows that name the agent. */
  lemma ForgetOutcome(s: State, agent: string, s': State, delay: nat, id: string)
    requires Next(s, Forget(agent), s', delay)
    ensures id in s'.rows <==> id in s.rows && s.rows[id].agentDid != agent
    ensures id in s'.rows ==> s'.rows[id] == s.rows[id]
    ensures s'.cache == s.cache
  {
  }
}
