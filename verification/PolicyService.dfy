/** The policy store, its cache and the evaluator in front of them, as objects that change. */
module PolicyService {
  import opened Prelude
  import opened PolicyDecision
  import opened PolicyCache

  /** Which of the calls to the cache and to the table fail during one evaluation. */
  datatype Faults = Faults(cacheRead: bool, tableRead: bool, cacheWrite: bool)

  /** One evaluation with an immediate cache write: a hit, or a fetch whose write arrives or is lost. */
  ghost predicate EvaluatesWith(s: State, agent: string, policies: seq<Policy>, s': State) {
    || Next(s, Served(agent, policies), s', 0)
    || exists mid ::
         && Next(s, Fetched(agent, policies), mid, 0)
         && (Next(mid, Filled(0), s', 0) || Next(mid, Dropped(0), s', 0))
  }

  lemma EvaluatesByFetch(s: State, agent: string, policies: seq<Policy>, s': State, wrote: bool)
    requires s.refills == [] && Lists(policies, s.rows, agent)
    requires s' == if wrote then s.(cache := s.cache[agent := Cached(policies, s.now)]) else s
    ensures EvaluatesWith(s, agent, policies, s')
  {
    var mid := s.(refills := [Refill(agent, policies, s.now)]);
    assert Next(s, Fetched(agent, policies), mid, 0);
    assert if wrote then Next(mid, Filled(0), s', 0) else Next(mid, Dropped(0), s', 0);
  }

  class Evaluator {
    var agents: set<string>
    var rows: Rows
    var cache: map<string, Cached>
    const cached: bool   // false when the evaluator is built without a cache

    constructor (cached: bool)
      ensures Valid() && this.cached == cached && agents == {} && rows == map[] && cache == map[]
    {
      this.cached := cached;
      agents, rows, cache := {}, map[], map[];
    }

    /** Rows are stored under their own ids. */
    predicate Valid()
      reads this
    {
      forall id <- rows :: rows[id].id == id
    }

    /** The state as the runs see it; no cache write is pending between calls. */
    function Now(now: Time): State
      reads this
    {
      State(now, agents, rows, cache, [])
    }

    method Register(agent: string, now: Time)
      requires Valid()
      modifies this
      ensures Valid() && Next(old(Now(now)), RegisterAgent(agent), Now(now), 0)
    {
      agents := agents + {agent};
    }

    method SavePolicy(p: Policy, now: Time) returns (outcome: Outcome)
      requires Valid()
      modifies this
      ensures Valid() && Next(old(Now(now)), PolicyCache.SavePolicy(p), Now(now), 0)
      ensures outcome == Save(old(agents), old(rows), p, now).1
    {
      if p.id in rows {
        rows := rows[p.id := rows[p.id].(version := p.version, content := p.content, updatedAt := now)];
        return Ok;
      }
      if p.agentDid !in agents { return Fail(ForeignKey); }
      var created := p.createdAt;
      if created == ZERO_TIME { created := now; }
      rows := rows[p.id := p.(createdAt := created, updatedAt := now)];
      return Ok;
    }

    method Invalidate(agent: string, now: Time)
      requires Valid()
      modifies this
      ensures Valid() && Next(old(Now(now)), PolicyCache.Invalidate(agent), Now(now), 0)
    {
      cache := cache - {agent};
    }

    method Forget(agent: string, now: Time)
      requires Valid()
      modifies this
      ensures Valid() && Next(old(Now(now)), PolicyCache.Forget(agent), Now(now), 0)
    {
      rows := ForgetRows(rows, agent);
    }

    /** SELECT without an order: the agent's rows in any order. */
    method ListPolicies(agent: string) returns (policies: seq<Policy>)
      requires Valid()
      ensures Lists(policies, rows, agent)
    {
      policies := [];
      var remaining := Owned(rows, agent);
      while remaining != {}
        invariant remaining <= Owned(rows, agent)
        invariant forall i | 0 <= i < |policies| ::
                    && policies[i].id in Owned(rows, agent) && policies[i].id !in remaining
                    && policies[i] == rows[policies[i].id]
        invariant forall i, j | 0 <= i < j < |policies| :: policies[i].id != policies[j].id
        invariant forall id <- Owned(rows, agent) ::
                    id in remaining || exists i | 0 <= i < |policies| :: policies[i].id == id
        decreases remaining
      {
        var id :| id in remaining;
        ghost var before := policies;
        policies := policies + [rows[id]];
        remaining := remaining - {id};
        assert policies[|before|].id == id;
        assert forall i | 0 <= i < |before| :: policies[i] == before[i];
      }
    }

    /** Cache first; then the table, whose list is written back with a fresh expiry. */
    method GetPolicies(agent: string, now: Time, faults: Faults) returns (result: Result<seq<Policy>>)
      requires Valid()
      modifies this`cache
      ensures result.Failure? ==> cache == old(cache)
      ensures result.Success? ==> EvaluatesWith(old(Now(now)), agent, result.value, Now(now))
      ensures var served := cached && !faults.cacheRead && agent in old(cache) && old(cache)[agent].policies != []
                            && now < old(cache)[agent].setAt + 300 * 1_000_000_000;
              if served then result == Success(old(cache)[agent].policies) && cache == old(cache)
              else if faults.tableRead then result.Failure?
              else result.Success? && Lists(result.value, rows, agent)
                   && cache == if cached && !faults.cacheWrite
                               then old(cache)[agent := Cached(result.value, now)] else old(cache)
    {
      if cached && !faults.cacheRead && agent in cache && now < cache[agent].setAt + TTL {
        if cache[agent].policies != [] {
          return Success(cache[agent].policies);
        }
      }
      if faults.tableRead { return Failure(StoreUnavailable); }
      var policies := ListPolicies(agent);
      if cached && !faults.cacheWrite {
        cache := cache[agent := Cached(policies, now)];
      }
      EvaluatesByFetch(old(Now(now)), agent, policies, Now(now), cached && !faults.cacheWrite);
      return Success(policies);
    }

    /** Denied when the policies cannot be read, otherwise the deny-overrides decision on the list used. */
    method Evaluate(req: Request, now: Time, faults: Faults)
      returns (d: Decision, ghost used: Option<seq<Policy>>)
      requires Valid()
      modifies this`cache
      ensures used.None? ==> d == Decision(false, RetrievalFailed) && cache == old(cache)
      ensures used.Some? ==> EvaluatesWith(old(Now(now)), req.agentDid, used.value, Now(now))
      ensures used.Some? ==> IsDecision(used.value, req, d)
    {
      var result := GetPolicies(req.agentDid, now, faults);
      if result.Failure? {
        return Decision(false, RetrievalFailed), None;
      }
      used := Some(result.value);
      d := Decide(result.value, req);
    }

    /** Blocks when the policies cannot be read, otherwise takes the most severe action asked for. */
    method CheckPIIFor(agent: string, piiType: string, now: Time, faults: Faults)
      returns (action: PIIAction, ghost used: Option<seq<Policy>>)
      requires Valid()
      modifies this`cache
      ensures used.None? ==> action == Block && cache == old(cache)
      ensures used.Some? ==> EvaluatesWith(old(Now(now)), agent, used.value, Now(now))
      ensures used.Some? ==> IsMostSevere(PIIRules(used.value), piiType, action)
    {
      var result := GetPolicies(agent, now, faults);
      if result.Failure? {
        return Block, None;
      }
      used := Some(result.value);
      action := CheckPII(result.value, piiType);
    }
  }
}
