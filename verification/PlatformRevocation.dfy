/**
 * What forgetting an agent does, and does not do, to its later writes; and what a signature binds.
 */
module PlatformRevocation {
  import opened Prelude
  import opened SaturatingScore
  import opened MemoryTypes
  import opened MemoryTable
  import opened MemoryOutcomes
  import opened Platform
  import opened PlatformRuns
  import opened PlatformProjections
  import T = TrustTables
  import L = LedgerRuns
  import W = WorkingStore
  import P = PolicyCache

  // ------------------------------------------------------------------ forgetting

  /**
   * Forget, said of rows: every live memory of the agent is marked, whatever its type, every policy
   * that names it is deleted, its key is empty and its score 0; no other row, policy, key or score
   * changes, and working memory stays as it is.
   */
  lemma ForgetIsExact(s: State, agent: string, now: Time)
    ensures var s' := Forget(s, agent, now);
            && s'.memories.Keys == s.memories.Keys
            && (forall id <- s.memories ::
                  && s'.memories[id].memory == s.memories[id].memory
                  && s'.memories[id].deletedAt
                       == if s.memories[id].deletedAt == None && s.memories[id].memory.agentDid == agent
                          then Some(now) else s.memories[id].deletedAt)
            && (forall id :: id in s'.policies <==> id in s.policies && s.policies[id].agentDid != agent)
            && (forall id <- s'.policies :: s'.policies[id] == s.policies[id])
            && s'.ledger.agents.Keys == s.ledger.agents.Keys
            && (forall a <- s.ledger.agents ::
                  s'.ledger.agents[a]
                    == if a == agent then s.ledger.agents[a].(publicKey := "", score := 0) else s.ledger.agents[a])
            && s'.ledger.events == s.ledger.events && s'.ledger.attestations == s.ledger.attestations
            && s'.ledger.verifications == s.ledger.verifications
            && s'.working == s.working
  {
    ForgetRowsOutcome(s.memories, agent, now);
  }

  /** So right after Forget no read returns a persistent memory of the agent, and no export an entry. */
  lemma ForgottenIsUnreadable(s: State, agent: string, now: Time, id: Uuid, kind: MemoryType, out: seq<Exported>)
    requires kind != Working && IsExport(Forget(s, agent, now).memories, agent, out)
    ensures var answer := Retrieve(Forget(s, agent, now), id, kind, now);
            answer.Success? ==> answer.value.agentDid != agent
    ensures out == []
  {
    if out != [] {
      ExportOutcome(Forget(s, agent, now).memories, agent, out, out[0].id);
    }
  }

  /** Every row and every policy belongs to a registered agent. */
  ghost predicate OwnersRegistered(s: State) {
    && (forall id <- s.memories :: s.memories[id].memory.agentDid in s.ledger.agents)
    && (forall id <- s.policies :: s.policies[id].agentDid in s.ledger.agents)
  }

  lemma AgentsStay(cfg: Config, s: State, step: Step)
    ensures s.ledger.agents.Keys <= Apply(cfg, s, step).ledger.agents.Keys
  {
    LedgerPartCorrect(cfg, s, step);
    if LedgerPart(cfg, s, step) != [] {
      L.ApplyKeepsAgents(s.ledger, LedgerPart(cfg, s, step)[0]);
    }
  }

  lemma RowOwnersStep(cfg: Config, s: State, step: Step)
    requires forall id <- s.memories :: s.memories[id].memory.agentDid in s.ledger.agents
    ensures var t := NextMemories(cfg, s, step);
            forall id <- t :: t[id].memory.agentDid in s.ledger.agents
  {
  }

  lemma VerifiedStoreLeavesPolicies(cfg: Config, s: State, req: StoreRequest, signature: Option<T.Bytes>, id: Uuid, now: Time)
    ensures StoreWithVerification(cfg, s, req, signature, id, now).0.policies == s.policies
  {
  }

  lemma PolicyOwnersStep(cfg: Config, s: State, step: Step)
    requires forall id <- s.policies :: s.policies[id].agentDid in s.ledger.agents
    ensures var rows := Apply(cfg, s, step).policies;
            forall id <- rows :: rows[id].agentDid in s.ledger.agents
  {
    if step.op.StoreVerifiedOp? {
      VerifiedStoreLeavesPolicies(cfg, s, step.op.req, step.op.signature, step.op.id, step.at);
    }
  }

  lemma {:induction false} OwnersStayRegistered(cfg: Config, steps: seq<Step>)
    ensures OwnersRegistered(Run(cfg, EMPTY, steps))
  {
    if steps != [] {
      var front, last := steps[..|steps| - 1], steps[|steps| - 1];
      var before := Run(cfg, EMPTY, front);
      OwnersStayRegistered(cfg, front);
      AgentsStay(cfg, before, last);
      MemoriesFollow(cfg, before, last);
      RowOwnersStep(cfg, before, last);
      PolicyOwnersStep(cfg, before, last);
    }
  }

  /** Forgetting an agent that is not registered changes nothing at all. */
  lemma ForgetUnknownChangesNothing(cfg: Config, steps: seq<Step>, agent: string, at: Time)
    requires agent !in Run(cfg, EMPTY, steps).ledger.agents
    ensures Forget(Run(cfg, EMPTY, steps), agent, at) == Run(cfg, EMPTY, steps)
  {
    var s := Run(cfg, EMPTY, steps);
    OwnersStayRegistered(cfg, steps);
    assert OwnedBy(s.memories, agent) == {};
    assert Mark(s.memories, {}, at) == s.memories;
    assert P.ForgetRows(s.policies, agent) == s.policies;
  }

  // ------------------------------------------------------------------ signed writes of a forgotten agent

  /** The agent is registered and its key has been cleared. */
  predicate Revoked(t: T.Tables, agent: string) {
    agent in t.agents && t.agents[agent].publicKey == ""
  }

  lemma TrustKeepsRevoked(t: T.Tables, step: L.Step, agent: string)
    requires Revoked(t, agent)
    ensures Revoked(L.Apply(t, step), agent)
  {
  }

  lemma StepKeepsRevoked(cfg: Config, s: State, step: Step, agent: string)
    requires Revoked(s.ledger, agent)
    ensures Revoked(Apply(cfg, s, step).ledger, agent)
  {
    LedgerPartCorrect(cfg, s, step);
    if LedgerPart(cfg, s, step) != [] {
      TrustKeepsRevoked(s.ledger, LedgerPart(cfg, s, step)[0], agent);
    }
  }

  lemma {:induction false} RunKeepsRevoked(cfg: Config, s: State, steps: seq<Step>, agent: string)
    requires Revoked(s.ledger, agent)
    ensures Revoked(Run(cfg, s, steps).ledger, agent)
  {
    if steps != [] {
      RunKeepsRevoked(cfg, s, steps[..|steps| - 1], agent);
      StepKeepsRevoked(cfg, Run(cfg, s, steps[..|steps| - 1]), steps[|steps| - 1], agent);
    }
  }

  /**
   * Revocation is permanent where signatures are checked: after Forget of a registered agent,
   * whatever is done next, a router with a trust port refuses every store it signs for its
   * signature; a router without one never does, and its stores are plain stores.
   */
  lemma ForgottenNeverSigns(cfg: Config, s: State, at: Time, steps: seq<Step>, req: StoreRequest,
                            signature: T.Bytes, id: Uuid, now: Time)
    ensures var after := Run(cfg, Forget(s, req.agentDid, at), steps);
            var (s', result) := StoreWithVerification(cfg, after, req, Some(signature), id, now);
            && (cfg.trusted && req.agentDid in s.ledger.agents ==>
                  s' == after && result == Failure(InvalidSignature))
            && (!cfg.trusted ==>
                  PlainlyStored(cfg, after, NewMemory(req, id, now), now, s', result)
                  && result != Failure(InvalidSignature))
  {
    if req.agentDid in s.ledger.agents {
      RunKeepsRevoked(cfg, Forget(s, req.agentDid, at), steps, req.agentDid);
    }
  }

  /** An agent that was unknown when it was forgotten may register afterwards, and then its signatures count. */
  lemma UnknownSignsAfterRegistering(cfg: Config, s: State, at: Time, agent: T.Agent, req: StoreRequest,
                                     signature: T.Bytes, id: Uuid, now: Time)
    requires cfg.trusted && req.agentDid != "" && req.agentDid !in s.ledger.agents && agent.score == 0
    requires VerifyMemorySignature(cfg.verify, agent.publicKey, NIL_UUID, SignedContent(req), signature)
    requires !req.kind.Working? && !req.kind.Other? && id !in s.memories
    ensures var after := Apply(cfg, Forget(s, req.agentDid, at), Step(Trust(L.DoRegister(req.agentDid, agent)), now));
            StoreWithVerification(cfg, after, req, Some(signature), id, now).1 == Success(NewMemory(req, id, now))
  {
  }

  /** The store's state and outcome are those of `Store`. */
  predicate PlainlyStored(cfg: Config, s: State, m: Memory, now: Time, s': State, result: Result<Memory>) {
    && s' == Store(cfg, s, m, now).0
    && result == if Store(cfg, s, m, now).1.Ok? then Success(m) else Failure(Store(cfg, s, m, now).1.error)
  }

  /**
   * So without a trust port, as the API builds its router, a forgotten agent's store with any
   * signature whatever still succeeds and can be read back.
   */
  lemma ForgottenStillStoresUntrusted(cfg: Config, s: State, agent: string, at: Time, steps: seq<Step>,
                                      req: StoreRequest, signature: T.Bytes, id: Uuid, now: Time)
    requires !cfg.trusted && agent in s.ledger.agents && req.agentDid == agent
    requires !req.kind.Working? && !req.kind.Other? && id !in Run(cfg, Forget(s, agent, at), steps).memories
    ensures var after := Run(cfg, Forget(s, agent, at), steps);
            var (s', result) := StoreWithVerification(cfg, after, req, Some(signature), id, now);
            && result == Success(NewMemory(req, id, now))
            && Retrieve(s', id, req.kind, now) == Success(WireImage(result.value))
  {
    RunKeepsRevoked(cfg, Forget(s, agent, at), steps, agent);
  }

  // ------------------------------------------------------------------ unsigned writes of a forgotten agent

  /** The gate for an unsigned store by a registered agent is its score. */
  lemma UnsignedStore(cfg: Config, s: State, req: StoreRequest, id: Uuid, now: Time)
    requires cfg.trusted && req.agentDid in s.ledger.agents && W.LatestKeysSorted(s.working)
    ensures StoreWithVerification(cfg, s, req, None, id, now).1.Success? <==>
              s.ledger.agents[req.agentDid].score >= 100 && Takes(cfg, s, NewMemory(req, id, now), now)
  {
    TakenIsStored(cfg, s, NewMemory(req, id, now), now);
  }

  /**
   * After Forget, an unsigned store passes a router with a trust port exactly when the agent has
   * gained 100 points since, counting from 0 and saturating, and the backend takes the memory.
   */
  lemma ForgottenUnsignedStore(cfg: Config, s: State, at: Time, steps: seq<Step>, req: StoreRequest, id: Uuid, now: Time)
    requires cfg.trusted && req.agentDid in s.ledger.agents
    requires L.WellFormed(s.ledger) && W.LatestKeysSorted(s.working)
    requires forall step <- steps :: Undisturbed(step.op, req.agentDid)
    ensures var agent, forgotten := req.agentDid, Forget(s, req.agentDid, at);
            var after := Run(cfg, forgotten, steps);
            StoreWithVerification(cfg, after, req, None, id, now).1.Success? <==>
              && ApplyAll(0, L.DeltasOf(forgotten.ledger, LedgerSteps(cfg, forgotten, steps), agent)) >= 100
              && Takes(cfg, after, NewMemory(req, id, now), now)
  {
    var agent, forgotten := req.agentDid, Forget(s, req.agentDid, at);
    var after := Run(cfg, forgotten, steps);
    L.ApplyWellFormed(s.ledger, L.Step(L.DoRevoke(agent), at));
    UndisturbedSteps(cfg, forgotten, steps, agent);
    LedgerProjection(cfg, forgotten, steps);
    L.RunMovesByDeltas(forgotten.ledger, LedgerSteps(cfg, forgotten, steps), agent);
    LatestStaysSorted(cfg, forgotten, steps);
    UnsignedStore(cfg, after, req, id, now);
  }

  /** Recalculation does not see that an agent was forgotten. */
  lemma RecalculationIgnoresForget(t: T.Tables, agent: string, now: Time)
    requires agent in t.agents
    ensures T.Recalculate(T.Revoke(t, agent), agent, now).1 == T.Recalculate(t, agent, now).1
  {
    assert T.CompletedIds(T.Revoke(t, agent), agent) == T.CompletedIds(t, agent);
  }

  lemma RecalculatedAfterForget(cfg: Config, s: State, agent: string, at: Time, again: Time)
    requires agent in s.ledger.agents
    ensures var after := Apply(cfg, Forget(s, agent, at), Step(Trust(L.DoRecalculate(agent)), again));
            && after.working == s.working && after.memories.Keys == s.memories.Keys
            && agent in after.ledger.agents
            && after.ledger.agents[agent].score == T.Recalculate(s.ledger, agent, again).1.value
  {
    RecalculationIgnoresForget(s.ledger, agent, again);
  }

  /**
   * One recalculation gives the score back: the agent's unsigned stores then pass exactly when its
   * rows, as they were before Forget, are worth 100 points, and the backend takes the memory.
   */
  lemma RecalculationUndoesForget(cfg: Config, s: State, at: Time, again: Time, req: StoreRequest, id: Uuid, now: Time)
    requires cfg.trusted && req.agentDid in s.ledger.agents && W.LatestKeysSorted(s.working)
    ensures var agent := req.agentDid;
            var after := Apply(cfg, Forget(s, agent, at), Step(Trust(L.DoRecalculate(agent)), again));
            StoreWithVerification(cfg, after, req, None, id, now).1.Success? <==>
              && T.Recalculate(s.ledger, agent, again).1.value >= 100
              && Takes(cfg, s, NewMemory(req, id, now), now)
  {
    var agent := req.agentDid;
    var after := Apply(cfg, Forget(s, agent, at), Step(Trust(L.DoRecalculate(agent)), again));
    RecalculatedAfterForget(cfg, s, agent, at, again);
    UnsignedStore(cfg, after, req, id, now);
  }

  // ------------------------------------------------------------------ what a signature binds

  /** The step does not clear the agent's key; none can write another one. */
  predicate LeavesKey(op: Op, agent: string) {
    op != ForgetOp(agent) && op != Trust(L.DoRevoke(agent))
  }

  lemma LedgerLeavesKey(t: T.Tables, step: L.Step, agent: string)
    requires agent in t.agents && step.op != L.DoRevoke(agent)
    ensures agent in L.Apply(t, step).agents && L.Apply(t, step).agents[agent].publicKey == t.agents[agent].publicKey
  {
  }

  lemma {:induction false} KeyStays(cfg: Config, s: State, steps: seq<Step>, agent: string)
    requires agent in s.ledger.agents && forall step <- steps :: LeavesKey(step.op, agent)
    ensures agent in Run(cfg, s, steps).ledger.agents
    ensures Run(cfg, s, steps).ledger.agents[agent].publicKey == s.ledger.agents[agent].publicKey
  {
    if steps != [] {
      var front, last := steps[..|steps| - 1], steps[|steps| - 1];
      KeyStays(cfg, s, front, agent);
      LedgerPartCorrect(cfg, Run(cfg, s, front), last);
      if LedgerPart(cfg, Run(cfg, s, front), last) != [] {
        LedgerLeavesKey(Run(cfg, s, front).ledger, LedgerPart(cfg, Run(cfg, s, front), last)[0], agent);
      }
    }
  }

  /**
   * A signature binds the agent and the content, and nothing else: once accepted, it is as good as
   * no signature at all for every later store of the same content by the agent, whatever the type,
   * namespace, metadata and id, until the agent is forgotten.
   */
  lemma SignatureBindsContentOnly(cfg: Config, s: State, steps: seq<Step>, req: StoreRequest, other: StoreRequest,
                                  signature: T.Bytes, id: Uuid, now: Time)
    requires cfg.trusted && Gate(cfg, s, req, Some(signature)).Ok?
    requires other.agentDid == req.agentDid && SignedContent(other) == SignedContent(req)
    requires forall step <- steps :: LeavesKey(step.op, req.agentDid)
    ensures var after := Run(cfg, s, steps);
            StoreWithVerification(cfg, after, other, Some(signature), id, now)
              == StoreWithVerification(cfg, after, other, None, id, now)
  {
    KeyStays(cfg, s, steps, req.agentDid);
  }
}
