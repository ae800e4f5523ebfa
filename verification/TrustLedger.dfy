/** The trust layer's stores over one database, as methods that update their tables in place. */
module TrustLedger {
  import opened Prelude
  import T = TrustTables

  class Ledger {
    var agents: map<string, T.Agent>
    var verifications: map<string, T.Verification>
    var attestations: seq<T.Attestation>
    var events: seq<T.Event>

    function Tables(): T.Tables
      reads this
    {
      T.Tables(agents, verifications, attestations, events)
    }

    constructor ()
      ensures Tables() == T.EMPTY
    {
      agents, verifications, attestations, events := map[], map[], [], [];
    }

    method SetScore(did: string, score: int, now: Time)
      modifies `agents
      ensures Tables() == T.WithScore(old(Tables()), did, score, now)
    {
      if did in agents {
        agents := agents[did := agents[did].(score := score, lastActiveAt := now)];
      }
    }

    method Register(did: string, agent: T.Agent, now: Time) returns (outcome: Outcome)
      modifies this
      ensures (Tables(), outcome) == T.Register(old(Tables()), did, agent, now)
    {
      if did == "" { return Fail(EmptyDid); }
      if agent.publicKey == "" { return Fail(EmptyKey); }
      var row := agent;
      if row.createdAt == ZERO_TIME { row := row.(createdAt := now); }
      if row.lastActiveAt == ZERO_TIME { row := row.(lastActiveAt := now); }
      if row.score == 0 { row := row.(score := T.DEFAULT_SCORE); }
      if did in agents { return Fail(AlreadyExists); }
      agents := agents[did := row];
      return Ok;
    }

    method Update(did: string, score: int, lastActiveAt: Time) returns (outcome: Outcome)
      modifies this
      ensures (Tables(), outcome) == T.Update(old(Tables()), did, score, lastActiveAt)
    {
      if did !in agents { return Fail(AgentNotFound); }
      SetScore(did, score, lastActiveAt);
      return Ok;
    }

    method LogEvent(did: string, kind: string, change: int, now: Time) returns (outcome: Outcome)
      modifies this
      ensures (Tables(), outcome) == T.LogEvent(old(Tables()), did, kind, change, now)
    {
      if did !in agents { return Fail(ForeignKey); }
      events := events + [T.Event(did, kind, change, now)];
      var newScore := agents[did].score + change;
      if newScore < 0 { newScore := 0; }
      if newScore > 1000 { newScore := 1000; }
      SetScore(did, newScore, now);
      return Ok;
    }

    method Recalculate(did: string, now: Time) returns (result: Result<int>)
      modifies this
      ensures (Tables(), result) == T.Recalculate(old(Tables()), did, now)
    {
      if did !in agents { return Failure(AgentNotFound); }
      var score := T.CalculateReputation(T.FactorsOf(Tables(), did, now));
      agents := agents[did := agents[did].(score := score)];
      return Success(score);
    }

    method SaveAttestation(a: T.Attestation, now: Time) returns (outcome: Outcome)
      modifies this
      ensures (Tables(), outcome) == T.SaveAttestation(old(Tables()), a, now)
    {
      if a.memoryId == "" { return Fail(EmptyMemoryId); }
      if a.agent == "" { return Fail(EmptyDid); }
      if |a.signature| == 0 { return Fail(EmptySignature); }
      var row := a;
      if row.createdAt == ZERO_TIME { row := row.(createdAt := now); }
      if !T.ReadsAsUuid(a.memoryId) { return Fail(InvalidUuid); }
      if a.agent !in agents { return Fail(ForeignKey); }
      attestations := attestations + [row];
      var newScore := agents[a.agent].score + 25;
      if newScore > 1000 { newScore := 1000; }
      SetScore(a.agent, newScore, now);
      return Ok;
    }

    /** Picks any candidate of the highest score; the database breaks ties at random. */
    method SelectVerifier(target: string, minReputation: int) returns (verifier: Option<string>)
      ensures verifier.None? <==> forall d <- agents :: d == target || agents[d].score < minReputation
      ensures verifier.Some? ==>
                && verifier.value in agents && verifier.value != target
                && agents[verifier.value].score >= minReputation
                && forall d <- agents :: d != target ==> agents[d].score <= agents[verifier.value].score
    {
      verifier := None;
      var rest := agents.Keys;
      while rest != {}
        invariant rest <= agents.Keys
        invariant verifier.None? ==>
                    forall d <- agents :: d in rest || d == target || agents[d].score < minReputation
        invariant verifier.Some? ==>
                    && verifier.value in agents && verifier.value != target
                    && agents[verifier.value].score >= minReputation
                    && forall d <- agents :: d !in rest && d != target ==>
                         agents[d].score <= agents[verifier.value].score
        decreases rest
      {
        var d :| d in rest;
        rest := rest - {d};
        if d != target && agents[d].score >= minReputation
           && (verifier.None? || agents[d].score >= agents[verifier.value].score) {
          verifier := Some(d);
        }
      }
    }

    method CreateVerification(id: string, target: string, verifier: string, now: Time)
      returns (outcome: Outcome)
      modifies this
      ensures (Tables(), outcome) == T.CreateVerification(old(Tables()), id, target, verifier, now)
    {
      if target == "" || verifier == "" { return Fail(EmptyParty); }
      if target == verifier { return Fail(SelfVerification); }
      if id in verifications { return Fail(AlreadyExists); }
      if target !in agents || verifier !in agents { return Fail(ForeignKey); }
      verifications := verifications[id := T.Verification(target, verifier, T.Pending, now)];
      return Ok;
    }

    /** A score that cannot be read is skipped without an error. */
    method SubmitVerificationResult(id: string, success: bool, now: Time) returns (outcome: Outcome)
      modifies this
      ensures (Tables(), outcome) == T.Submit(old(Tables()), id, success, now)
    {
      if id !in verifications { return Fail(VerificationNotFound); }
      var v := verifications[id];
      if v.status != T.Pending { return Fail(AlreadySettled); }
      var newStatus := T.Failed;
      if success { newStatus := T.Completed; }
      verifications := verifications[id := v.(status := newStatus)];
      if success {
        if v.verifier in agents {
          var verifierScore := agents[v.verifier].score + 50;
          if verifierScore > 1000 { verifierScore := 1000; }
          SetScore(v.verifier, verifierScore, now);
        }
      } else {
        if v.target in agents {
          var targetScore := agents[v.target].score - 100;
          if targetScore < 0 { targetScore := 0; }
          SetScore(v.target, targetScore, now);
          events := events + [T.Event(v.target, T.VIOLATION, -100, now)];
        }
      }
      return Ok;
    }

    /** The agents part of the right to be forgotten. */
    method Revoke(did: string)
      modifies this
      ensures Tables() == T.Revoke(old(Tables()), did)
    {
      if did in agents {
        agents := agents[did := agents[did].(publicKey := "", score := 0)];
      }
    }

    /** The API's way to schedule a verification: select, then create. */
    method Schedule(id: string, target: string, now: Time) returns (outcome: Outcome)
      requires "" !in agents
      modifies this
      ensures outcome.Ok? <==>
                && old(target != "" && target in agents && id !in verifications)
                && exists d :: d in old(agents) && d != target && old(agents)[d].score >= 500
      ensures outcome.Ok? ==>
                && id in verifications
                && var v := verifications[id];
                && v.target == target && v.verifier != target && v.status == T.Pending
                && v.verifier in old(agents) && old(agents)[v.verifier].score >= 500
                && Tables() == old(Tables()).(verifications := old(verifications)[id := v])
      ensures outcome.Fail? ==> Tables() == old(Tables())
    {
      var verifier := SelectVerifier(target, 500);
      if verifier.None? {
        return Fail(AgentNotFound);
      }
      outcome := CreateVerification(id, target, verifier.value, now);
    }
  }
}
