/**
 * A run of the whole platform, seen from the ledger or from working memory, is a run of that part
 * alone. So what holds over every run of a part holds inside every run of the platform.
 */
module PlatformProjections {
  import opened Prelude
  import opened MemoryTypes
  import opened Platform
  import opened PlatformRuns
  import T = TrustTables
  import L = LedgerRuns
  import W = WorkingStore

  /** What one platform step does to the ledger, as ledger steps. */
  ghost function LedgerPart(cfg: Config, s: State, step: Step): seq<L.Step> {
    match step.op
    case Trust(op) => [L.Step(op, step.at)]
    case StoreVerifiedOp(req, signature, id) =>
      if cfg.trusted && StoreWithVerification(cfg, s, req, signature, id, step.at).1.Success?
      then [L.Step(L.DoLogEvent(req.agentDid, STORE_EVENT, STORE_REWARD), step.at)]
      else []
    case ForgetOp(agent) => [L.Step(L.DoRevoke(agent), step.at)]
    case _ => []
  }

  ghost function LedgerSteps(cfg: Config, s: State, steps: seq<Step>): seq<L.Step> {
    if steps == [] then []
    else
      var front := steps[..|steps| - 1];
      LedgerSteps(cfg, s, front) + LedgerPart(cfg, Run(cfg, s, front), steps[|steps| - 1])
  }

  lemma LedgerPartCorrect(cfg: Config, s: State, step: Step)
    ensures |LedgerPart(cfg, s, step)| <= 1
    ensures Apply(cfg, s, step).ledger ==
              if LedgerPart(cfg, s, step) == [] then s.ledger else L.Apply(s.ledger, LedgerPart(cfg, s, step)[0])
  {
  }

  /** Seen from the ledger, every platform run is a ledger run. */
  lemma {:induction false} LedgerProjection(cfg: Config, s: State, steps: seq<Step>)
    ensures Run(cfg, s, steps).ledger == L.Run(s.ledger, LedgerSteps(cfg, s, steps))
  {
    if steps != [] {
      var front, last := steps[..|steps| - 1], steps[|steps| - 1];
      var before := Run(cfg, s, front);
      LedgerProjection(cfg, s, front);
      LedgerPartCorrect(cfg, before, last);
      var part := LedgerPart(cfg, before, last);
      var done := LedgerSteps(cfg, s, front);
      if part == [] {
        assert done + part == done;
      } else {
        assert part == [part[0]] && (done + part)[..|done|] == done;
      }
    }
  }

  /** The step neither forgets the agent nor overwrites its score, and the API's rules hold. */
  predicate Undisturbed(op: Op, agent: string) {
    match op
    case Trust(trustOp) => L.ApiStep(trustOp, agent)
    case ForgetOp(a) => a != agent
    case _ => true
  }

  lemma {:induction false} UndisturbedSteps(cfg: Config, s: State, steps: seq<Step>, agent: string)
    requires forall step <- steps :: Undisturbed(step.op, agent)
    ensures forall step <- LedgerSteps(cfg, s, steps) :: L.ApiStep(step.op, agent)
  {
    if steps != [] {
      UndisturbedSteps(cfg, s, steps[..|steps| - 1], agent);
    }
  }

  /**
   * Conservation on the whole platform: through memory stores, updates, expiries and the
   * forgetting of others, an agent's score is what its rows say plus what saturation clipped.
   */
  lemma PlatformConservation(cfg: Config, steps: seq<Step>, agent: string)
    requires forall step <- steps :: Undisturbed(step.op, agent)
    ensures var t := Run(cfg, EMPTY, steps).ledger;
            agent in t.agents ==>
              t.agents[agent].score
                == L.Earned(t, agent) + L.Clipped(T.EMPTY, LedgerSteps(cfg, EMPTY, steps), agent)
  {
    LedgerProjection(cfg, EMPTY, steps);
    UndisturbedSteps(cfg, EMPTY, steps, agent);
    L.Conservation(LedgerSteps(cfg, EMPTY, steps), agent);
  }

  /** The backend of the memory's type takes it. */
  predicate Takes(cfg: Config, s: State, m: Memory, now: Time) {
    if m.kind.Working? then W.Accepts(cfg.ttl, m, now) else !m.kind.Other? && m.id !in s.memories
  }

  /** The signature is over the nil UUID and the content, by the agent's registered key. */
  predicate Signs(cfg: Config, t: T.Tables, m: Memory, signature: T.Bytes)
    requires m.agentDid in t.agents
  {
    VerifyMemorySignature(cfg.verify, t.agents[m.agentDid].publicKey, NIL_UUID, WireImage(m).content, signature)
  }

  lemma TakenIsStored(cfg: Config, s: State, m: Memory, now: Time)
    requires W.LatestKeysSorted(s.working) && m.agentDid in s.ledger.agents
    requires m.distilledFrom.None? && m.embedding == []
    ensures Store(cfg, s, m, now).1.Ok? <==> Takes(cfg, s, m, now)
  {
    W.PutIsAllOrNothing(s.working, cfg.ttl, m, now);
  }

  /**
   * Who may write: in every platform run that leaves the agent's score to its writers, a store
   * through the trust gate succeeds exactly when the agent is registered, its rows and the clipped
   * points account for at least 100, its signature verifies if there is one, and the backend takes
   * the memory.
   */
  lemma WriteNeedsEarnedHundred(cfg: Config, steps: seq<Step>, req: StoreRequest, signature: Option<T.Bytes>,
                                id: Uuid, now: Time)
    requires cfg.trusted && forall step <- steps :: Undisturbed(step.op, req.agentDid)
    ensures var s, agent, m := Run(cfg, EMPTY, steps), req.agentDid, NewMemory(req, id, now);
            StoreWithVerification(cfg, s, req, signature, id, now).1.Success? <==>
              (&& agent in s.ledger.agents
               && L.Earned(s.ledger, agent) + L.Clipped(T.EMPTY, LedgerSteps(cfg, EMPTY, steps), agent) >= 100
               && (signature.Some? ==> Signs(cfg, s.ledger, m, signature.value))
               && Takes(cfg, s, m, now))
  {
    var s := Run(cfg, EMPTY, steps);
    PlatformConservation(cfg, steps, req.agentDid);
    LatestStaysSorted(cfg, EMPTY, steps);
    if req.agentDid in s.ledger.agents {
      TakenIsStored(cfg, s, NewMemory(req, id, now), now);
    }
  }

  /** For an agent whose changes never leave 0..1000, the rows alone decide. */
  lemma UnclippedWriteNeedsEarnedHundred(cfg: Config, steps: seq<Step>, req: StoreRequest,
                                         signature: Option<T.Bytes>, id: Uuid, now: Time)
    requires cfg.trusted && forall step <- steps :: Undisturbed(step.op, req.agentDid)
    requires L.NeverHitsBound(T.EMPTY, LedgerSteps(cfg, EMPTY, steps), req.agentDid)
    ensures var s, agent, m := Run(cfg, EMPTY, steps), req.agentDid, NewMemory(req, id, now);
            StoreWithVerification(cfg, s, req, signature, id, now).1.Success? <==>
              (&& agent in s.ledger.agents && L.Earned(s.ledger, agent) >= 100
               && (signature.Some? ==> Signs(cfg, s.ledger, m, signature.value))
               && Takes(cfg, s, m, now))
  {
    WriteNeedsEarnedHundred(cfg, steps, req, signature, id, now);
    L.UnclippedWithinBounds(T.EMPTY, LedgerSteps(cfg, EMPTY, steps), req.agentDid);
  }

  /** What one platform step does to working memory, as steps of the working store. */
  function WorkingPart(cfg: Config, s: State, step: Step): seq<W.Step> {
    match step.op
    case StoreOp(m) => if m.kind.Working? then [W.Step(W.PutOp(m), step.at)] else []
    case UpdateOp(m) => if m.kind.Working? then [W.Step(W.PutOp(m), step.at)] else []
    case DeleteOp(id, kind) => if kind.Working? then [W.Step(W.RemoveOp(id), step.at)] else []
    case StoreVerifiedOp(req, signature, id) =>
      if req.kind.Working? && Gate(cfg, s, req, signature).Ok?
      then [W.Step(W.PutOp(NewMemory(req, id, step.at)), step.at)]
      else []
    case _ => []
  }

  ghost function WorkingSteps(cfg: Config, s: State, steps: seq<Step>): seq<W.Step> {
    if steps == [] then []
    else
      var front := steps[..|steps| - 1];
      WorkingSteps(cfg, s, front) + WorkingPart(cfg, Run(cfg, s, front), steps[|steps| - 1])
  }

  lemma WorkingPartCorrect(cfg: Config, s: State, step: Step)
    ensures |WorkingPart(cfg, s, step)| <= 1
    ensures forall part <- WorkingPart(cfg, s, step) :: part.at == step.at
    ensures Apply(cfg, s, step).working ==
              if WorkingPart(cfg, s, step) == [] then s.working
              else W.Apply(s.working, cfg.ttl, WorkingPart(cfg, s, step)[0])
  {
    if step.op.StoreVerifiedOp? {
      VerifiedStorePuts(cfg, s, step.op.req, step.op.signature, step.op.id, step.at);
    }
  }

  lemma AppendWorking(ttl: int, done: seq<W.Step>, part: seq<W.Step>)
    requires |part| <= 1
    ensures W.Run(ttl, done + part) == if part == [] then W.Run(ttl, done) else W.Apply(W.Run(ttl, done), ttl, part[0])
  {
    if part == [] {
      assert done + part == done;
    } else {
      assert (done + part)[..|done|] == done;
    }
  }

  lemma AppendClock(done: seq<W.Step>, part: seq<W.Step>, t: Time, now: Time)
    requires W.ClockOrder(done, t) && t <= now && |part| <= 1
    requires forall step <- part :: step.at == t
    ensures W.ClockOrder(done + part, now)
  {
    if part == [] {
      assert done + part == done;
    } else {
      assert (done + part)[..|done|] == done;
    }
  }

  lemma {:induction false} WorkingClock(cfg: Config, steps: seq<Step>, now: Time)
    requires ClockOrder(steps, now)
    ensures W.ClockOrder(WorkingSteps(cfg, EMPTY, steps), now)
    decreases |steps|
  {
    if steps != [] {
      var front, last := steps[..|steps| - 1], steps[|steps| - 1];
      WorkingClock(cfg, front, last.at);
      WorkingPartCorrect(cfg, Run(cfg, EMPTY, front), last);
      AppendClock(WorkingSteps(cfg, EMPTY, front), WorkingPart(cfg, Run(cfg, EMPTY, front), last), last.at, now);
    }
  }

  /** Seen from working memory, every platform run is a run of the working store. */
  lemma {:induction false} WorkingProjection(cfg: Config, steps: seq<Step>)
    ensures Run(cfg, EMPTY, steps).working == W.Run(cfg.ttl, WorkingSteps(cfg, EMPTY, steps))
  {
    if steps != [] {
      var front, last := steps[..|steps| - 1], steps[|steps| - 1];
      WorkingProjection(cfg, front);
      WorkingPartCorrect(cfg, Run(cfg, EMPTY, front), last);
      AppendWorking(cfg.ttl, WorkingSteps(cfg, EMPTY, front), WorkingPart(cfg, Run(cfg, EMPTY, front), last));
    }
  }

  /**
   * The router's Retrieve for working memories answers, after every platform run, what one
   * expiring slot for each id holds.
   */
  lemma RouterRefinesLeases(cfg: Config, steps: seq<Step>, id: Uuid, now: Time)
    requires ClockOrder(steps, now)
    ensures Retrieve(Run(cfg, EMPTY, steps), id, Working, now)
         == W.Current(W.LeaseOf(cfg.ttl, WorkingSteps(cfg, EMPTY, steps), id), now)
  {
    WorkingProjection(cfg, steps);
    WorkingClock(cfg, steps, now);
    W.RetrieveRefinesLeases(cfg.ttl, WorkingSteps(cfg, EMPTY, steps), now, id);
  }
}
