/**
 * What holds over every run of the whole platform: a failed store changes nothing, a
 * successful one can be read back, and soft deletes are permanent.
 */
module PlatformRuns {
  import opened Prelude
  import opened MemoryTypes
  import opened MemoryTable
  import opened Platform
  import T = TrustTables
  import L = LedgerRuns
  import W = WorkingStore
  import P = PolicyCache
  import PolicyDecision

  datatype Op =
    | Trust(op: L.Op)
    | StoreOp(memory: Memory)
    | UpdateOp(memory: Memory)
    | DeleteOp(id: Uuid, kind: MemoryType)
    | StoreVerifiedOp(req: StoreRequest, signature: Option<T.Bytes>, id: Uuid)
    | RectifyOp(id: Uuid, correction: string)
    | ExpireOp(before: Time)
    | ForgetOp(agent: string)
    | SavePolicyOp(policy: PolicyDecision.Policy)

  datatype Step = Step(op: Op, at: Time)

  ghost function Apply(cfg: Config, s: State, step: Step): State {
    match step.op
    case Trust(op) => s.(ledger := L.Apply(s.ledger, L.Step(op, step.at)))
    case StoreOp(m) => Store(cfg, s, m, step.at).0
    case UpdateOp(m) => UpdateMemory(cfg, s, m, step.at).0
    case DeleteOp(id, kind) => DeleteMemory(s, id, kind, step.at).0
    case StoreVerifiedOp(req, signature, id) => StoreWithVerification(cfg, s, req, signature, id, step.at).0
    case RectifyOp(id, correction) => s.(memories := Rectify(s.memories, id, correction, step.at).0)
    case ExpireOp(before) => s.(memories := Mark(s.memories, Expiring(s.memories, before), step.at))
    case ForgetOp(agent) => Forget(s, agent, step.at)
    case SavePolicyOp(p) => s.(policies := P.Save(s.ledger.agents.Keys, s.policies, p, step.at).0)
  }

  ghost function Run(cfg: Config, s: State, steps: seq<Step>): State {
    if steps == [] then s
    else Apply(cfg, Run(cfg, s, steps[..|steps| - 1]), steps[|steps| - 1])
  }

  const EMPTY := State(T.EMPTY, map[], map[], map[])

  /** Time does not run backwards along a platform run, and has not passed `now`. */
  predicate ClockOrder(steps: seq<Step>, now: Time) {
    steps != [] ==>
      var last := steps[|steps| - 1];
      last.at <= now && ClockOrder(steps[..|steps| - 1], last.at)
  }

  // ------------------------------------------------------------------ one verified store

  lemma SortedStep(cfg: Config, s: State, step: Step)
    requires W.LatestKeysSorted(s.working)
    ensures W.LatestKeysSorted(Apply(cfg, s, step).working)
  {
    match step.op
    case StoreOp(m) => W.PutIsAllOrNothing(s.working, cfg.ttl, m, step.at);
    case UpdateOp(m) => W.PutIsAllOrNothing(s.working, cfg.ttl, m, step.at);
    case StoreVerifiedOp(req, signature, id) =>
      W.PutIsAllOrNothing(s.working, cfg.ttl, NewMemory(req, id, step.at), step.at);
    case _ =>
  }

  /** In every reachable state the latest keys hold sorted sets. */
  lemma {:induction false} LatestStaysSorted(cfg: Config, s: State, steps: seq<Step>)
    requires W.LatestKeysSorted(s.working)
    ensures W.LatestKeysSorted(Run(cfg, s, steps).working)
  {
    if steps != [] {
      LatestStaysSorted(cfg, s, steps[..|steps| - 1]);
      SortedStep(cfg, Run(cfg, s, steps[..|steps| - 1]), steps[|steps| - 1]);
    }
  }

  /** In every reachable state, a verified store that fails leaves ledger and both backends as they were. */
  lemma FailedStoreChangesNothing(cfg: Config, steps: seq<Step>, req: StoreRequest, signature: Option<T.Bytes>,
                                  id: Uuid, now: Time)
    ensures var s := Run(cfg, EMPTY, steps);
            StoreWithVerification(cfg, s, req, signature, id, now).1.Failure? ==>
              StoreWithVerification(cfg, s, req, signature, id, now).0 == s
  {
    var s := Run(cfg, EMPTY, steps);
    LatestStaysSorted(cfg, EMPTY, steps);
    W.PutIsAllOrNothing(s.working, cfg.ttl, NewMemory(req, id, now), now);
  }

  /**
   * A verified store that succeeds returns the memory asked for, under the new id and dated now. A
   * read under its type gives it back, the other backend is untouched, and with a trust port a
   * "memory_store" event of 5 points is logged.
   */
  lemma StoredIsRetrievable(cfg: Config, s: State, req: StoreRequest, signature: Option<T.Bytes>, id: Uuid, now: Time)
    requires W.LatestKeysSorted(s.working)
    requires StoreWithVerification(cfg, s, req, signature, id, now).1.Success?
    ensures var (s', result) := StoreWithVerification(cfg, s, req, signature, id, now);
            && result.value
                 == Memory(id, req.kind, req.namespace, req.agentDid, req.content, [], req.metadata,
                           req.validFrom, req.validUntil, None, now, now)
            && Retrieve(s', id, req.kind, now)
                 == Success(result.value.(content := if req.content == "" then "null" else req.content))
            && (if req.kind == Working then s'.memories == s.memories else s'.working == s.working)
            && s'.policies == s.policies
            && s'.ledger
                 == if cfg.trusted then T.LogEvent(s.ledger, req.agentDid, "memory_store", 5, now).0 else s.ledger
  {
    var m := NewMemory(req, id, now);
    if req.kind.Working? {
      W.PutIsAllOrNothing(s.working, cfg.ttl, m, now);
      W.PutShowsOwn(s.working, cfg.ttl, m, now);
      var lease := W.Lease(WireImage(m), W.ExpiryTime(cfg.ttl, m, now));
      W.GetShown(W.Put(s.working, cfg.ttl, m, now).0, id, Some(lease), now);
    }
  }

  /**
   * What the gate refuses. Only with a trust port: an agent that is not registered; a signature
   * under a key that is not 32 bytes long, or that does not verify over the nil UUID, a colon and
   * the content; and a score below 100.
   */
  lemma GateOutcome(cfg: Config, s: State, req: StoreRequest, signature: Option<T.Bytes>, id: Uuid, now: Time)
    requires cfg.trusted
    ensures var (s', result) := StoreWithVerification(cfg, s, req, signature, id, now);
            if req.agentDid !in s.ledger.agents then s' == s && result == Failure(AgentNotFound)
            else
              var agent := s.ledger.agents[req.agentDid];
              var signed := "00000000-0000-0000-0000-000000000000:" + if req.content == "" then "null" else req.content;
              var forged := signature != None
                            && !(|agent.publicKey| == 32 && cfg.verify(agent.publicKey, signed, signature.value));
              && (result == Failure(InvalidSignature) <==> forged)
              && (result == Failure(LowReputation) <==> !forged && agent.score < 100)
  {
    var content := SignedContent(req);
    assert Payload(NIL_UUID, content) == "00000000-0000-0000-0000-000000000000:" + content;
  }

  /**
   * Reads see writes through the router: under one type, a successful store or update is read back
   * and a successful delete no longer is, and the backend of the other types is left alone.
   */
  lemma ReadsSeeRoutedWrites(cfg: Config, s: State, m: Memory, now: Time)
    requires W.LatestKeysSorted(s.working)
    ensures var (stored, outcome) := Store(cfg, s, m, now);
            && (outcome == Ok ==>
                  Retrieve(stored, m.id, m.kind, now)
                    == Success(m.(embedding := [], content := if m.content == "" then "null" else m.content)))
            && SparesOther(s, stored, m.kind) && (m.kind.Other? ==> outcome == Fail(InvalidType))
    ensures var (updated, outcome) := UpdateMemory(cfg, s, m, now);
            && (outcome == Ok ==>
                  var answer := Retrieve(updated, m.id, m.kind, now);
                  answer.Success? && answer.value.content == (if m.content == "" then "null" else m.content)
                  && answer.value.metadata == m.metadata && answer.value.kind == m.kind)
            && SparesOther(s, updated, m.kind)
    ensures var (deleted, outcome) := DeleteMemory(s, m.id, m.kind, now);
            (outcome == Ok ==> Retrieve(deleted, m.id, m.kind, now).Failure?) && SparesOther(s, deleted, m.kind)
  {
    if m.kind == Working {
      W.PutIsAllOrNothing(s.working, cfg.ttl, m, now);
      if W.Accepts(cfg.ttl, m, now) {
        W.PutShowsOwn(s.working, cfg.ttl, m, now);
      }
    }
  }

  /** Neither the ledger, nor the policies, nor the backend of the other types has changed. */
  predicate SparesOther(s: State, s': State, kind: MemoryType) {
    && s'.ledger == s.ledger && s'.policies == s.policies
    && if kind == Working then s'.memories == s.memories else s'.working == s.working
  }

  // ------------------------------------------------------------------ soft deletes are permanent

  /** The memories table after a step, as one of the table's own operations. */
  function NextMemories(cfg: Config, s: State, step: Step): Table {
    var t, agents := s.memories, s.ledger.agents.Keys;
    match step.op
    case Trust(_) => t
    case SavePolicyOp(_) => t
    case StoreOp(m) => Insert(t, agents, m).0
    case UpdateOp(m) => if m.kind.Working? then t else Update(t, agents, m, step.at).0
    case DeleteOp(id, kind) => if kind.Working? then t else Delete(t, id, step.at).0
    case StoreVerifiedOp(req, signature, id) =>
      if Gate(cfg, s, req, signature).Fail? then t else Insert(t, agents, NewMemory(req, id, step.at)).0
    case RectifyOp(id, correction) => Rectify(t, id, correction, step.at).0
    case ExpireOp(before) => Mark(t, Expiring(t, before), step.at)
    case ForgetOp(agent) => Mark(t, OwnedBy(t, agent), step.at)
  }

  lemma VerifiedStorePuts(cfg: Config, s: State, req: StoreRequest, signature: Option<T.Bytes>, id: Uuid, now: Time)
    ensures StoreWithVerification(cfg, s, req, signature, id, now).0.working
         == if req.kind.Working? && Gate(cfg, s, req, signature).Ok?
            then W.Put(s.working, cfg.ttl, NewMemory(req, id, now), now).0 else s.working
  {
  }

  lemma VerifiedStoreInserts(cfg: Config, s: State, req: StoreRequest, signature: Option<T.Bytes>, id: Uuid, now: Time)
    ensures StoreWithVerification(cfg, s, req, signature, id, now).0.memories
         == if Gate(cfg, s, req, signature).Fail? then s.memories
            else Insert(s.memories, s.ledger.agents.Keys, NewMemory(req, id, now)).0
  {
  }

  lemma MemoriesFollow(cfg: Config, s: State, step: Step)
    ensures Apply(cfg, s, step).memories == NextMemories(cfg, s, step)
  {
    if step.op.StoreVerifiedOp? {
      VerifiedStoreInserts(cfg, s, step.op.req, step.op.signature, step.op.id, step.at);
    }
  }

  lemma WritesKeep(cfg: Config, s: State, step: Step)
    requires step.op.StoreOp? || step.op.UpdateOp? || step.op.StoreVerifiedOp?
    ensures KeepsTombstones(s.memories, NextMemories(cfg, s, step))
    ensures OnlyPersistent(s.memories) ==> OnlyPersistent(NextMemories(cfg, s, step))
  {
    var t, agents := s.memories, s.ledger.agents.Keys;
    match step.op
    case StoreOp(m) => InsertKeeps(t, agents, m);
    case UpdateOp(m) => UpdateKeeps(t, agents, m, step.at);
    case StoreVerifiedOp(req, signature, id) => InsertKeeps(t, agents, NewMemory(req, id, step.at));
  }

  lemma MarksKeep(cfg: Config, s: State, step: Step)
    requires step.op.DeleteOp? || step.op.RectifyOp? || step.op.ExpireOp? || step.op.ForgetOp?
    ensures KeepsTombstones(s.memories, NextMemories(cfg, s, step))
    ensures OnlyPersistent(s.memories) ==> OnlyPersistent(NextMemories(cfg, s, step))
  {
    var t := s.memories;
    match step.op
    case DeleteOp(id, kind) => DeleteKeeps(t, id, step.at);
    case RectifyOp(id, correction) => RectifyKeeps(t, id, correction, step.at);
    case ExpireOp(before) => MarkKeeps(t, Expiring(t, before), step.at);
    case ForgetOp(agent) => MarkKeeps(t, OwnedBy(t, agent), step.at);
  }

  lemma MemoriesStep(cfg: Config, s: State, step: Step)
    ensures KeepsTombstones(s.memories, Apply(cfg, s, step).memories)
    ensures OnlyPersistent(s.memories) ==> OnlyPersistent(Apply(cfg, s, step).memories)
  {
    MemoriesFollow(cfg, s, step);
    if step.op.StoreOp? || step.op.UpdateOp? || step.op.StoreVerifiedOp? {
      WritesKeep(cfg, s, step);
    } else if !step.op.Trust? && !step.op.SavePolicyOp? {
      MarksKeep(cfg, s, step);
    }
  }

  /** Over every run a tombstone stays a tombstone, and no operation changes what it holds. */
  lemma {:induction false} TombstonesArePermanent(cfg: Config, s: State, steps: seq<Step>)
    ensures KeepsTombstones(s.memories, Run(cfg, s, steps).memories)
  {
    if steps != [] {
      TombstonesArePermanent(cfg, s, steps[..|steps| - 1]);
      MemoriesStep(cfg, Run(cfg, s, steps[..|steps| - 1]), steps[|steps| - 1]);
    }
  }

  /** The step inserted a row into the memories table. */
  predicate Inserts(cfg: Config, s: State, step: Step) {
    match step.op
    case StoreOp(m) => Insert(s.memories, s.ledger.agents.Keys, m).1.Ok?
    case StoreVerifiedOp(req, signature, id) =>
      Gate(cfg, s, req, signature).Ok? && Insert(s.memories, s.ledger.agents.Keys, NewMemory(req, id, step.at)).1.Ok?
    case _ => false
  }

  /** Insertions are exactly the successful stores of a persistent type. */
  lemma InsertsAreSuccesses(cfg: Config, s: State, m: Memory, req: StoreRequest, signature: Option<T.Bytes>, id: Uuid, at: Time)
    ensures Inserts(cfg, s, Step(StoreOp(m), at)) <==> !m.kind.Working? && Store(cfg, s, m, at).1.Ok?
    ensures Inserts(cfg, s, Step(StoreVerifiedOp(req, signature, id), at))
       <==> !req.kind.Working? && StoreWithVerification(cfg, s, req, signature, id, at).1.Success?
  {
  }

  ghost function Insertions(cfg: Config, s: State, steps: seq<Step>): nat {
    if steps == [] then 0
    else
      var front := steps[..|steps| - 1];
      Insertions(cfg, s, front) + if Inserts(cfg, Run(cfg, s, front), steps[|steps| - 1]) then 1 else 0
  }

  lemma SizeStep(cfg: Config, s: State, step: Step)
    ensures |NextMemories(cfg, s, step)| == |s.memories| + if Inserts(cfg, s, step) then 1 else 0
  {
    var t, agents := s.memories, s.ledger.agents.Keys;
    match step.op
    case StoreOp(m) => InsertKeeps(t, agents, m);
    case StoreVerifiedOp(req, signature, id) => InsertKeeps(t, agents, NewMemory(req, id, step.at));
    case _ => SameKeysSameSize(t, NextMemories(cfg, s, step));
  }

  lemma SameKeysSameSize(t: Table, u: Table)
    requires t.Keys == u.Keys
    ensures |t| == |u|
  {
  }

  lemma {:induction false} RunSize(cfg: Config, steps: seq<Step>)
    ensures |Run(cfg, EMPTY, steps).memories| == Insertions(cfg, EMPTY, steps)
  {
    if steps != [] {
      RunSize(cfg, steps[..|steps| - 1]);
      SizeStep(cfg, Run(cfg, EMPTY, steps[..|steps| - 1]), steps[|steps| - 1]);
      MemoriesFollow(cfg, Run(cfg, EMPTY, steps[..|steps| - 1]), steps[|steps| - 1]);
    }
  }

  /** Live rows plus tombstones are exactly the rows ever inserted. */
  lemma NothingIsLost(cfg: Config, steps: seq<Step>)
    ensures var t := Run(cfg, EMPTY, steps).memories;
            |set id | id in t && Visible(t, id)| + |set id | id in t && Tombstoned(t, id)|
              == Insertions(cfg, EMPTY, steps)
  {
    RunSize(cfg, steps);
    CountRows(Run(cfg, EMPTY, steps).memories);
  }

  /** The rows that Expire steps of the run turned into tombstones. */
  ghost function ExpiredIds(cfg: Config, s: State, steps: seq<Step>): set<Uuid> {
    if steps == [] then {}
    else
      var front, last := steps[..|steps| - 1], steps[|steps| - 1];
      ExpiredIds(cfg, s, front)
        + if last.op.ExpireOp? then Expiring(Run(cfg, s, front).memories, last.op.before) else {}
  }

  /** The sum of the counts that the Expire calls returned. */
  ghost function ExpireCounts(cfg: Config, s: State, steps: seq<Step>): nat {
    if steps == [] then 0
    else
      var front, last := steps[..|steps| - 1], steps[|steps| - 1];
      ExpireCounts(cfg, s, front)
        + if last.op.ExpireOp? then |Expiring(Run(cfg, s, front).memories, last.op.before)| else 0
  }

  lemma ExpireStep(cfg: Config, s: State, step: Step, expired: set<Uuid>)
    requires forall id <- expired :: Tombstoned(s.memories, id)
    ensures var due := if step.op.ExpireOp? then Expiring(s.memories, step.op.before) else {};
            && expired !! due
            && forall id <- expired + due :: Tombstoned(Apply(cfg, s, step).memories, id)
  {
    MemoriesStep(cfg, s, step);
    if step.op.ExpireOp? {
      MarkKeeps(s.memories, Expiring(s.memories, step.op.before), step.at);
    }
  }

  lemma DisjointSize(a: set<Uuid>, b: set<Uuid>)
    requires a !! b
    ensures |a + b| == |a| + |b|
  {
  }

  /** No row is counted twice: the counts add up to the number of distinct rows expired. */
  lemma {:induction false} ExpireCountsAddUp(cfg: Config, s: State, steps: seq<Step>)
    ensures ExpireCounts(cfg, s, steps) == |ExpiredIds(cfg, s, steps)|
    ensures forall id <- ExpiredIds(cfg, s, steps) :: Tombstoned(Run(cfg, s, steps).memories, id)
  {
    if steps != [] {
      var front, last := steps[..|steps| - 1], steps[|steps| - 1];
      ExpireCountsAddUp(cfg, s, front);
      ExpireStep(cfg, Run(cfg, s, front), last, ExpiredIds(cfg, s, front));
      if last.op.ExpireOp? {
        DisjointSize(ExpiredIds(cfg, s, front), Expiring(Run(cfg, s, front).memories, last.op.before));
      }
    }
  }
}
