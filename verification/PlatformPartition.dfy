/**
 * Two backends under one id space. Each holds only its own types in every run; one id comes to lie
 * in both exactly when some step writes it to one backend while the other holds it.
 */
module PlatformPartition {
  import opened Prelude
  import opened MemoryTypes
  import opened MemoryTable
  import opened Platform
  import opened PlatformRuns
  import K = WorkingKeys
  import W = WorkingStore

  // ------------------------------------------------------------------ types

  /** Every record in working memory is of type Working. */
  ghost predicate OnlyWorking(keys: W.Keys) {
    forall k <- keys :: keys[k].Text? && keys[k].value.Record? ==> keys[k].value.memory.kind.Working?
  }

  lemma PutOnlyWorking(keys: W.Keys, ttl: int, m: Memory, now: Time)
    requires OnlyWorking(keys)
    ensures OnlyWorking(W.Put(keys, ttl, m, now).0)
  {
  }

  lemma WorkingStep(cfg: Config, s: State, step: Step)
    requires OnlyWorking(s.working)
    ensures OnlyWorking(Apply(cfg, s, step).working)
  {
    match step.op
    case StoreOp(m) => PutOnlyWorking(s.working, cfg.ttl, m, step.at);
    case UpdateOp(m) => PutOnlyWorking(s.working, cfg.ttl, m, step.at);
    case StoreVerifiedOp(req, signature, id) =>
      VerifiedStorePuts(cfg, s, req, signature, id, step.at);
      PutOnlyWorking(s.working, cfg.ttl, NewMemory(req, id, step.at), step.at);
    case _ =>
  }

  /** Over every run, Postgres holds only persistent types and Valkey only working memories. */
  lemma {:induction false} TypesStayApart(cfg: Config, steps: seq<Step>)
    ensures OnlyPersistent(Run(cfg, EMPTY, steps).memories)
    ensures OnlyWorking(Run(cfg, EMPTY, steps).working)
  {
    if steps != [] {
      var front, last := steps[..|steps| - 1], steps[|steps| - 1];
      TypesStayApart(cfg, front);
      MemoriesStep(cfg, Run(cfg, EMPTY, front), last);
      WorkingStep(cfg, Run(cfg, EMPTY, front), last);
    }
  }

  /** So whatever type a caller names, a read answers with a memory of that type's backend. */
  lemma ServedByItsBackend(cfg: Config, steps: seq<Step>, id: Uuid, kind: MemoryType, now: Time)
    ensures var answer := Retrieve(Run(cfg, EMPTY, steps), id, kind, now);
            answer.Success? ==> answer.value.kind.Working? == kind.Working? && !answer.value.kind.Other?
  {
    TypesStayApart(cfg, steps);
  }

  // ------------------------------------------------------------------ ids

  /** Working memory holds a live record of the id. */
  ghost predicate HeldLive(keys: W.Keys, id: Uuid, now: Time) {
    exists k <- keys :: HoldsAt(keys, k, id, now)
  }

  predicate HoldsAt(keys: W.Keys, k: string, id: Uuid, now: Time) {
    W.Live(keys, k, now) && keys[k].Text? && keys[k].value.Record? && keys[k].value.memory.id == id
  }

  /** The memories table has a row of the id, and working memory a live record of it. */
  ghost predicate Both(s: State, id: Uuid, now: Time) {
    id in s.memories && HeldLive(s.working, id, now)
  }

  /** The memory a step writes, if it succeeds in writing one. */
  function Written(cfg: Config, s: State, step: Step): Option<Memory> {
    match step.op
    case StoreOp(m) => if Store(cfg, s, m, step.at).1.Ok? then Some(m) else None
    case UpdateOp(m) => if UpdateMemory(cfg, s, m, step.at).1.Ok? then Some(m) else None
    case StoreVerifiedOp(req, signature, id) =>
      if StoreWithVerification(cfg, s, req, signature, id, step.at).1.Success?
      then Some(NewMemory(req, id, step.at)) else None
    case _ => None
  }

  /** The step writes the id to one backend while the other holds it. */
  ghost predicate Collides(cfg: Config, s: State, step: Step, id: Uuid) {
    var written := Written(cfg, s, step);
    written.Some? && written.value.id == id &&
      if written.value.kind.Working? then id in s.memories else HeldLive(s.working, id, step.at)
  }

  lemma PutHeld(keys: W.Keys, ttl: int, m: Memory, id: Uuid, now: Time)
    requires W.LatestKeysSorted(keys)
    ensures var (keys', outcome) := W.Put(keys, ttl, m, now);
            && (outcome.Ok? && m.id == id ==> HeldLive(keys', id, now))
            && (HeldLive(keys', id, now) ==> HeldLive(keys, id, now) || (outcome.Ok? && m.id == id))
  {
    var (keys', outcome) := W.Put(keys, ttl, m, now);
    W.PutIsAllOrNothing(keys, ttl, m, now);
    if outcome.Ok? {
      W.PutShowsOwn(keys, ttl, m, now);
      var key := K.RecordKey(m.namespace, m.agentDid, m.id);
      assert HoldsAt(keys', key, m.id, now);
      if HeldLive(keys', id, now) && m.id != id {
        var k :| k in keys' && HoldsAt(keys', k, id, now);
        assert HoldsAt(keys, k, id, now);
      }
    }
  }

  lemma RemoveHeld(keys: W.Keys, x: Uuid, id: Uuid, now: Time)
    ensures HeldLive(W.Remove(keys, x, now).0, id, now) ==> HeldLive(keys, id, now)
  {
    var keys' := W.Remove(keys, x, now).0;
    if HeldLive(keys', id, now) {
      var k :| k in keys' && HoldsAt(keys', k, id, now);
      assert HoldsAt(keys, k, id, now);
    }
  }

  /** A record can only expire as time goes by. */
  lemma BothEarlier(s: State, id: Uuid, t: Time, now: Time)
    requires t <= now && Both(s, id, now)
    ensures Both(s, id, t)
  {
    var k :| k in s.working && HoldsAt(s.working, k, id, now);
    assert HoldsAt(s.working, k, id, t);
  }

  lemma VerifiedHeld(cfg: Config, s: State, step: Step, id: Uuid)
    requires W.LatestKeysSorted(s.working) && step.op.StoreVerifiedOp?
    ensures var written := Written(cfg, s, step);
            var writes := written.Some? && written.value.kind.Working? && written.value.id == id;
            && (writes ==> HeldLive(Apply(cfg, s, step).working, id, step.at))
            && (HeldLive(Apply(cfg, s, step).working, id, step.at) ==> HeldLive(s.working, id, step.at) || writes)
  {
    VerifiedStorePuts(cfg, s, step.op.req, step.op.signature, step.op.id, step.at);
    PutHeld(s.working, cfg.ttl, NewMemory(step.op.req, step.op.id, step.at), id, step.at);
  }

  /** What a step does to working memory's holding of the id. */
  lemma HeldStep(cfg: Config, s: State, step: Step, id: Uuid)
    requires W.LatestKeysSorted(s.working)
    ensures var written := Written(cfg, s, step);
            var writes := written.Some? && written.value.kind.Working? && written.value.id == id;
            && (writes ==> HeldLive(Apply(cfg, s, step).working, id, step.at))
            && (HeldLive(Apply(cfg, s, step).working, id, step.at) ==> HeldLive(s.working, id, step.at) || writes)
  {
    match step.op
    case StoreOp(m) => PutHeld(s.working, cfg.ttl, m, id, step.at);
    case UpdateOp(m) => PutHeld(s.working, cfg.ttl, m, id, step.at);
    case StoreVerifiedOp(_, _, _) => VerifiedHeld(cfg, s, step, id);
    case DeleteOp(x, kind) => RemoveHeld(s.working, x, id, step.at);
    case _ =>
  }

  /** What a step does to the rows of the id. */
  lemma RowStep(cfg: Config, s: State, step: Step, id: Uuid)
    ensures var written := Written(cfg, s, step);
            var writes := written.Some? && !written.value.kind.Working? && written.value.id == id;
            id in NextMemories(cfg, s, step) <==> id in s.memories || writes
  {
  }

  lemma PersistentWriteSparesKeys(cfg: Config, s: State, step: Step)
    requires Written(cfg, s, step).Some? && !Written(cfg, s, step).value.kind.Working?
    ensures Apply(cfg, s, step).working == s.working
  {
  }

  /** From a state that holds the id at most once, a step leads to one that holds it twice exactly by colliding. */
  lemma CollisionStep(cfg: Config, s: State, step: Step, id: Uuid)
    requires W.LatestKeysSorted(s.working) && !Both(s, id, step.at)
    ensures Both(Apply(cfg, s, step), id, step.at) <==> Collides(cfg, s, step, id)
  {
    HeldStep(cfg, s, step, id);
    RowStep(cfg, s, step, id);
    MemoriesFollow(cfg, s, step);
    if Written(cfg, s, step).Some? && !Written(cfg, s, step).value.kind.Working? {
      PersistentWriteSparesKeys(cfg, s, step);
    }
  }

  /** After no step of the run do both backends hold the id. */
  ghost predicate NeverInBoth(cfg: Config, steps: seq<Step>, id: Uuid) {
    steps != [] ==>
      var front, last := steps[..|steps| - 1], steps[|steps| - 1];
      NeverInBoth(cfg, front, id) && !Both(Run(cfg, EMPTY, steps), id, last.at)
  }

  /** No step of the run writes the id to one backend while the other holds it. */
  ghost predicate NeverCollides(cfg: Config, steps: seq<Step>, id: Uuid) {
    steps != [] ==>
      var front, last := steps[..|steps| - 1], steps[|steps| - 1];
      NeverCollides(cfg, front, id) && !Collides(cfg, Run(cfg, EMPTY, front), last, id)
  }

  /** Between the steps of a run nothing comes to lie in both backends either. */
  lemma NotInBothNow(cfg: Config, steps: seq<Step>, id: Uuid, now: Time)
    requires ClockOrder(steps, now) && NeverInBoth(cfg, steps, id)
    ensures !Both(Run(cfg, EMPTY, steps), id, now)
  {
    if steps != [] {
      var last := steps[|steps| - 1];
      if Both(Run(cfg, EMPTY, steps), id, now) {
        BothEarlier(Run(cfg, EMPTY, steps), id, last.at, now);
      }
    }
  }

  /**
   * Over every run, both backends hold an id at some moment if and only if some successful write
   * put it into one of them while the other held it.
   */
  lemma {:induction false} InBothIffCollision(cfg: Config, steps: seq<Step>, id: Uuid, now: Time)
    requires ClockOrder(steps, now)
    ensures NeverInBoth(cfg, steps, id) <==> NeverCollides(cfg, steps, id)
    decreases |steps|
  {
    if steps != [] {
      var front, last := steps[..|steps| - 1], steps[|steps| - 1];
      InBothIffCollision(cfg, front, id, last.at);
      if NeverInBoth(cfg, front, id) {
        NotInBothNow(cfg, front, id, last.at);
        LatestStaysSorted(cfg, EMPTY, front);
        CollisionStep(cfg, Run(cfg, EMPTY, front), last, id);
      }
    }
  }

  /** The router lets it happen: one id stored as working and then as episodic memory is in both. */
  lemma TwoStoresCollide(cfg: Config, s: State, m: Memory, now: Time)
    requires W.LatestKeysSorted(s.working) && W.Accepts(cfg.ttl, m, now)
    requires m.agentDid in s.ledger.agents && m.id !in s.memories && m.distilledFrom.None?
    requires |m.embedding| == 0 || |m.embedding| == 1536
    ensures var first := Apply(cfg, s, Step(StoreOp(m), now));
            var second := Step(StoreOp(m.(kind := Episodic)), now);
            Collides(cfg, first, second, m.id) && Both(Apply(cfg, first, second), m.id, now)
  {
    HeldStep(cfg, s, Step(StoreOp(m), now), m.id);
    W.PutIsAllOrNothing(s.working, cfg.ttl, m, now);
  }
}
