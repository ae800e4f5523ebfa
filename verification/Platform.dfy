/**
 * The storage router over both backends, its trust gate, and the right to be forgotten, as
 * steps on one state: ledger, memories table, working-memory keys and policies.
 */
module Platform {
  import opened Prelude
  import opened MemoryTypes
  import opened MemoryTable
  import T = TrustTables
  import TrustLedger
  import W = WorkingStore
  import P = PolicyCache
  import PolicyService

  datatype State = State(ledger: T.Tables, memories: Table, working: W.Keys, policies: P.Rows)

  /** Ed25519 verification stays abstract: key, payload, signature. */
  type Verifier = (T.Bytes, T.Bytes, T.Bytes) -> bool

  /** `trusted` is false for a router built without a trust port. */
  datatype Config = Config(ttl: int, trusted: bool, verify: Verifier)

  datatype StoreRequest = StoreRequest(
    kind: MemoryType, namespace: string, agentDid: string, content: string, metadata: Metadata,
    validFrom: Option<Time>, validUntil: Option<Time>)

  const KEY_SIZE := 32
  const MIN_REPUTATION := 100
  const STORE_REWARD := 5
  const STORE_EVENT := "memory_store"

  // ------------------------------------------------------------------ signatures

  function Payload(memoryId: string, content: T.Bytes): T.Bytes {
    memoryId + ":" + content
  }

  predicate VerifyMemorySignature(verify: Verifier, key: T.Bytes, memoryId: string, content: T.Bytes, signature: T.Bytes) {
    |key| == KEY_SIZE && verify(key, Payload(memoryId, content), signature)
  }

  /** With UUIDs as ids, a payload determines both the id and the content it was made from. */
  lemma PayloadInjective(x: Uuid, c: T.Bytes, y: Uuid, d: T.Bytes)
    requires Payload(x, c) == Payload(y, d)
    ensures x == y && c == d
  {
    assert Payload(x, c)[..36] == x && Payload(y, d)[..36] == y;
    assert Payload(x, c)[37..] == c && Payload(y, d)[37..] == d;
  }

  // ------------------------------------------------------------------ the router

  function Store(cfg: Config, s: State, m: Memory, now: Time): (State, Outcome) {
    if m.kind.Other? then (s, Fail(InvalidType))
    else if m.kind.Working? then
      var (keys, outcome) := W.Put(s.working, cfg.ttl, m, now);
      (s.(working := keys), outcome)
    else
      var (rows, outcome) := Insert(s.memories, s.ledger.agents.Keys, m);
      (s.(memories := rows), outcome)
  }

  function UpdateMemory(cfg: Config, s: State, m: Memory, now: Time): (State, Outcome) {
    if m.kind.Working? then
      var (keys, outcome) := W.Put(s.working, cfg.ttl, m, now);
      (s.(working := keys), outcome)
    else
      var (rows, outcome) := Update(s.memories, s.ledger.agents.Keys, m, now);
      (s.(memories := rows), outcome)
  }

  function DeleteMemory(s: State, id: Uuid, kind: MemoryType, now: Time): (State, Outcome) {
    if kind.Working? then
      var (keys, outcome) := W.Remove(s.working, id, now);
      (s.(working := keys), outcome)
    else
      var (rows, outcome) := Delete(s.memories, id, now);
      (s.(memories := rows), outcome)
  }

  function Retrieve(s: State, id: Uuid, kind: MemoryType, now: Time): Result<Memory> {
    if kind.Working? then W.Get(s.working, id, now) else Get(s.memories, id)
  }

  /** The content as it is signed: absent content is encoded as JSON null. */
  function SignedContent(req: StoreRequest): T.Bytes {
    if req.content == "" then "null" else req.content
  }

  /** Registered, correctly signed if signed at all, and of sufficient reputation. */
  function Gate(cfg: Config, s: State, req: StoreRequest, signature: Option<T.Bytes>): Outcome {
    if !cfg.trusted then Ok
    else if req.agentDid !in s.ledger.agents then Fail(AgentNotFound)
    else
      var agent := s.ledger.agents[req.agentDid];
      if signature.Some?
         && !VerifyMemorySignature(cfg.verify, agent.publicKey, NIL_UUID, SignedContent(req), signature.value)
      then Fail(InvalidSignature)
      else if agent.score < MIN_REPUTATION then Fail(LowReputation)
      else Ok
  }

  function NewMemory(req: StoreRequest, id: Uuid, now: Time): Memory {
    Memory(id, req.kind, req.namespace, req.agentDid, req.content, [], req.metadata,
           req.validFrom, req.validUntil, None, now, now)
  }

  /** `id` is the fresh UUID; the reputation event after the store is best effort. */
  function StoreWithVerification(cfg: Config, s: State, req: StoreRequest, signature: Option<T.Bytes>, id: Uuid, now: Time)
    : (State, Result<Memory>)
  {
    var gate := Gate(cfg, s, req, signature);
    if gate.Fail? then (s, Failure(gate.error))
    else
      var m := NewMemory(req, id, now);
      var (stored, outcome) := Store(cfg, s, m, now);
      if outcome.Fail? then (stored, Failure(outcome.error))
      else if !cfg.trusted then (stored, Success(m))
      else (stored.(ledger := T.LogEvent(stored.ledger, req.agentDid, STORE_EVENT, STORE_REWARD, now).0), Success(m))
  }

  /** One transaction: memories marked, policies deleted, key cleared and score zeroed. */
  function Forget(s: State, agent: string, now: Time): State {
    s.(memories := Mark(s.memories, OwnedBy(s.memories, agent), now),
       policies := P.ForgetRows(s.policies, agent),
       ledger := T.Revoke(s.ledger, agent))
  }

  class Router {
    const postgres: PostgresStore
    const valkey: W.ValkeyStore
    const database: TrustLedger.Ledger
    const policies: PolicyService.Evaluator
    const cfg: Config

    constructor (postgres: PostgresStore, valkey: W.ValkeyStore, database: TrustLedger.Ledger,
                 policies: PolicyService.Evaluator, trusted: bool, verify: Verifier)
      ensures this.postgres == postgres && this.valkey == valkey
      ensures this.database == database && this.policies == policies
      ensures cfg == Config(valkey.ttl, trusted, verify) && Valid()
    {
      this.postgres, this.valkey, this.database, this.policies := postgres, valkey, database, policies;
      cfg := Config(valkey.ttl, trusted, verify);
    }

    predicate Valid() {
      cfg.ttl == valkey.ttl
    }

    function Current(): State
      reads postgres, valkey, database, policies
    {
      State(database.Tables(), postgres.rows, valkey.keys, policies.rows)
    }

    method StoreMemory(m: Memory, now: Time) returns (outcome: Outcome)
      requires Valid()
      modifies postgres, valkey
      ensures (Current(), outcome) == Store(cfg, old(Current()), m, now)
    {
      if m.kind.Other? { return Fail(InvalidType); }
      if m.kind == Working {
        outcome := valkey.Store(m, now);
      } else {
        outcome := postgres.Store(m, database.agents.Keys);
      }
    }

    method Update(m: Memory, now: Time) returns (outcome: Outcome)
      requires Valid()
      modifies postgres, valkey
      ensures (Current(), outcome) == UpdateMemory(cfg, old(Current()), m, now)
    {
      if m.kind == Working {
        outcome := valkey.Update(m, now);
      } else {
        outcome := postgres.UpdateRow(m, database.agents.Keys, now);
      }
    }

    method Delete(id: Uuid, kind: MemoryType, now: Time) returns (outcome: Outcome)
      modifies postgres, valkey
      ensures (Current(), outcome) == DeleteMemory(old(Current()), id, kind, now)
    {
      if kind == Working {
        outcome := valkey.Delete(id, now);
      } else {
        outcome := postgres.DeleteRow(id, now);
      }
    }

    method RetrieveMemory(id: Uuid, kind: MemoryType, now: Time) returns (result: Result<Memory>)
      ensures result == Retrieve(Current(), id, kind, now)
    {
      if kind == Working {
        result := valkey.Retrieve(id, now);
      } else {
        result := postgres.Retrieve(id);
      }
    }

    method StoreVerified(req: StoreRequest, signature: Option<T.Bytes>, id: Uuid, now: Time)
      returns (result: Result<Memory>)
      requires Valid()
      modifies postgres, valkey, database
      ensures (Current(), result) == StoreWithVerification(cfg, old(Current()), req, signature, id, now)
    {
      if cfg.trusted {
        if req.agentDid !in database.agents { return Failure(AgentNotFound); }
        var agent := database.agents[req.agentDid];
        if signature.Some? {
          var content := if req.content == "" then "null" else req.content;
          if !VerifyMemorySignature(cfg.verify, agent.publicKey, NIL_UUID, content, signature.value) {
            return Failure(InvalidSignature);
          }
        }
        if agent.score < 100 { return Failure(LowReputation); }
      }
      var m := NewMemory(req, id, now);
      var outcome := StoreMemory(m, now);
      if outcome.Fail? { return Failure(outcome.error); }
      if cfg.trusted {
        var _ := database.LogEvent(req.agentDid, STORE_EVENT, STORE_REWARD, now);
      }
      return Success(m);
    }

    method ForgetAgent(agent: string, now: Time)
      requires policies.Valid()
      modifies postgres, database, policies
      ensures Current() == Forget(old(Current()), agent, now)
    {
      postgres.ForgetRows(agent, now);
      policies.Forget(agent, now);
      database.Revoke(agent);
    }
  }
}
