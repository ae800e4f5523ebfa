/**
 * The four tables of the trust layer and what each committed transaction does to them.
 * Every function returns the tables after the transaction and the error, if any; a failed
 * transaction is rolled back, so it returns the tables it was given.
 */
module TrustTables {
  import opened Prelude
  import opened SaturatingScore

  /** Public keys, signatures and payloads are byte strings; a byte is a character here. */
  type Bytes = string

  datatype Agent = Agent(publicKey: Bytes, score: int, createdAt: Time, lastActiveAt: Time)

  datatype Status = Pending | Completed | Failed

  datatype Verification = Verification(target: string, verifier: string, status: Status, createdAt: Time)

  datatype Attestation = Attestation(memoryId: string, agent: string, signature: Bytes, createdAt: Time)

  datatype Event = Event(agent: string, kind: string, change: int, createdAt: Time)

  datatype Tables = Tables(
    agents: map<string, Agent>,
    verifications: map<string, Verification>,
    attestations: seq<Attestation>,
    events: seq<Event>)

  const EMPTY := Tables(map[], map[], [], [])
  const DEFAULT_SCORE := 500
  const VIOLATION := "policy_violation"
  const DISPUTE_LOST := "dispute_lost"

  // ------------------------------------------------------------------ the UUID column type

  predicate IsHex(c: char) {
    '0' <= c <= '9' || 'a' <= c <= 'f' || 'A' <= c <= 'F'
  }

  /** Bytes i to 15 of a UUID in PostgreSQL's input syntax: a hyphen may follow each group of four digits. */
  predicate ReadsBytes(s: string, i: nat) {
    if i >= 16 then s == ""
    else
      && |s| >= 2 && IsHex(s[0]) && IsHex(s[1])
      && ReadsBytes(if |s| > 2 && s[2] == '-' && i % 2 == 1 && i < 15 then s[3..] else s[2..], i + 1)
  }

  /** What a UUID column accepts: upper or lower case, hyphens optional, braces around it or not. */
  predicate ReadsAsUuid(s: string) {
    if |s| >= 2 && s[0] == '{' && s[|s| - 1] == '}' then ReadsBytes(s[1..|s| - 1], 0) else ReadsBytes(s, 0)
  }

  // ------------------------------------------------------------------ transactions

  /** `UPDATE agents SET reputation_score = .., last_active_at = NOW()`: no row, no change. */
  function WithScore(t: Tables, did: string, score: int, now: Time): Tables {
    if did in t.agents
    then t.(agents := t.agents[did := t.agents[did].(score := score, lastActiveAt := now)])
    else t
  }

  /** A zero score or time in the agent handed in is filled with its default. */
  function Register(t: Tables, did: string, agent: Agent, now: Time): (Tables, Outcome) {
    if did == "" then (t, Fail(EmptyDid))
    else if agent.publicKey == "" then (t, Fail(EmptyKey))
    else if did in t.agents then (t, Fail(AlreadyExists))
    else
      var start := if agent.score == 0 then DEFAULT_SCORE else agent.score;
      var row := Agent(agent.publicKey, start, OrNow(agent.createdAt, now), OrNow(agent.lastActiveAt, now));
      (t.(agents := t.agents[did := row]), Ok)
  }

  /** Writes the score as given, without clamping; never touches the key. */
  function Update(t: Tables, did: string, score: int, lastActiveAt: Time): (Tables, Outcome) {
    if did in t.agents then (WithScore(t, did, score, lastActiveAt), Ok)
    else (t, Fail(AgentNotFound))
  }

  function LogEvent(t: Tables, did: string, kind: string, change: int, now: Time): (Tables, Outcome) {
    if did !in t.agents then (t, Fail(ForeignKey))
    else
      var logged := t.(events := t.events + [Event(did, kind, change, now)]);
      (WithScore(logged, did, Clamp(t.agents[did].score + change), now), Ok)
  }

  function SaveAttestation(t: Tables, a: Attestation, now: Time): (Tables, Outcome) {
    if a.memoryId == "" then (t, Fail(EmptyMemoryId))
    else if a.agent == "" then (t, Fail(EmptyDid))
    else if a.signature == "" then (t, Fail(EmptySignature))
    else if !ReadsAsUuid(a.memoryId) then (t, Fail(InvalidUuid))
    else if a.agent !in t.agents then (t, Fail(ForeignKey))
    else
      var saved := t.(attestations := t.attestations + [a.(createdAt := OrNow(a.createdAt, now))]);
      (WithScore(saved, a.agent, Min(MAX_SCORE, t.agents[a.agent].score + 25), now), Ok)
  }

  /** `id` is the key the database generates for the row. */
  function CreateVerification(t: Tables, id: string, target: string, verifier: string, now: Time)
    : (Tables, Outcome)
  {
    if target == "" || verifier == "" then (t, Fail(EmptyParty))
    else if target == verifier then (t, Fail(SelfVerification))
    else if id in t.verifications then (t, Fail(AlreadyExists))
    else if target !in t.agents || verifier !in t.agents then (t, Fail(ForeignKey))
    else (t.(verifications := t.verifications[id := Verification(target, verifier, Pending, now)]), Ok)
  }

  /** The transaction commits even when the score lookup finds no agent. */
  function Submit(t: Tables, id: string, success: bool, now: Time): (Tables, Outcome) {
    if id !in t.verifications then (t, Fail(VerificationNotFound))
    else if !t.verifications[id].status.Pending? then (t, Fail(AlreadySettled))
    else
      var v := t.verifications[id];
      var marked := t.(verifications :=
        t.verifications[id := v.(status := if success then Completed else Failed)]);
      if success then
        if v.verifier in t.agents
        then (WithScore(marked, v.verifier, Min(MAX_SCORE, t.agents[v.verifier].score + 50), now), Ok)
        else (marked, Ok)
      else if v.target in t.agents then
        var penalised := WithScore(marked, v.target, Max(MIN_SCORE, t.agents[v.target].score - 100), now);
        (penalised.(events := t.events + [Event(v.target, VIOLATION, -100, now)]), Ok)
      else (marked, Ok)
  }

  /** The agents part of `Forget`: an empty key and a zero score. */
  function Revoke(t: Tables, did: string): Tables {
    if did in t.agents
    then t.(agents := t.agents[did := t.agents[did].(publicKey := "", score := 0)])
    else t
  }

  // ------------------------------------------------------------------ recalculation

  datatype Factors = Factors(
    completionRate: real,
    peerVerifications: int,
    memoryAttestations: int,
    policyViolations: int,
    disputesLost: int,
    daysInactive: int)

  /** Go's `math.Round`: halves go away from zero. */
  function Round(x: real): (r: int)
    ensures -0.5 <= r as real - x <= 0.5
  {
    if x >= 0.0 then (x + 0.5).Floor else -((0.5 - x).Floor)
  }

  function RawScore(f: Factors): real {
    500.0 + f.completionRate * 200.0
      + (50 * f.peerVerifications + 25 * f.memoryAttestations
         - 100 * f.policyViolations - 150 * f.disputesLost - f.daysInactive) as real
  }

  function Reputation(f: Factors): int {
    Clamp(Round(RawScore(f)))
  }

  /** The score is built up factor by factor, as the reputation engine does. */
  method CalculateReputation(f: Factors) returns (r: int)
    ensures 0 <= r <= 1000 && r == Reputation(f)
  {
    var score := 500.0;
    score := score + f.completionRate * 200.0;
    score := score + (f.peerVerifications * 50) as real;
    score := score + (f.memoryAttestations * 25) as real;
    score := score - (f.policyViolations * 100) as real;
    score := score - (f.disputesLost * 150) as real;
    score := score - (f.daysInactive * 1) as real;
    var rounded := Round(score);
    if rounded < 0 {
      return 0;
    }
    if rounded > 1000 {
      return 1000;
    }
    return rounded;
  }

  predicate CompletedFor(v: Verification, did: string) {
    v.verifier == did && v.status.Completed?
  }

  function CompletedIds(t: Tables, did: string): set<string> {
    set id | id in t.verifications && CompletedFor(t.verifications[id], did)
  }

  function CountAttestations(rows: seq<Attestation>, did: string): nat {
    if rows == [] then 0
    else CountAttestations(rows[..|rows| - 1], did) + (if rows[|rows| - 1].agent == did then 1 else 0)
  }

  function CountEvents(rows: seq<Event>, did: string, kind: string): nat {
    if rows == [] then 0
    else
      var last := rows[|rows| - 1];
      CountEvents(rows[..|rows| - 1], did, kind) + (if last.agent == did && last.kind == kind then 1 else 0)
  }

  function SumChanges(rows: seq<Event>, did: string): int {
    if rows == [] then 0
    else
      var last := rows[|rows| - 1];
      SumChanges(rows[..|rows| - 1], did) + (if last.agent == did then last.change else 0)
  }

  /** Whole days since the last activity; an activity time in the future counts as no days. */
  function DaysInactive(lastActiveAt: Time, now: Time): (days: nat)
    ensures now >= lastActiveAt ==> days * 24 * 3600 * 1_000_000_000 <= now - lastActiveAt < (days + 1) * 24 * 3600 * 1_000_000_000
    ensures now < lastActiveAt ==> days == 0
  {
    if now <= lastActiveAt then 0 else (now - lastActiveAt) / NANOS_PER_DAY
  }

  /** The factors the database yields for an agent; the completion rate is always 1. */
  function FactorsOf(t: Tables, did: string, now: Time): Factors
    requires did in t.agents
  {
    Factors(1.0, |CompletedIds(t, did)|, CountAttestations(t.attestations, did),
            CountEvents(t.events, did, VIOLATION), CountEvents(t.events, did, DISPUTE_LOST),
            DaysInactive(t.agents[did].lastActiveAt, now))
  }

  function Recalculate(t: Tables, did: string, now: Time): (Tables, Result<int>) {
    if did !in t.agents then (t, Failure(AgentNotFound))
    else
      var score := Reputation(FactorsOf(t, did, now));
      (t.(agents := t.agents[did := t.agents[did].(score := score)]), Success(score))
  }

  /** More merit and fewer faults never lower a score, through rounding and clamping alike. */
  lemma ReputationMonotone(f: Factors, g: Factors)
    requires f.completionRate <= g.completionRate
    requires f.peerVerifications <= g.peerVerifications && f.memoryAttestations <= g.memoryAttestations
    requires f.policyViolations >= g.policyViolations && f.disputesLost >= g.disputesLost
    requires f.daysInactive >= g.daysInactive
    ensures Reputation(f) <= Reputation(g)
  {
  }

  /** Recalculating twice at one instant is recalculating once, whatever score the row held before. */
  lemma RecalculateIdempotent(t: Tables, did: string, score: int, now: Time)
    requires did in t.agents
    ensures var rescored := t.(agents := t.agents[did := t.agents[did].(score := score)]);
            Recalculate(rescored, did, now) == Recalculate(t, did, now)
    ensures Recalculate(Recalculate(t, did, now).0, did, now) == Recalculate(t, did, now)
  {
    var rescored := t.(agents := t.agents[did := t.agents[did].(score := score)]);
    assert CompletedIds(rescored, did) == CompletedIds(t, did);
    var once := Recalculate(t, did, now).0;
    assert CompletedIds(once, did) == CompletedIds(t, did);
    assert rescored.agents[did := rescored.agents[did].(score := Reputation(FactorsOf(t, did, now)))]
        == once.agents;
    assert once.agents[did := once.agents[did].(score := Reputation(FactorsOf(t, did, now)))]
        == once.agents;
  }
}
