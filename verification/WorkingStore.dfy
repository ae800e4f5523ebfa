/**
 * Working memory in a flat key space with expiry. Each operation is a few commands on keys; over
 * every run the whole behaves like one expiring slot for each id.
 */
module WorkingStore {
  import opened Prelude
  import opened MemoryTypes
  import opened WorkingKeys
  import opened LatestIndex

  datatype Value = Record(memory: Memory) | Pointer(key: string)

  /** Strings expire; the sorted sets of latest ids never do. */
  datatype Entry = Text(value: Value, expiresAt: Time) | Sorted(scores: Scores)

  type Keys = map<string, Entry>

  const LATEST_SIZE := 1000
  const DEFAULT_TTL := 24 * 3600 * NANOS_PER_SECOND

  predicate Live(keys: Keys, key: string, now: Time) {
    key in keys && (keys[key].Text? ==> now < keys[key].expiresAt)
  }

  /** The expiry handed to SET, in seconds: until ValidUntil if there is one, the default otherwise. */
  function ExpirySeconds(ttl: int, m: Memory, now: Time): int {
    if m.validUntil.Some? then WholeSeconds(m.validUntil.value - now) else WholeSeconds(ttl)
  }

  function ExpiryTime(ttl: int, m: Memory, now: Time): Time {
    now + ExpirySeconds(ttl, m, now) * NANOS_PER_SECOND
  }

  /** SET refuses an expiry that is not positive. */
  predicate Accepts(ttl: int, m: Memory, now: Time) {
    m.kind.Working? && ExpirySeconds(ttl, m, now) > 0
  }

  function WithRecord(keys: Keys, m: Memory, expiresAt: Time): Keys {
    var key := RecordKey(m.namespace, m.agentDid, m.id);
    keys[key := Text(Record(WireImage(m)), expiresAt)][IndexKey(m.id) := Text(Pointer(key), expiresAt)]
  }

  function Members(keys: Keys, latest: string): Scores {
    if latest in keys && keys[latest].Sorted? then keys[latest].scores else map[]
  }

  /** ZADD, then removal of all but the top 1000; a live string under the key is an error. */
  function WithLatest(keys: Keys, m: Memory, now: Time): (Keys, Outcome) {
    var latest := LatestKey(m.namespace, m.agentDid);
    if Live(keys, latest, now) && keys[latest].Text? then (keys, Fail(WrongKind))
    else
      var added := Members(keys, latest)[m.id := UnixSeconds(m.createdAt)];
      (keys[latest := Sorted(Best(added, LATEST_SIZE))], Ok)
  }

  function Put(keys: Keys, ttl: int, m: Memory, now: Time): (Keys, Outcome) {
    if !m.kind.Working? then (keys, Fail(WrongBackend))
    else if ExpirySeconds(ttl, m, now) <= 0 then (keys, Fail(InvalidExpiry))
    else WithLatest(WithRecord(keys, m, ExpiryTime(ttl, m, now)), m, now)
  }

  function Get(keys: Keys, id: Uuid, now: Time): Result<Memory> {
    var index := IndexKey(id);
    if !Live(keys, index, now) then Failure(MemoryNotFound)
    else if !(keys[index].Text? && keys[index].value.Pointer?) then Failure(WrongKind)
    else
      var key := keys[index].value.key;
      if !Live(keys, key, now) then Failure(MemoryNotFound)
      else if !(keys[key].Text? && keys[key].value.Record?) then Failure(WrongKind)
      else Success(keys[key].value.memory)
  }

  function Remove(keys: Keys, id: Uuid, now: Time): (Keys, Outcome) {
    var index := IndexKey(id);
    if !Live(keys, index, now) then (keys, Fail(MemoryNotFound))
    else if !(keys[index].Text? && keys[index].value.Pointer?) then (keys, Fail(WrongKind))
    else (keys - {index, keys[index].value.key}, Ok)
  }

  class ValkeyStore {
    var keys: Keys
    const ttl: int

    constructor (defaultTtl: int)
      ensures keys == map[] && ttl == if defaultTtl == 0 then 86_400 * 1_000_000_000 else defaultTtl
    {
      keys := map[];
      ttl := if defaultTtl == 0 then DEFAULT_TTL else defaultTtl;
    }

    method Store(m: Memory, now: Time) returns (outcome: Outcome)
      modifies this
      ensures (keys, outcome) == Put(old(keys), ttl, m, now)
    {
      if m.kind != Working { return Fail(WrongBackend); }
      var key := RecordKey(m.namespace, m.agentDid, m.id);
      var ttlSeconds := WholeSeconds(ttl);
      if m.validUntil.Some? {
        ttlSeconds := WholeSeconds(m.validUntil.value - now);
      }
      if ttlSeconds <= 0 { return Fail(InvalidExpiry); }
      var expiresAt := now + ttlSeconds * NANOS_PER_SECOND;
      keys := keys[key := Text(Record(WireImage(m)), expiresAt)];
      keys := keys[IndexKey(m.id) := Text(Pointer(key), expiresAt)];
      var latest := LatestKey(m.namespace, m.agentDid);
      if Live(keys, latest, now) && keys[latest].Text? { return Fail(WrongKind); }
      var scores := Members(keys, latest)[m.id := UnixSeconds(m.createdAt)];
      ghost var before := keys;
      keys := keys[latest := Sorted(scores)];
      keys := keys[latest := Sorted(Best(scores, LATEST_SIZE))];
      assert keys == before[latest := Sorted(Best(scores, LATEST_SIZE))];
      return Ok;
    }

    method Update(m: Memory, now: Time) returns (outcome: Outcome)
      modifies this
      ensures (keys, outcome) == Put(old(keys), ttl, m, now)
    {
      outcome := Store(m, now);
    }

    method Retrieve(id: Uuid, now: Time) returns (result: Result<Memory>)
      ensures result == Get(keys, id, now)
    {
      var index := IndexKey(id);
      if !Live(keys, index, now) { return Failure(MemoryNotFound); }
      if !keys[index].Text? || !keys[index].value.Pointer? { return Failure(WrongKind); }
      var actualKey := keys[index].value.key;
      if !Live(keys, actualKey, now) { return Failure(MemoryNotFound); }
      if !keys[actualKey].Text? || !keys[actualKey].value.Record? { return Failure(WrongKind); }
      return Success(keys[actualKey].value.memory);
    }

    method Delete(id: Uuid, now: Time) returns (outcome: Outcome)
      modifies this
      ensures (keys, outcome) == Remove(old(keys), id, now)
    {
      var index := IndexKey(id);
      if !Live(keys, index, now) { return Fail(MemoryNotFound); }
      if !keys[index].Text? || !keys[index].value.Pointer? { return Fail(WrongKind); }
      var actualKey := keys[index].value.key;
      keys := keys - {index};
      keys := keys - {actualKey};
      assert keys == old(keys) - {index, actualKey};
      return Ok;
    }
  }

  // ------------------------------------------------------------------ runs

  datatype Op = PutOp(memory: Memory) | RemoveOp(id: Uuid)

  datatype Step = Step(op: Op, at: Time)

  function Apply(keys: Keys, ttl: int, s: Step): Keys {
    match s.op
    case PutOp(m) => Put(keys, ttl, m, s.at).0
    case RemoveOp(id) => Remove(keys, id, s.at).0
  }

  function Run(ttl: int, steps: seq<Step>): Keys {
    if steps == [] then map[] else Apply(Run(ttl, steps[..|steps| - 1]), ttl, steps[|steps| - 1])
  }

  /** Time does not run backwards, and has not passed `now` yet. */
  predicate ClockOrder(steps: seq<Step>, now: Time) {
    steps != [] ==>
      var last := steps[|steps| - 1];
      last.at <= now && ClockOrder(steps[..|steps| - 1], last.at)
  }

  // ------------------------------------------------------------------ the simple form

  /** What one id holds: a memory until a point in time. */
  datatype Lease = Lease(memory: Memory, expiresAt: Time)

  function NextLease(ttl: int, s: Step, id: Uuid, lease: Option<Lease>): Option<Lease> {
    match s.op
    case PutOp(m) =>
      if m.id == id && Accepts(ttl, m, s.at)
      then Some(Lease(WireImage(m), ExpiryTime(ttl, m, s.at)))
      else lease
    case RemoveOp(x) => if x == id then None else lease
  }

  /** The reference store: the last accepted memory of the id, unless a delete came after it. */
  function LeaseOf(ttl: int, steps: seq<Step>, id: Uuid): Option<Lease> {
    if steps == [] then None
    else NextLease(ttl, steps[|steps| - 1], id, LeaseOf(ttl, steps[..|steps| - 1], id))
  }

  function Current(lease: Option<Lease>, now: Time): Result<Memory> {
    if lease.Some? && now < lease.value.expiresAt then Success(lease.value.memory) else Failure(MemoryNotFound)
  }

  /** The key space shows this lease for the id from time t on. */
  ghost predicate Shows(keys: Keys, id: Uuid, lease: Option<Lease>, t: Time) {
    if lease.Some? && t < lease.value.expiresAt then
      var m, expiresAt := lease.value.memory, lease.value.expiresAt;
      var key := RecordKey(m.namespace, m.agentDid, id);
      && m.id == id
      && IndexKey(id) in keys && keys[IndexKey(id)] == Text(Pointer(key), expiresAt)
      && key in keys && keys[key] == Text(Record(m), expiresAt)
    else
      IndexKey(id) in keys ==> keys[IndexKey(id)].Text? && keys[IndexKey(id)].expiresAt <= t
  }

  ghost predicate LatestKeysSorted(keys: Keys) {
    forall namespace, did :: LatestKey(namespace, did) in keys ==> keys[LatestKey(namespace, did)].Sorted?
  }

  lemma WithRecordKeepsSorted(keys: Keys, m: Memory, expiresAt: Time)
    requires LatestKeysSorted(keys)
    ensures LatestKeysSorted(WithRecord(keys, m, expiresAt))
  {
    forall namespace, did
      ensures LatestKey(namespace, did) != RecordKey(m.namespace, m.agentDid, m.id)
      ensures LatestKey(namespace, did) != IndexKey(m.id)
    {
      LatestIsNeither(namespace, did, m.namespace, m.agentDid, m.id);
    }
  }

  /** Every reachable latest key holds a sorted set, so ZADD never meets a string. */
  lemma {:induction false} ReachableSorted(ttl: int, steps: seq<Step>)
    ensures LatestKeysSorted(Run(ttl, steps))
  {
    if steps != [] {
      var keys := Run(ttl, steps[..|steps| - 1]);
      var last := steps[|steps| - 1];
      ReachableSorted(ttl, steps[..|steps| - 1]);
      if last.op.PutOp? {
        PutIsAllOrNothing(keys, ttl, last.op.memory, last.at);
      }
    }
  }

  /** A store succeeds exactly when it is accepted, and a failed one leaves every key as it was. */
  lemma PutIsAllOrNothing(keys: Keys, ttl: int, m: Memory, now: Time)
    requires LatestKeysSorted(keys)
    ensures Put(keys, ttl, m, now).1.Ok? <==> Accepts(ttl, m, now)
    ensures Put(keys, ttl, m, now).1.Fail? ==> Put(keys, ttl, m, now).0 == keys
    ensures LatestKeysSorted(Put(keys, ttl, m, now).0)
  {
    WithRecordKeepsSorted(keys, m, ExpiryTime(ttl, m, now));
  }

  /** A store of id x shows its own lease. */
  lemma PutShowsOwn(keys: Keys, ttl: int, m: Memory, now: Time)
    requires LatestKeysSorted(keys) && Accepts(ttl, m, now)
    ensures Put(keys, ttl, m, now).1.Ok?
    ensures Shows(Put(keys, ttl, m, now).0, m.id, Some(Lease(WireImage(m), ExpiryTime(ttl, m, now))), now)
  {
    WithRecordKeepsSorted(keys, m, ExpiryTime(ttl, m, now));
    LatestIsNeither(m.namespace, m.agentDid, m.namespace, m.agentDid, m.id);
    RecordIsNotIndex(m.namespace, m.agentDid, m.id, m.id);
  }

  /** A store of one id does not disturb another, even under names that run into each other. */
  lemma PutKeepsOthers(keys: Keys, ttl: int, m: Memory, now: Time, id: Uuid, lease: Option<Lease>)
    requires id != m.id && Shows(keys, id, lease, now)
    ensures Shows(Put(keys, ttl, m, now).0, id, lease, now)
  {
    IndexKeysDiffer(id, m.id);
    RecordIsNotIndex(m.namespace, m.agentDid, m.id, id);
    LatestIsNeither(m.namespace, m.agentDid, m.namespace, m.agentDid, id);
    if lease.Some? {
      var n := lease.value.memory;
      RecordKeysEqual(n.namespace, n.agentDid, id, m.namespace, m.agentDid, m.id);
      RecordIsNotIndex(n.namespace, n.agentDid, id, m.id);
      LatestIsNeither(m.namespace, m.agentDid, n.namespace, n.agentDid, id);
    }
  }

  lemma RemoveShowsNothing(keys: Keys, id: Uuid, lease: Option<Lease>, now: Time)
    requires Shows(keys, id, lease, now)
    ensures Shows(Remove(keys, id, now).0, id, None, now)
  {
  }

  lemma RemoveKeepsOthers(keys: Keys, x: Uuid, leaseX: Option<Lease>, now: Time, id: Uuid, lease: Option<Lease>)
    requires id != x && Shows(keys, x, leaseX, now) && Shows(keys, id, lease, now)
    ensures Shows(Remove(keys, x, now).0, id, lease, now)
  {
  }

  lemma ShowsLater(keys: Keys, id: Uuid, lease: Option<Lease>, t: Time, u: Time)
    requires Shows(keys, id, lease, t) && t <= u
    ensures Shows(keys, id, lease, u)
  {
  }

  /** The key space of every run shows the reference lease of every id. */
  lemma {:induction false} RunShowsLeases(ttl: int, steps: seq<Step>, now: Time, id: Uuid)
    requires ClockOrder(steps, now)
    ensures Shows(Run(ttl, steps), id, LeaseOf(ttl, steps, id), now)
    decreases |steps|
  {
    if steps != [] {
      var front, last := steps[..|steps| - 1], steps[|steps| - 1];
      var keys := Run(ttl, front);
      RunShowsLeases(ttl, front, last.at, id);
      match last.op
      case PutOp(m) =>
        if m.id != id {
          PutKeepsOthers(keys, ttl, m, last.at, id, LeaseOf(ttl, front, id));
        } else if Accepts(ttl, m, last.at) {
          ReachableSorted(ttl, front);
          PutShowsOwn(keys, ttl, m, last.at);
        }
      case RemoveOp(x) =>
        if x == id {
          RemoveShowsNothing(keys, id, LeaseOf(ttl, front, id), last.at);
        } else {
          RunShowsLeases(ttl, front, last.at, x);
          RemoveKeepsOthers(keys, x, LeaseOf(ttl, front, x), last.at, id, LeaseOf(ttl, front, id));
        }
      ShowsLater(Run(ttl, steps), id, LeaseOf(ttl, steps, id), last.at, now);
    }
  }

  lemma GetShown(keys: Keys, id: Uuid, lease: Option<Lease>, now: Time)
    requires Shows(keys, id, lease, now)
    ensures Get(keys, id, now) == Current(lease, now)
  {
  }

  /**
   * Refinement: after every run, Retrieve answers exactly what the simple expiring store holds,
   * for all namespaces and DIDs and through updates that move a memory to other names.
   */
  lemma RetrieveRefinesLeases(ttl: int, steps: seq<Step>, now: Time, id: Uuid)
    requires ClockOrder(steps, now)
    ensures Get(Run(ttl, steps), id, now) == Current(LeaseOf(ttl, steps, id), now)
  {
    RunShowsLeases(ttl, steps, now, id);
    GetShown(Run(ttl, steps), id, LeaseOf(ttl, steps, id), now);
  }

  /**
   * A store cut short by a lost connection shows the old or the new memory, never anything else.
   * After the first SET it is the new one exactly when the id holds a live memory whose joined
   * names are the same; after the second SET it is always the new one.
   */
  lemma InterruptedPut(keys: Keys, ttl: int, m: Memory, now: Time, lease: Option<Lease>)
    requires Shows(keys, m.id, lease, now) && Accepts(ttl, m, now)
    ensures var key, expiresAt := RecordKey(m.namespace, m.agentDid, m.id), ExpiryTime(ttl, m, now);
            var afterFirst := keys[key := Text(Record(WireImage(m)), expiresAt)];
            && Get(afterFirst, m.id, now) ==
                 (if lease.Some? && now < lease.value.expiresAt && SameNames(lease.value.memory, m)
                  then Success(WireImage(m)) else Current(lease, now))
            && Get(WithRecord(keys, m, expiresAt), m.id, now) == Success(WireImage(m))
  {
    RecordIsNotIndex(m.namespace, m.agentDid, m.id, m.id);
    if lease.Some? {
      var n := lease.value.memory;
      RecordKeysEqual(n.namespace, n.agentDid, m.id, m.namespace, m.agentDid, m.id);
      RecordIsNotIndex(n.namespace, n.agentDid, m.id, m.id);
    }
  }

  /** The names read the same once joined by a colon. */
  predicate SameNames(a: Memory, b: Memory) {
    a.namespace + ":" + a.agentDid == b.namespace + ":" + b.agentDid
  }

  /** Step i stored the lease and nothing after it stored or deleted the id. */
  ghost predicate LastWord(ttl: int, steps: seq<Step>, id: Uuid, i: nat) {
    && i < |steps| && steps[i].op.PutOp? && steps[i].op.memory.id == id
    && Accepts(ttl, steps[i].op.memory, steps[i].at)
    && forall j | i < j < |steps| ::
         && (steps[j].op.PutOp? && steps[j].op.memory.id == id ==> !Accepts(ttl, steps[j].op.memory, steps[j].at))
         && (steps[j].op.RemoveOp? ==> steps[j].op.id != id)
  }

  /** The reference store holds a memory exactly when some store had the last word on its id. */
  lemma {:induction false} LeaseIsLastWord(ttl: int, steps: seq<Step>, id: Uuid)
    ensures LeaseOf(ttl, steps, id).Some? <==> exists i: nat :: LastWord(ttl, steps, id, i)
    ensures forall i: nat | LastWord(ttl, steps, id, i) ::
              var m, at := steps[i].op.memory, steps[i].at;
              LeaseOf(ttl, steps, id) == Some(Lease(WireImage(m), ExpiryTime(ttl, m, at)))
  {
    if steps != [] {
      var front, n := steps[..|steps| - 1], |steps| - 1;
      LeaseIsLastWord(ttl, front, id);
      forall i: nat | LastWord(ttl, steps, id, i) && i < n ensures LastWord(ttl, front, id, i) {
      }
      forall i: nat | LastWord(ttl, front, id, i) && NextLease(ttl, steps[n], id, None) == None
                 && !(steps[n].op.RemoveOp? && steps[n].op.id == id)
        ensures LastWord(ttl, steps, id, i)
      {
      }
      if NextLease(ttl, steps[n], id, None).Some? {
        assert LastWord(ttl, steps, id, n);
      }
    }
  }

  /** A memory is never served at or after its ValidUntil. */
  lemma NeverPastValidUntil(ttl: int, steps: seq<Step>, now: Time, id: Uuid)
    requires ClockOrder(steps, now)
    ensures var answer := Get(Run(ttl, steps), id, now);
            answer.Success? && answer.value.validUntil.Some? ==> now < answer.value.validUntil.value
  {
    RetrieveRefinesLeases(ttl, steps, now, id);
    LeaseIsLastWord(ttl, steps, id);
  }

  // ------------------------------------------------------------------ the latest sets of a run

  /** Every id ever added under a latest key, with its newest score. */
  function Added(ttl: int, steps: seq<Step>, latest: string): Scores {
    if steps == [] then map[]
    else
      var before, last := Added(ttl, steps[..|steps| - 1], latest), steps[|steps| - 1];
      if AddsTo(ttl, last, latest)
      then before[last.op.memory.id := UnixSeconds(last.op.memory.createdAt)]
      else before
  }

  predicate AddsTo(ttl: int, s: Step, latest: string) {
    s.op.PutOp? && Accepts(ttl, s.op.memory, s.at)
    && LatestKey(s.op.memory.namespace, s.op.memory.agentDid) == latest
  }

  /** No step pushes a member of the latest set below one that was trimmed from it. */
  predicate NeverOvertaken(ttl: int, steps: seq<Step>, latest: string) {
    steps != [] ==>
      var front, last := steps[..|steps| - 1], steps[|steps| - 1];
      && NeverOvertaken(ttl, front, latest)
      && (AddsTo(ttl, last, latest) ==>
            NoTrimmedOvertakes(Added(ttl, front, latest), LATEST_SIZE, last.op.memory.id,
                               UnixSeconds(last.op.memory.createdAt)))
  }

  /** No id comes back with an earlier creation second; in particular when each keeps its CreatedAt. */
  predicate CreationNotLowered(ttl: int, steps: seq<Step>, latest: string) {
    steps != [] ==>
      var front, last := steps[..|steps| - 1], steps[|steps| - 1];
      && CreationNotLowered(ttl, front, latest)
      && (AddsTo(ttl, last, latest) ==>
            var before, id := Added(ttl, front, latest), last.op.memory.id;
            id in before ==> before[id] <= UnixSeconds(last.op.memory.createdAt))
  }

  lemma {:induction false} NotLoweredNeverOvertaken(ttl: int, steps: seq<Step>, latest: string)
    requires CreationNotLowered(ttl, steps, latest)
    ensures NeverOvertaken(ttl, steps, latest)
  {
    if steps != [] {
      var front, last := steps[..|steps| - 1], steps[|steps| - 1];
      NotLoweredNeverOvertaken(ttl, front, latest);
      if AddsTo(ttl, last, latest) {
        NotLoweredNotOvertaken(Added(ttl, front, latest), LATEST_SIZE, last.op.memory.id,
                               UnixSeconds(last.op.memory.createdAt));
      }
    }
  }

  /** One step adds to one latest set and trims it, or leaves the set alone. */
  lemma StepOnLatest(keys: Keys, ttl: int, s: Step, namespace: string, did: string, leaseX: Option<Lease>)
    requires LatestKeysSorted(keys)
    requires s.op.RemoveOp? ==> Shows(keys, s.op.id, leaseX, s.at)
    ensures var latest := LatestKey(namespace, did);
            Members(Apply(keys, ttl, s), latest)
              == if AddsTo(ttl, s, latest)
                 then Best(Members(keys, latest)[s.op.memory.id := UnixSeconds(s.op.memory.createdAt)], LATEST_SIZE)
                 else Members(keys, latest)
  {
    match s.op
    case PutOp(m) =>
      LatestIsNeither(namespace, did, m.namespace, m.agentDid, m.id);
      WithRecordKeepsSorted(keys, m, ExpiryTime(ttl, m, s.at));
    case RemoveOp(x) =>
      if leaseX.Some? {
        LatestIsNeither(namespace, did, leaseX.value.memory.namespace, leaseX.value.memory.agentDid, x);
      } else {
        LatestIsNeither(namespace, did, "", "", x);
      }
  }

  /** The latest set is what one trim of everything ever added would leave. */
  predicate LatestExact(ttl: int, steps: seq<Step>, latest: string) {
    Members(Run(ttl, steps), latest) == Best(Added(ttl, steps, latest), LATEST_SIZE)
  }

  /** So it was after every step of the run. */
  predicate AlwaysExact(ttl: int, steps: seq<Step>, latest: string) {
    LatestExact(ttl, steps, latest) && (steps != [] ==> AlwaysExact(ttl, steps[..|steps| - 1], latest))
  }

  /** From an exact set, a step leads to an exact one unless it adds a member that is overtaken. */
  lemma LatestExactStep(ttl: int, steps: seq<Step>, namespace: string, did: string)
    requires steps != [] && ClockOrder(steps, steps[|steps| - 1].at)
    requires LatestExact(ttl, steps[..|steps| - 1], LatestKey(namespace, did))
    ensures var front, last, latest := steps[..|steps| - 1], steps[|steps| - 1], LatestKey(namespace, did);
            LatestExact(ttl, steps, latest) <==>
              (AddsTo(ttl, last, latest) ==>
                 NoTrimmedOvertakes(Added(ttl, front, latest), LATEST_SIZE, last.op.memory.id,
                                    UnixSeconds(last.op.memory.createdAt)))
  {
    var front, last, latest := steps[..|steps| - 1], steps[|steps| - 1], LatestKey(namespace, did);
    ReachableSorted(ttl, front);
    if last.op.RemoveOp? {
      RunShowsLeases(ttl, front, last.at, last.op.id);
      StepOnLatest(Run(ttl, front), ttl, last, namespace, did, LeaseOf(ttl, front, last.op.id));
    } else {
      StepOnLatest(Run(ttl, front), ttl, last, namespace, did, None);
      if AddsTo(ttl, last, latest) {
        TrimThenAdd(Added(ttl, front, latest), LATEST_SIZE, last.op.memory.id, UnixSeconds(last.op.memory.createdAt));
      }
    }
  }

  /**
   * Streaming top 1000: adding and trimming at each store leaves, after every step of the run,
   * exactly the 1000 best of everything ever added under the key if and only if no step pushes a
   * member of the set below a trimmed one.
   */
  lemma {:induction false} LatestIsBestOfAllIff(ttl: int, steps: seq<Step>, now: Time, namespace: string, did: string)
    requires ClockOrder(steps, now)
    ensures AlwaysExact(ttl, steps, LatestKey(namespace, did)) <==> NeverOvertaken(ttl, steps, LatestKey(namespace, did))
    decreases |steps|
  {
    if steps != [] {
      var front, last := steps[..|steps| - 1], steps[|steps| - 1];
      LatestIsBestOfAllIff(ttl, front, last.at, namespace, did);
      if AlwaysExact(ttl, front, LatestKey(namespace, did)) {
        LatestExactStep(ttl, steps, namespace, did);
      }
    }
  }

  /** In particular when each id keeps its creation time. */
  lemma LatestIsBestOfAll(ttl: int, steps: seq<Step>, now: Time, namespace: string, did: string)
    requires ClockOrder(steps, now)
    requires CreationNotLowered(ttl, steps, LatestKey(namespace, did))
    ensures LatestExact(ttl, steps, LatestKey(namespace, did))
  {
    NotLoweredNeverOvertaken(ttl, steps, LatestKey(namespace, did));
    LatestIsBestOfAllIff(ttl, steps, now, namespace, did);
  }
}
