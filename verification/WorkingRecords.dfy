/**
 * Which records the key space holds after a run. A record belongs to its key, not to its id: an
 * update that renames a memory leaves the old record behind, and a delete reaches only the record
 * its index entry points to.
 */
module WorkingRecords {
  import opened Prelude
  import opened MemoryTypes
  import opened WorkingKeys
  import opened WorkingStore
  import opened WorkingSearch

  function KeyOf(m: Memory): string {
    RecordKey(m.namespace, m.agentDid, m.id)
  }

  /** The step stores a record under the key. */
  predicate PutsAt(ttl: int, s: Step, key: string) {
    s.op.PutOp? && Accepts(ttl, s.op.memory, s.at) && KeyOf(s.op.memory) == key
  }

  /** The step deletes an id whose live lease lies under the key. */
  predicate RemovesAt(ttl: int, before: seq<Step>, s: Step, key: string) {
    s.op.RemoveOp? &&
      var lease := LeaseOf(ttl, before, s.op.id);
      lease.Some? && s.at < lease.value.expiresAt && KeyOf(lease.value.memory) == key
  }

  /** The record under a key: put there by the last step that did, unless a delete reached it since. */
  function RecordAt(ttl: int, steps: seq<Step>, key: string): Option<Lease> {
    if steps == [] then None
    else
      var front, last := steps[..|steps| - 1], steps[|steps| - 1];
      if PutsAt(ttl, last, key) then
        Some(Lease(WireImage(last.op.memory), ExpiryTime(ttl, last.op.memory, last.at)))
      else if RemovesAt(ttl, front, last, key) then None
      else RecordAt(ttl, front, key)
  }

  predicate Holds(keys: Keys, key: string, record: Option<Lease>) {
    if record.None? then key !in keys
    else key in keys && keys[key] == Text(Record(record.value.memory), record.value.expiresAt)
  }

  lemma PutHolds(keys: Keys, ttl: int, s: Step, namespace: string, did: string, id: Uuid, record: Option<Lease>)
    requires LatestKeysSorted(keys) && s.op.PutOp?
    requires Holds(keys, RecordKey(namespace, did, id), record)
    ensures var key, m := RecordKey(namespace, did, id), s.op.memory;
            Holds(Apply(keys, ttl, s), key,
                  if PutsAt(ttl, s, key) then Some(Lease(WireImage(m), ExpiryTime(ttl, m, s.at))) else record)
  {
    var m := s.op.memory;
    PutIsAllOrNothing(keys, ttl, m, s.at);
    RecordIsNotIndex(namespace, did, id, m.id);
    LatestIsNeither(m.namespace, m.agentDid, namespace, did, id);
  }

  lemma RemoveHolds(keys: Keys, ttl: int, s: Step, before: seq<Step>, namespace: string, did: string, id: Uuid,
                    record: Option<Lease>)
    requires s.op.RemoveOp? && Shows(keys, s.op.id, LeaseOf(ttl, before, s.op.id), s.at)
    requires Holds(keys, RecordKey(namespace, did, id), record)
    ensures var key := RecordKey(namespace, did, id);
            Holds(Apply(keys, ttl, s), key, if RemovesAt(ttl, before, s, key) then None else record)
  {
    RecordIsNotIndex(namespace, did, id, s.op.id);
  }

  /** Over every run, and for every record key, the key space holds exactly the record RecordAt names. */
  lemma {:induction false} RunHoldsRecords(ttl: int, steps: seq<Step>, now: Time, namespace: string, did: string, id: Uuid)
    requires ClockOrder(steps, now)
    ensures var key := RecordKey(namespace, did, id); Holds(Run(ttl, steps), key, RecordAt(ttl, steps, key))
    decreases |steps|
  {
    if steps != [] {
      var front, last := steps[..|steps| - 1], steps[|steps| - 1];
      var key := RecordKey(namespace, did, id);
      RunHoldsRecords(ttl, front, last.at, namespace, did, id);
      if last.op.PutOp? {
        ReachableSorted(ttl, front);
        PutHolds(Run(ttl, front), ttl, last, namespace, did, id, RecordAt(ttl, front, key));
      } else {
        RunShowsLeases(ttl, front, last.at, last.op.id);
        RemoveHolds(Run(ttl, front), ttl, last, front, namespace, did, id, RecordAt(ttl, front, key));
      }
    }
  }

  /** Step i put the record under the key, and since then no put and no delete reached it. */
  ghost predicate LastUnder(ttl: int, steps: seq<Step>, key: string, i: nat) {
    && i < |steps| && PutsAt(ttl, steps[i], key)
    && forall j | i < j < |steps| :: !PutsAt(ttl, steps[j], key) && !RemovesAt(ttl, steps[..j], steps[j], key)
  }

  lemma LastUnderStep(ttl: int, steps: seq<Step>, key: string, i: nat)
    requires i < |steps| - 1
    ensures var front, last := steps[..|steps| - 1], steps[|steps| - 1];
            LastUnder(ttl, steps, key, i) <==>
              LastUnder(ttl, front, key, i) && !PutsAt(ttl, last, key) && !RemovesAt(ttl, front, last, key)
  {
    var front, n := steps[..|steps| - 1], |steps| - 1;
    forall j | 0 <= j < n ensures steps[..j] == front[..j] && steps[j] == front[j] {
    }
    assert steps[..n] == front;
  }

  /** A key holds a record exactly when some accepted store had the last word under it. */
  lemma {:induction false} RecordIsLastWord(ttl: int, steps: seq<Step>, key: string)
    ensures RecordAt(ttl, steps, key).Some? <==> exists i: nat :: LastUnder(ttl, steps, key, i)
    ensures forall i: nat | LastUnder(ttl, steps, key, i) ::
              var m, at := steps[i].op.memory, steps[i].at;
              RecordAt(ttl, steps, key) == Some(Lease(WireImage(m), ExpiryTime(ttl, m, at)))
  {
    if steps != [] {
      var front, n := steps[..|steps| - 1], |steps| - 1;
      RecordIsLastWord(ttl, front, key);
      if PutsAt(ttl, steps[n], key) {
        assert LastUnder(ttl, steps, key, n);
      }
      forall i: nat | i < n
        ensures LastUnder(ttl, steps, key, i) <==>
                  LastUnder(ttl, front, key, i) && !PutsAt(ttl, steps[n], key) && !RemovesAt(ttl, front, steps[n], key)
      {
        LastUnderStep(ttl, steps, key, i);
      }
    }
  }

  /** What a scan of a record key contributes after a run: its live record, if that fits the query. */
  lemma ScannedRecord(ttl: int, steps: seq<Step>, now: Time, namespace: string, did: string, id: Uuid, q: Query)
    requires ClockOrder(steps, now)
    ensures var key := RecordKey(namespace, did, id);
            var record := RecordAt(ttl, steps, key);
            MatchOf(Run(ttl, steps), q, now, key) ==
              if !Skipped(key) && record.Some? && now < record.value.expiresAt && Fits(q, record.value.memory)
              then [record.value.memory] else []
  {
    RunHoldsRecords(ttl, steps, now, namespace, did, id);
  }

  /**
   * A live record is what Retrieve answers for its id exactly when the id's live lease has the
   * same joined names; otherwise it was left behind, found by searches alone.
   */
  lemma RetrievedOrLeftBehind(ttl: int, steps: seq<Step>, now: Time, namespace: string, did: string, id: Uuid)
    requires ClockOrder(steps, now)
    requires var record := RecordAt(ttl, steps, RecordKey(namespace, did, id));
             record.Some? && now < record.value.expiresAt
    ensures var m, lease := RecordAt(ttl, steps, RecordKey(namespace, did, id)).value.memory, LeaseOf(ttl, steps, id);
            (Get(Run(ttl, steps), id, now) == Success(m))
              <==> (lease.Some? && now < lease.value.expiresAt && SameNames(lease.value.memory, m))
  {
    RunHoldsRecords(ttl, steps, now, namespace, did, id);
    RunShowsLeases(ttl, steps, now, id);
    RecordKeyOfRecord(ttl, steps, RecordKey(namespace, did, id));
    var m, lease := RecordAt(ttl, steps, RecordKey(namespace, did, id)).value.memory, LeaseOf(ttl, steps, id);
    RecordKeysEqual(namespace, did, id, m.namespace, m.agentDid, m.id);
    if lease.Some? {
      var n := lease.value.memory;
      RecordKeysEqual(n.namespace, n.agentDid, id, m.namespace, m.agentDid, m.id);
    }
  }

  /** A record lies under the key its own names and id spell. */
  lemma {:induction false} RecordKeyOfRecord(ttl: int, steps: seq<Step>, key: string)
    ensures RecordAt(ttl, steps, key).Some? ==> KeyOf(RecordAt(ttl, steps, key).value.memory) == key
  {
    if steps != [] {
      RecordKeyOfRecord(ttl, steps[..|steps| - 1], key);
    }
  }

  /**
   * Store, renaming update, delete: the old record is live afterwards exactly when the joined
   * names differ and its own expiry has not come, whether or not the delete found the new one.
   */
  lemma MovedRecordOutlivesDelete(keys: Keys, ttl: int, m: Memory, t0: Time, moved: Memory, t1: Time, t2: Time,
                                  q: Query, now: Time)
    requires LatestKeysSorted(keys) && m.id == moved.id
    requires Accepts(ttl, m, t0) && Accepts(ttl, moved, t1) && t1 <= t2 <= now
    ensures var after := Remove(Put(Put(keys, ttl, m, t0).0, ttl, moved, t1).0, m.id, t2).0;
            var outlives := !SameNames(m, moved) && now < ExpiryTime(ttl, m, t0);
            && (Live(after, KeyOf(m), now) <==> outlives)
            && MatchOf(after, q, now, KeyOf(m))
                 == if outlives && !Skipped(KeyOf(m)) && Fits(q, WireImage(m)) then [WireImage(m)] else []
  {
    var first := Put(keys, ttl, m, t0).0;
    var second := Put(first, ttl, moved, t1).0;
    RecordKeysEqual(m.namespace, m.agentDid, m.id, moved.namespace, moved.agentDid, moved.id);
    RecordIsNotIndex(m.namespace, m.agentDid, m.id, m.id);
    PutIsAllOrNothing(keys, ttl, m, t0);
    TwoPuts(keys, ttl, m, t0, moved, t1);
    PutShowsOwn(first, ttl, moved, t1);
    ShowsLater(second, m.id, Some(Lease(WireImage(moved), ExpiryTime(ttl, moved, t1))), t1, t2);
  }

  lemma TwoPuts(keys: Keys, ttl: int, m: Memory, t0: Time, moved: Memory, t1: Time)
    requires LatestKeysSorted(keys) && Accepts(ttl, m, t0) && Accepts(ttl, moved, t1)
    ensures Holds(Put(Put(keys, ttl, m, t0).0, ttl, moved, t1).0, KeyOf(m),
                  if KeyOf(m) == KeyOf(moved) then Some(Lease(WireImage(moved), ExpiryTime(ttl, moved, t1)))
                  else Some(Lease(WireImage(m), ExpiryTime(ttl, m, t0))))
  {
    var first := Put(keys, ttl, m, t0).0;
    PutIsAllOrNothing(keys, ttl, m, t0);
    PutShowsOwn(keys, ttl, m, t0);
    PutHolds(first, ttl, Step(PutOp(moved), t1), m.namespace, m.agentDid, m.id,
             Some(Lease(WireImage(m), ExpiryTime(ttl, m, t0))));
  }
}
