/**
 * What the memories table's statements come to, said of rows and their columns: which rows each
 * statement changes, which it returns, and what is in them.
 */
module MemoryOutcomes {
  import opened Prelude
  import opened MemoryTypes
  import opened MemoryTable
  import opened SqlWindow

  /** A row that is not deleted. */
  predicate Alive(t: Table, id: Uuid) {
    id in t && t[id].deletedAt == None
  }

  /** Every column but content and embedding is the same. */
  predicate SameColumns(a: Memory, b: Memory) {
    && a.id == b.id && a.kind == b.kind && a.namespace == b.namespace && a.agentDid == b.agentDid
    && a.metadata == b.metadata && a.validFrom == b.validFrom && a.validUntil == b.validUntil
    && a.distilledFrom == b.distilledFrom && a.createdAt == b.createdAt && a.updatedAt == b.updatedAt
  }

  /** Through JSON and back only the embedding is lost, and absent content becomes `null`. */
  lemma WireOutcome(m: Memory)
    ensures SameColumns(WireImage(m), m)
    ensures WireImage(m).content == (if m.content == "" then "null" else m.content)
    ensures WireImage(m).embedding == []
  {
  }

  /** A row can be read exactly while it is alive, with every column but the embedding. */
  lemma ReadOutcome(t: Table, id: Uuid)
    ensures Get(t, id).Success? <==> Alive(t, id)
    ensures Alive(t, id) ==>
              && SameColumns(Get(t, id).value, t[id].memory)
              && Get(t, id).value.content == (if t[id].memory.content == "" then "null" else t[id].memory.content)
  {
  }

  predicate Persistent(kind: MemoryType) {
    kind in {Episodic, Semantic, Procedural, Declarative, Feedback}
  }

  /** The row may be written: a persistent type, a vector of 1536 numbers or none, a known agent and source. */
  predicate Admissible(t: Table, agents: set<string>, m: Memory) {
    && Persistent(m.kind) && (|m.embedding| == 0 || |m.embedding| == 1536) && m.agentDid in agents
    && (m.distilledFrom == None || m.distilledFrom.value in t || m.distilledFrom.value == m.id)
  }

  /** An insert succeeds exactly for an admissible memory under a new id, and writes that one row. */
  lemma InsertOutcome(t: Table, agents: set<string>, m: Memory)
    ensures var (t', outcome) := Insert(t, agents, m);
            && (outcome == Ok <==> m.id !in t && Admissible(t, agents, m))
            && (outcome != Ok ==> t' == t)
            && (outcome == Ok ==>
                  && t'.Keys == t.Keys + {m.id} && (forall id <- t :: t'[id] == t[id])
                  && Alive(t', m.id) && SameColumns(t'[m.id].memory, m)
                  && t'[m.id].memory.embedding == m.embedding
                  && t'[m.id].memory.content == (if m.content == "" then "null" else m.content))
  {
  }

  /** An update succeeds exactly on a live row; the time of creation stays, the time of update is now. */
  lemma UpdateOutcome(t: Table, agents: set<string>, m: Memory, now: Time)
    ensures var (t', outcome) := Update(t, agents, m, now);
            && (outcome == Ok <==> Alive(t, m.id) && Admissible(t, agents, m))
            && (outcome != Ok ==> t' == t)
            && (outcome == Ok ==>
                  && t'.Keys == t.Keys && (forall id <- t :: id != m.id ==> t'[id] == t[id])
                  && Alive(t', m.id)
                  && SameColumns(t'[m.id].memory, m.(createdAt := t[m.id].memory.createdAt, updatedAt := now))
                  && t'[m.id].memory.embedding == m.embedding
                  && t'[m.id].memory.content == (if m.content == "" then "null" else m.content))
  {
  }

  /** A delete dates any row there is, dated before or not. */
  lemma DeleteOutcome(t: Table, id: Uuid, now: Time)
    ensures var (t', outcome) := Delete(t, id, now);
            && (outcome == Ok <==> id in t)
            && t'.Keys == t.Keys
            && (forall x <- t :: t'[x].memory == t[x].memory
                                 && t'[x].deletedAt == if x == id then Some(now) else t[x].deletedAt)
  {
  }

  /** A correction replaces the content of a live row, and its time of update. */
  lemma RectifyOutcome(t: Table, id: Uuid, correction: string, now: Time)
    ensures var (t', outcome) := Rectify(t, id, correction, now);
            && (outcome == Ok <==> Alive(t, id))
            && (outcome != Ok ==> t' == t)
            && (outcome == Ok ==>
                  && t'.Keys == t.Keys && (forall x <- t :: x != id ==> t'[x] == t[x])
                  && Alive(t', id) && t'[id].memory.content == correction
                  && t'[id].memory.embedding == t[id].memory.embedding
                  && SameColumns(t'[id].memory, t[id].memory.(updatedAt := now)))
  {
  }

  /** A row's date of deletion is set exactly if the row is alive and of the agent, whatever its type. */
  lemma ForgetRowsOutcome(t: Table, agent: string, now: Time)
    ensures var t' := Mark(t, OwnedBy(t, agent), now);
            && t'.Keys == t.Keys
            && forall id <- t ::
                 && t'[id].memory == t[id].memory
                 && t'[id].deletedAt == if t[id].deletedAt == None && t[id].memory.agentDid == agent then Some(now)
                                        else t[id].deletedAt
  {
  }

  /** An export has an entry for a row exactly if the row is alive and of the agent, with its columns. */
  lemma ExportOutcome(t: Table, agent: string, out: seq<Exported>, id: Uuid)
    requires IsExport(t, agent, out)
    ensures (exists i | 0 <= i < |out| :: out[i].id == id) <==> Alive(t, id) && t[id].memory.agentDid == agent
    ensures forall i, j | 0 <= i < j < |out| :: out[i].id != out[j].id
    ensures forall i | 0 <= i < |out| && out[i].id == id ::
              && id in t
              && out[i].kind == t[id].memory.kind && out[i].namespace == t[id].memory.namespace
              && out[i].content == t[id].memory.content && out[i].createdAt == t[id].memory.createdAt
  {
    assert id in OwnedBy(t, agent) <==> Alive(t, id) && t[id].memory.agentDid == agent;
  }

  /** The live rows whose validity ended before the given time. */
  function Overdue(t: Table, before: Time): set<Uuid> {
    set id | id in t && t[id].deletedAt == None && t[id].memory.validUntil != None
             && t[id].memory.validUntil.value < before
  }

  /** Expiry dates exactly the live rows whose validity ended before the given time, and returns how many. */
  lemma ExpireOutcome(t: Table, before: Time, now: Time)
    ensures var t' := Mark(t, Expiring(t, before), now);
            && t'.Keys == t.Keys
            && |Expiring(t, before)| == |Overdue(t, before)|
            && forall id <- t ::
                 && t'[id].memory == t[id].memory
                 && t'[id].deletedAt == if id in Overdue(t, before) then Some(now) else t[id].deletedAt
  {
    assert Expiring(t, before) == Overdue(t, before);
  }

  /** The live rows of a namespace, of the given types if any are given. */
  function Listed(t: Table, namespace: string, kinds: seq<MemoryType>): set<Uuid> {
    set id | id in t && t[id].deletedAt == None && t[id].memory.namespace == namespace
             && (|kinds| == 0 || t[id].memory.kind in kinds)
  }

  /** All of the ids once, by descending time of creation. */
  ghost predicate NewestFirst(t: Table, ids: set<Uuid>, ordered: seq<Uuid>) {
    && multiset(ordered) == multiset(ids)
    && forall i, j | 0 <= i < j < |ordered| ::
         ordered[i] in t && ordered[j] in t && t[ordered[i]].memory.createdAt >= t[ordered[j]].memory.createdAt
  }

  /** What stands in the order after the offset, up to the limit. */
  predicate CutFrom(ordered: seq<Uuid>, limit: nat, offset: nat, out: seq<Uuid>) {
    && |out| == (if offset >= |ordered| then 0
                 else if limit < |ordered| - offset then limit else |ordered| - offset)
    && forall i | 0 <= i < |out| :: offset + i < |ordered| && out[i] == ordered[offset + i]
  }

  lemma OrderingIsNewestFirst(t: Table, ids: set<Uuid>, ordered: seq<Uuid>)
    requires ids <= t.Keys && IsOrdering(multiset(ids), id => CreatedAt(t, id), ordered)
    ensures NewestFirst(t, ids, ordered)
  {
    var key := (id: Uuid) => CreatedAt(t, id);
    forall i | 0 <= i < |ordered| ensures ordered[i] in t && key(ordered[i]) == t[ordered[i]].memory.createdAt {
      assert ordered[i] in multiset(ordered);
    }
  }

  lemma WindowIsCut(ordered: seq<Uuid>, limit: nat, offset: nat)
    ensures CutFrom(ordered, limit, offset, Window(ordered, Some(limit), offset))
  {
  }

  /** A listing is the newest live rows of the namespace and types after the offset, up to the limit. */
  lemma ListingOutcome(t: Table, namespace: string, kinds: seq<MemoryType>, limit: nat, offset: nat, out: seq<Uuid>)
    requires IsListing(t, namespace, kinds, limit, offset, out)
    ensures exists ordered :: NewestFirst(t, Listed(t, namespace, kinds), ordered) && CutFrom(ordered, limit, offset, out)
  {
    var ids := Listed(t, namespace, kinds);
    assert InNamespace(t, namespace, kinds) == ids;
    var ordered :| IsOrdering(multiset(ids), id => CreatedAt(t, id), ordered)
                   && out == Window(ordered, Some(limit), offset);
    OrderingIsNewestFirst(t, ids, ordered);
    WindowIsCut(ordered, limit, offset);
  }
}
