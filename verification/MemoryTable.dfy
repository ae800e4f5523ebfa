/** The `memories` table with soft deletes, and the operations that write and read it. */
module MemoryTable {
  import opened Prelude
  import opened MemoryTypes
  import opened SqlWindow

  datatype Row = Row(memory: Memory, deletedAt: Option<Time>)

  type Table = map<Uuid, Row>

  predicate Visible(t: Table, id: Uuid) {
    id in t && t[id].deletedAt.None?
  }

  predicate Tombstoned(t: Table, id: Uuid) {
    id in t && t[id].deletedAt.Some?
  }

  /** The vector column's fixed dimension. */
  const DIMENSION := 1536

  /** The table's type, CHECK and FOREIGN KEY constraints on a row about to be written. */
  function Violation(t: Table, agents: set<string>, m: Memory): Outcome {
    if m.kind.Working? || m.kind.Other? then Fail(InvalidType)
    else if m.embedding != [] && |m.embedding| != DIMENSION then Fail(InvalidDimension)
    else if m.agentDid !in agents then Fail(ForeignKey)
    else if m.distilledFrom.Some? && m.distilledFrom.value != m.id && m.distilledFrom.value !in t then Fail(ForeignKey)
    else Ok
  }

  /** What the columns hold: absent content is stored as JSON null. */
  function Stored(m: Memory): Memory {
    m.(content := WireImage(m).content)
  }

  function Insert(t: Table, agents: set<string>, m: Memory): (Table, Outcome) {
    if m.kind.Working? then (t, Fail(WrongBackend))
    else if m.id in t then (t, Fail(AlreadyExists))
    else if Violation(t, agents, m).Fail? then (t, Violation(t, agents, m))
    else (t[m.id := Row(Stored(m), None)], Ok)
  }

  /** Every column but the id and the creation time; only rows that are not deleted match. */
  function Update(t: Table, agents: set<string>, m: Memory, now: Time): (Table, Outcome) {
    if !Visible(t, m.id) then (t, Fail(MemoryNotFound))
    else if Violation(t, agents, m).Fail? then (t, Violation(t, agents, m))
    else
      var written := Stored(m).(createdAt := t[m.id].memory.createdAt, updatedAt := now);
      (t[m.id := Row(written, None)], Ok)
  }

  /** Marks the row whether or not it was marked before. */
  function Delete(t: Table, id: Uuid, now: Time): (Table, Outcome) {
    if id !in t then (t, Fail(MemoryNotFound))
    else (t[id := t[id].(deletedAt := Some(now))], Ok)
  }

  function Rectify(t: Table, id: Uuid, correction: string, now: Time): (Table, Outcome) {
    if !Visible(t, id) then (t, Fail(MemoryNotFound))
    else (t[id := Row(t[id].memory.(content := correction, updatedAt := now), None)], Ok)
  }

  function Get(t: Table, id: Uuid): Result<Memory> {
    if Visible(t, id) then Success(WireImage(t[id].memory)) else Failure(MemoryNotFound)
  }

  /** Marks a set of rows in one statement. */
  function Mark(t: Table, ids: set<Uuid>, now: Time): Table {
    map id | id in t :: if id in ids then t[id].(deletedAt := Some(now)) else t[id]
  }

  function Expiring(t: Table, before: Time): set<Uuid> {
    set id | id in t && t[id].deletedAt.None? && t[id].memory.validUntil.Some? && t[id].memory.validUntil.value < before
  }

  function OwnedBy(t: Table, agent: string): set<Uuid> {
    set id | id in t && t[id].deletedAt.None? && t[id].memory.agentDid == agent
  }

  function InNamespace(t: Table, namespace: string, kinds: seq<MemoryType>): set<Uuid> {
    set id | id in t && t[id].deletedAt.None? && t[id].memory.namespace == namespace
             && (kinds == [] || t[id].memory.kind in kinds)
  }

  function CreatedAt(t: Table, id: Uuid): int {
    if id in t then t[id].memory.createdAt else 0
  }

  /** One entry of an agent's export. */
  datatype Exported = Exported(id: Uuid, kind: MemoryType, namespace: string, content: string, createdAt: Time)

  function ExportedRow(t: Table, id: Uuid): Exported
    requires id in t
  {
    var m := t[id].memory;
    Exported(id, m.kind, m.namespace, m.content, m.createdAt)
  }

  /** Every visible row of the agent once, with its exported columns, in any order. */
  ghost predicate IsExport(t: Table, agent: string, out: seq<Exported>) {
    && (forall i | 0 <= i < |out| :: out[i].id in OwnedBy(t, agent) && out[i] == ExportedRow(t, out[i].id))
    && (forall i, j | 0 <= i < j < |out| :: out[i].id != out[j].id)
    && (forall id <- OwnedBy(t, agent) :: exists i | 0 <= i < |out| :: out[i].id == id)
  }

  /** What `ListByNamespace` may return: a page of the visible rows, newest first. */
  ghost predicate IsListing(t: Table, namespace: string, kinds: seq<MemoryType>, limit: nat, offset: nat, out: seq<Uuid>) {
    IsWindow(multiset(InNamespace(t, namespace, kinds)), id => CreatedAt(t, id), Some(limit), offset, out)
  }

  class PostgresStore {
    var rows: Table

    constructor ()
      ensures rows == map[]
    {
      rows := map[];
    }

    method Store(m: Memory, agents: set<string>) returns (outcome: Outcome)
      modifies this
      ensures (rows, outcome) == Insert(old(rows), agents, m)
    {
      if m.kind == Working { return Fail(WrongBackend); }
      if m.id in rows { return Fail(AlreadyExists); }
      outcome := Violation(rows, agents, m);
      if outcome.Ok? {
        rows := rows[m.id := Row(Stored(m), None)];
      }
    }

    method UpdateRow(m: Memory, agents: set<string>, now: Time) returns (outcome: Outcome)
      modifies this
      ensures (rows, outcome) == Update(old(rows), agents, m, now)
    {
      if m.id !in rows || rows[m.id].deletedAt.Some? { return Fail(MemoryNotFound); }
      outcome := Violation(rows, agents, m);
      if outcome.Ok? {
        var kept := rows[m.id].memory.createdAt;
        rows := rows[m.id := Row(Stored(m).(createdAt := kept, updatedAt := now), None)];
      }
    }

    method DeleteRow(id: Uuid, now: Time) returns (outcome: Outcome)
      modifies this
      ensures (rows, outcome) == Delete(old(rows), id, now)
    {
      if id !in rows { return Fail(MemoryNotFound); }
      rows := rows[id := rows[id].(deletedAt := Some(now))];
      return Ok;
    }

    method Retrieve(id: Uuid) returns (result: Result<Memory>)
      ensures result == Get(rows, id)
    {
      if id !in rows || rows[id].deletedAt.Some? { return Failure(MemoryNotFound); }
      return Success(WireImage(rows[id].memory));
    }

    method RectifyRow(id: Uuid, correction: string, now: Time) returns (outcome: Outcome)
      modifies this
      ensures (rows, outcome) == Rectify(old(rows), id, correction, now)
    {
      if id !in rows || rows[id].deletedAt.Some? { return Fail(MemoryNotFound); }
      rows := rows[id := Row(rows[id].memory.(content := correction, updatedAt := now), None)];
      return Ok;
    }

    method Expire(before: Time, now: Time) returns (affected: nat)
      modifies this
      ensures rows == Mark(old(rows), Expiring(old(rows), before), now)
      ensures affected == |Expiring(old(rows), before)|
    {
      var due := Expiring(rows, before);
      affected := |due|;
      rows := Mark(rows, due, now);
    }

    method ForgetRows(agent: string, now: Time)
      modifies this
      ensures rows == Mark(old(rows), OwnedBy(old(rows), agent), now)
    {
      rows := Mark(rows, OwnedBy(rows, agent), now);
    }

    /** SELECT without an order: the rows in any order. */
    method Export(agent: string) returns (out: seq<Exported>)
      ensures IsExport(rows, agent, out)
    {
      out := [];
      var remaining := OwnedBy(rows, agent);
      while remaining != {}
        invariant remaining <= OwnedBy(rows, agent)
        invariant forall i | 0 <= i < |out| ::
                    && out[i].id in OwnedBy(rows, agent) && out[i].id !in remaining
                    && out[i] == ExportedRow(rows, out[i].id)
        invariant forall i, j | 0 <= i < j < |out| :: out[i].id != out[j].id
        invariant forall id <- OwnedBy(rows, agent) :: id in remaining || exists i | 0 <= i < |out| :: out[i].id == id
        decreases remaining
      {
        var id :| id in remaining;
        remaining := remaining - {id};
        ghost var before := out;
        out := out + [ExportedRow(rows, id)];
        assert forall i | 0 <= i < |before| :: out[i] == before[i];
        assert out[|before|].id == id;
      }
    }
  }

  // ------------------------------------------------------------------ what every operation keeps

  /** Tombstones stay tombstones with their contents frozen, and no row ever disappears. */
  ghost predicate KeepsTombstones(t: Table, t': Table) {
    && t.Keys <= t'.Keys
    && forall id <- t :: Tombstoned(t, id) ==> Tombstoned(t', id) && t'[id].memory == t[id].memory
  }

  ghost predicate OnlyPersistent(t: Table) {
    forall id <- t :: t[id].memory.id == id && !t[id].memory.kind.Working? && !t[id].memory.kind.Other?
  }

  lemma InsertKeeps(t: Table, agents: set<string>, m: Memory)
    ensures KeepsTombstones(t, Insert(t, agents, m).0)
    ensures OnlyPersistent(t) ==> OnlyPersistent(Insert(t, agents, m).0)
    ensures |Insert(t, agents, m).0| == |t| + if Insert(t, agents, m).1.Ok? then 1 else 0
  {
  }

  lemma UpdateKeeps(t: Table, agents: set<string>, m: Memory, now: Time)
    ensures KeepsTombstones(t, Update(t, agents, m, now).0)
    ensures OnlyPersistent(t) ==> OnlyPersistent(Update(t, agents, m, now).0)
    ensures Update(t, agents, m, now).0.Keys == t.Keys
  {
  }

  lemma DeleteKeeps(t: Table, id: Uuid, now: Time)
    ensures KeepsTombstones(t, Delete(t, id, now).0)
    ensures OnlyPersistent(t) ==> OnlyPersistent(Delete(t, id, now).0)
    ensures Delete(t, id, now).0.Keys == t.Keys
  {
  }

  lemma RectifyKeeps(t: Table, id: Uuid, correction: string, now: Time)
    ensures KeepsTombstones(t, Rectify(t, id, correction, now).0)
    ensures OnlyPersistent(t) ==> OnlyPersistent(Rectify(t, id, correction, now).0)
    ensures Rectify(t, id, correction, now).0.Keys == t.Keys
  {
  }

  lemma MarkKeeps(t: Table, ids: set<Uuid>, now: Time)
    ensures KeepsTombstones(t, Mark(t, ids, now))
    ensures OnlyPersistent(t) ==> OnlyPersistent(Mark(t, ids, now))
    ensures Mark(t, ids, now).Keys == t.Keys
    ensures forall id <- ids :: id in t ==> Tombstoned(Mark(t, ids, now), id)
  {
  }

  lemma CountRows(t: Table)
    ensures |set id | id in t && Visible(t, id)| + |set id | id in t && Tombstoned(t, id)| == |t|
  {
    var live, dead := set id | id in t && Visible(t, id), set id | id in t && Tombstoned(t, id);
    assert live + dead == t.Keys && live !! dead;
  }

  /** A tombstoned row cannot be read, listed, exported or expired. */
  lemma TombstonesAreInvisible(t: Table, id: Uuid, namespace: string, kinds: seq<MemoryType>, agent: string,
                               before: Time, limit: nat, offset: nat, out: seq<Uuid>, exported: seq<Exported>)
    requires Tombstoned(t, id)
    ensures Get(t, id).Failure? && id !in OwnedBy(t, agent) && id !in Expiring(t, before)
    ensures IsListing(t, namespace, kinds, limit, offset, out) ==> id !in out
    ensures IsExport(t, agent, exported) ==> forall i | 0 <= i < |exported| :: exported[i].id != id
  {
    if IsListing(t, namespace, kinds, limit, offset, out) {
      WindowFacts(multiset(InNamespace(t, namespace, kinds)), x => CreatedAt(t, x), Some(limit), offset, out);
    }
  }

  /** What each write makes of the row that a read then returns, and that it touches no other row. */
  lemma ReadsSeeWrites(t: Table, agents: set<string>, m: Memory, id: Uuid, correction: string, now: Time)
    ensures Insert(t, agents, m).1.Ok? ==> Get(Insert(t, agents, m).0, m.id) == Success(WireImage(m))
    ensures Update(t, agents, m, now).1.Ok? ==>
              && Get(t, m.id).Success?
              && Get(Update(t, agents, m, now).0, m.id)
                   == Success(WireImage(m).(createdAt := Get(t, m.id).value.createdAt, updatedAt := now))
    ensures correction != "" && Rectify(t, id, correction, now).1.Ok? ==>
              && Get(t, id).Success?
              && Get(Rectify(t, id, correction, now).0, id)
                   == Success(Get(t, id).value.(content := correction, updatedAt := now))
    ensures Get(Delete(t, id, now).0, id).Failure?
    ensures forall x <- t ::
              && (x != m.id ==> Insert(t, agents, m).0[x] == t[x] && Update(t, agents, m, now).0[x] == t[x])
              && (x != id ==> Rectify(t, id, correction, now).0[x] == t[x] && Delete(t, id, now).0[x] == t[x])
  {
  }
}
