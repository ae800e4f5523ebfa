/**
 * The audit query builder: a filter compiled into WHERE clauses with numbered placeholders, a
 * count query and a page query that share them.
 */
module AuditQuery {
  import opened Prelude
  import opened SqlWindow

  datatype AuditRow = AuditRow(
    id: string, timestamp: Time, agentDid: string, action: string, resource: string, allowed: bool,
    policyId: Option<string>, reason: Option<string>)

  datatype AuditFilter = AuditFilter(
    agentDid: Option<string>,
    action: Option<string>,
    allowed: Option<bool>,
    start: Option<Time>,
    end: Option<Time>,
    limit: int,
    offset: int)

  /** The meaning of a filter: every condition that is set holds. */
  predicate Selects(f: AuditFilter, r: AuditRow) {
    && (f.agentDid.Some? ==> r.agentDid == f.agentDid.value)
    && (f.action.Some? ==> r.action == f.action.value)
    && (f.allowed.Some? ==> r.allowed == f.allowed.value)
    && (f.start.Some? ==> r.timestamp >= f.start.value)
    && (f.end.Some? ==> r.timestamp <= f.end.value)
  }

  // ------------------------------------------------------------------ SQL with placeholders

  datatype Column = AgentDid | Action | Allowed | Timestamp

  datatype Comparison = Equal | AtLeast | AtMost

  datatype Argument = Text(text: string) | Flag(flag: bool) | Instant(time: Time) | Number(number: int)

  /** `column comparison $placeholder`; placeholders count from 1. */
  datatype Clause = Clause(column: Column, comparison: Comparison, placeholder: nat)

  /** The count query uses the clauses alone; the page query adds order, limit and offset. */
  datatype Compiled = Compiled(
    clauses: seq<Clause>,
    countArgs: seq<Argument>,
    limit: Option<nat>,
    offset: Option<nat>,
    pageArgs: seq<Argument>)

  /** A missing or ill-typed argument satisfies nothing. */
  predicate Holds(c: Clause, args: seq<Argument>, r: AuditRow) {
    1 <= c.placeholder <= |args| &&
    match (c.column, c.comparison, args[c.placeholder - 1])
    case (AgentDid, Equal, Text(x)) => r.agentDid == x
    case (Action, Equal, Text(x)) => r.action == x
    case (Allowed, Equal, Flag(x)) => r.allowed == x
    case (Timestamp, AtLeast, Instant(x)) => r.timestamp >= x
    case (Timestamp, AtMost, Instant(x)) => r.timestamp <= x
    case _ => false
  }

  predicate Where(clauses: seq<Clause>, args: seq<Argument>, r: AuditRow) {
    forall i | 0 <= i < |clauses| :: Holds(clauses[i], args, r)
  }

  function Placeholders(q: Compiled): seq<nat> {
    seq(|q.clauses|, i requires 0 <= i < |q.clauses| => q.clauses[i].placeholder)
      + (if q.limit.Some? then [q.limit.value] else [])
      + (if q.offset.Some? then [q.offset.value] else [])
  }

  /** The placeholders of the page query are 1, 2, .. in the order of its arguments. */
  predicate NumberedInOrder(q: Compiled) {
    |Placeholders(q)| == |q.pageArgs| && forall i | 0 <= i < |q.pageArgs| :: Placeholders(q)[i] == i + 1
  }

  /** The value bound to an optional LIMIT or OFFSET placeholder. */
  function Bound(placeholder: Option<nat>, args: seq<Argument>): Option<nat> {
    if placeholder.Some? && 1 <= placeholder.value <= |args|
       && args[placeholder.value - 1].Number? && args[placeholder.value - 1].number >= 0
    then Some(args[placeholder.value - 1].number) else None
  }

  function OrZero(n: Option<nat>): nat {
    if n.Some? then n.value else 0
  }

  function Positive(n: int): Option<nat> {
    if n > 0 then Some(n) else None
  }

  /** Both queries select by the filter; the page query also carries its limit and offset. */
  ghost predicate Means(q: Compiled, f: AuditFilter) {
    && NumberedInOrder(q)
    && q.countArgs <= q.pageArgs && |q.countArgs| == |q.clauses|
    && (forall r :: Where(q.clauses, q.countArgs, r) <==> Selects(f, r))
    && (forall r :: Where(q.clauses, q.pageArgs, r) <==> Selects(f, r))
    && q.limit.Some? == (f.limit > 0) && Bound(q.limit, q.pageArgs) == Positive(f.limit)
    && q.offset.Some? == (f.offset > 0) && Bound(q.offset, q.pageArgs) == Positive(f.offset)
  }

  // ------------------------------------------------------------------ the compiler

  /** Clause i is numbered i + 1, and together the clauses select what the filter selects. */
  ghost predicate Encodes(clauses: seq<Clause>, args: seq<Argument>, f: AuditFilter) {
    && |clauses| == |args|
    && (forall i | 0 <= i < |clauses| :: clauses[i].placeholder == i + 1)
    && forall r :: Where(clauses, args, r) <==> Selects(f, r)
  }

  /** Later arguments do not change what earlier clauses mean. */
  lemma MoreArguments(clauses: seq<Clause>, args: seq<Argument>, more: seq<Argument>)
    requires forall i | 0 <= i < |clauses| :: 1 <= clauses[i].placeholder <= |args|
    ensures forall r :: Where(clauses, args + more, r) <==> Where(clauses, args, r)
  {
  }

  lemma AddClause(clauses: seq<Clause>, args: seq<Argument>, column: Column, comparison: Comparison, arg: Argument,
                  before: AuditFilter, after: AuditFilter)
    requires Encodes(clauses, args, before)
    requires forall r :: Selects(after, r) <==> Selects(before, r) && Holds(Clause(column, comparison, 1), [arg], r)
    ensures Encodes(clauses + [Clause(column, comparison, |args| + 1)], args + [arg], after)
  {
    var c := Clause(column, comparison, |args| + 1);
    MoreArguments(clauses, args, [arg]);
    forall r
      ensures Where(clauses + [c], args + [arg], r) <==> Selects(after, r)
    {
      assert (args + [arg])[|args|] == arg;
      assert Holds(c, args + [arg], r) <==> Holds(Clause(column, comparison, 1), [arg], r);
      assert Where(clauses + [c], args + [arg], r) <==>
        Where(clauses, args + [arg], r) && Holds(c, args + [arg], r) by {
        assert (clauses + [c])[|clauses|] == c;
        assert forall i | 0 <= i < |clauses| :: (clauses + [c])[i] == clauses[i];
      }
    }
  }

  /** Adds one clause to both queries and its argument, and moves on to the next number. */
  method Append(clauses: seq<Clause>, args: seq<Argument>, argId: nat, column: Column, comparison: Comparison,
                arg: Argument, ghost before: AuditFilter, ghost after: AuditFilter)
    returns (clauses': seq<Clause>, args': seq<Argument>, argId': nat)
    requires Encodes(clauses, args, before) && argId == |args| + 1
    requires forall r :: Selects(after, r) <==> Selects(before, r) && Holds(Clause(column, comparison, 1), [arg], r)
    ensures Encodes(clauses', args', after) && argId' == |args'| + 1
  {
    AddClause(clauses, args, column, comparison, arg, before, after);
    clauses', args', argId' := clauses + [Clause(column, comparison, argId)], args + [arg], argId + 1;
  }

  /** The filter with only its first n conditions. */
  ghost function Upto(f: AuditFilter, n: nat): AuditFilter {
    AuditFilter(
      if n > 0 then f.agentDid else None,
      if n > 1 then f.action else None,
      if n > 2 then f.allowed else None,
      if n > 3 then f.start else None,
      if n > 4 then f.end else None,
      f.limit, f.offset)
  }

  method CompileClauses(f: AuditFilter) returns (clauses: seq<Clause>, args: seq<Argument>, argId: nat)
    ensures Encodes(clauses, args, f) && argId == |args| + 1
  {
    clauses, args, argId := [], [], 1;
    assert Encodes(clauses, args, Upto(f, 0));
    if f.agentDid.Some? {
      clauses, args, argId :=
        Append(clauses, args, argId, AgentDid, Equal, Text(f.agentDid.value), Upto(f, 0), Upto(f, 1));
    }
    if f.action.Some? {
      clauses, args, argId :=
        Append(clauses, args, argId, Action, Equal, Text(f.action.value), Upto(f, 1), Upto(f, 2));
    }
    if f.allowed.Some? {
      clauses, args, argId :=
        Append(clauses, args, argId, Allowed, Equal, Flag(f.allowed.value), Upto(f, 2), Upto(f, 3));
    }
    if f.start.Some? {
      clauses, args, argId :=
        Append(clauses, args, argId, Timestamp, AtLeast, Instant(f.start.value), Upto(f, 3), Upto(f, 4));
    }
    if f.end.Some? {
      clauses, args, argId :=
        Append(clauses, args, argId, Timestamp, AtMost, Instant(f.end.value), Upto(f, 4), Upto(f, 5));
    }
    assert Upto(f, 5) == f;
  }

  /** The count query is fixed before LIMIT and OFFSET add their arguments. */
  method Compile(f: AuditFilter) returns (q: Compiled)
    ensures Means(q, f)
  {
    var clauses, args, argId := CompileClauses(f);
    var countArgs := args;
    var limit, offset := None, None;
    if f.limit > 0 {
      limit := Some(argId);
      args := args + [Number(f.limit)];
      argId := argId + 1;
    }
    if f.offset > 0 {
      offset := Some(argId);
      args := args + [Number(f.offset)];
    }
    q := Compiled(clauses, countArgs, limit, offset, args);
    MoreArguments(clauses, countArgs, args[|countArgs|..]);
    assert args == countArgs + args[|countArgs|..];
  }

  // ------------------------------------------------------------------ what the database answers

  function Matching(rows: seq<AuditRow>, clauses: seq<Clause>, args: seq<Argument>): seq<AuditRow> {
    if rows == [] then []
    else
      var last := rows[|rows| - 1];
      Matching(rows[..|rows| - 1], clauses, args) + if Where(clauses, args, last) then [last] else []
  }

  function Selected(rows: seq<AuditRow>, f: AuditFilter): seq<AuditRow> {
    if rows == [] then []
    else Selected(rows[..|rows| - 1], f) + if Selects(f, rows[|rows| - 1]) then [rows[|rows| - 1]] else []
  }

  /** One snapshot's answer to both queries; rows of equal time come in any order. */
  ghost predicate Answers(rows: seq<AuditRow>, q: Compiled, total: nat, page: seq<AuditRow>) {
    && total == |Matching(rows, q.clauses, q.countArgs)|
    && IsWindow(multiset(Matching(rows, q.clauses, q.pageArgs)), (r: AuditRow) => r.timestamp,
                Bound(q.limit, q.pageArgs), OrZero(Bound(q.offset, q.pageArgs)), page)
  }

  lemma {:induction false} MatchingIsSelected(rows: seq<AuditRow>, clauses: seq<Clause>, args: seq<Argument>, f: AuditFilter)
    requires forall r :: Where(clauses, args, r) <==> Selects(f, r)
    ensures Matching(rows, clauses, args) == Selected(rows, f)
  {
    if rows != [] {
      MatchingIsSelected(rows[..|rows| - 1], clauses, args, f);
    }
  }

  lemma {:induction false} SelectedMembers(rows: seq<AuditRow>, f: AuditFilter)
    ensures forall r :: r in Selected(rows, f) <==> r in rows && Selects(f, r)
  {
    if rows != [] {
      SelectedMembers(rows[..|rows| - 1], f);
      assert rows == rows[..|rows| - 1] + [rows[|rows| - 1]];
    }
  }

  /** The row meets every condition that is set. */
  predicate Meets(r: AuditRow, f: AuditFilter) {
    && (f.agentDid == None || f.agentDid == Some(r.agentDid))
    && (f.action == None || f.action == Some(r.action))
    && (f.allowed == None || f.allowed == Some(r.allowed))
    && (f.start == None || f.start.value <= r.timestamp)
    && (f.end == None || r.timestamp <= f.end.value)
  }

  function MeetingRows(rows: seq<AuditRow>, f: AuditFilter): set<nat> {
    set i: nat | i < |rows| && Meets(rows[i], f)
  }

  lemma {:induction false} SelectedAreCounted(rows: seq<AuditRow>, f: AuditFilter)
    ensures |Selected(rows, f)| == |MeetingRows(rows, f)|
  {
    if rows != [] {
      var n := |rows| - 1;
      SelectedAreCounted(rows[..n], f);
      assert Meets(rows[n], f) <==> Selects(f, rows[n]);
      assert MeetingRows(rows, f) == MeetingRows(rows[..n], f) + if Meets(rows[n], f) then {n} else {};
    }
  }

  lemma PageRowsMeet(rows: seq<AuditRow>, f: AuditFilter, limit: Option<nat>, offset: nat, page: seq<AuditRow>)
    requires IsWindow(multiset(Selected(rows, f)), (r: AuditRow) => r.timestamp, limit, offset, page)
    ensures forall i, j | 0 <= i < j < |page| :: page[i].timestamp >= page[j].timestamp
    ensures forall r <- page :: r in rows && Meets(r, f)
    ensures var left := if offset < |Selected(rows, f)| then |Selected(rows, f)| - offset else 0;
            |page| == if limit.Some? && limit.value < left then limit.value else left
  {
    assert |multiset(Selected(rows, f))| == |Selected(rows, f)|;
    WindowFacts(multiset(Selected(rows, f)), (r: AuditRow) => r.timestamp, limit, offset, page);
    SelectedMembers(rows, f);
    forall r | r in page ensures r in rows && Meets(r, f) {
      assert r in multiset(Selected(rows, f));
    }
  }

  /**
   * Compilation preserves meaning: on one snapshot the total counts the rows the filter selects,
   * and the page is their descending window of min(Limit, max(0, Total - Offset)) rows.
   */
  lemma AnswersMeanTheFilter(rows: seq<AuditRow>, f: AuditFilter, q: Compiled, total: nat, page: seq<AuditRow>)
    requires Means(q, f) && Answers(rows, q, total, page)
    ensures total == |MeetingRows(rows, f)|
    ensures IsWindow(multiset(Selected(rows, f)), (r: AuditRow) => r.timestamp,
                     Positive(f.limit), OrZero(Positive(f.offset)), page)
    ensures forall i, j | 0 <= i < j < |page| :: page[i].timestamp >= page[j].timestamp
    ensures forall r <- page :: r in rows && Meets(r, f)
    ensures var offset := if f.offset > 0 then f.offset else 0;
            var left := if offset < total then total - offset else 0;
            |page| == if f.limit > 0 && f.limit < left then f.limit else left
  {
    MatchingIsSelected(rows, q.clauses, q.countArgs, f);
    MatchingIsSelected(rows, q.clauses, q.pageArgs, f);
    SelectedAreCounted(rows, f);
    PageRowsMeet(rows, f, Positive(f.limit), OrZero(Positive(f.offset)), page);
  }
}
