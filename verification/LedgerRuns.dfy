/**
 * What holds over every serial run of the trust layer: scores stay in range, every point is
 * accounted for, a verification is settled at most once, and the recalculated score agrees
 * with the incremental one.
 */
module LedgerRuns {
  import opened Prelude
  import opened SaturatingScore
  import opened TrustTables

  datatype Op =
    | DoRegister(did: string, agent: Agent)
    | DoUpdate(did: string, score: int, lastActiveAt: Time)
    | DoLogEvent(did: string, kind: string, change: int)
    | DoRecalculate(did: string)
    | DoAttest(attestation: Attestation)
    | DoCreateVerification(id: string, target: string, verifier: string)
    | DoSubmit(id: string, success: bool)
    | DoRevoke(did: string)

  datatype Step = Step(op: Op, at: Time)

  ghost function Apply(t: Tables, s: Step): Tables {
    match s.op
    case DoRegister(did, agent) => Register(t, did, agent, s.at).0
    case DoUpdate(did, score, lastActiveAt) => Update(t, did, score, lastActiveAt).0
    case DoLogEvent(did, kind, change) => LogEvent(t, did, kind, change, s.at).0
    case DoRecalculate(did) => Recalculate(t, did, s.at).0
    case DoAttest(a) => SaveAttestation(t, a, s.at).0
    case DoCreateVerification(id, target, verifier) => CreateVerification(t, id, target, verifier, s.at).0
    case DoSubmit(id, success) => Submit(t, id, success, s.at).0
    case DoRevoke(did) => Revoke(t, did)
  }

  ghost function Run(t: Tables, steps: seq<Step>): Tables {
    if steps == [] then t else Apply(Run(t, steps[..|steps| - 1]), steps[|steps| - 1])
  }

  // ------------------------------------------------------------------ well-formed tables

  ghost predicate ScoresInRange(t: Tables) {
    forall a <- t.agents :: a != "" && InRange(t.agents[a].score)
  }

  ghost predicate PartiesRegistered(t: Tables) {
    forall id <- t.verifications ::
      && t.verifications[id].target in t.agents
      && t.verifications[id].verifier in t.agents
      && t.verifications[id].target != t.verifications[id].verifier
  }

  ghost predicate RowsRegistered(t: Tables) {
    && (forall i | 0 <= i < |t.attestations| :: t.attestations[i].agent in t.agents)
    && (forall i | 0 <= i < |t.events| :: t.events[i].agent in t.agents)
  }

  /** Foreign keys hold, nobody verifies itself, and every score is within bounds. */
  ghost predicate WellFormed(t: Tables) {
    ScoresInRange(t) && PartiesRegistered(t) && RowsRegistered(t)
  }

  /** Scores handed in from outside are the only ones that are not clamped. */
  predicate Bounded(op: Op) {
    match op
    case DoRegister(_, agent) => InRange(agent.score)
    case DoUpdate(_, score, _) => InRange(score)
    case _ => true
  }

  lemma ApplyKeepsAgents(t: Tables, s: Step)
    ensures t.agents.Keys <= Apply(t, s).agents.Keys
  {
  }

  lemma ApplyKeepsRange(t: Tables, s: Step)
    requires ScoresInRange(t) && Bounded(s.op)
    ensures ScoresInRange(Apply(t, s))
  {
  }

  lemma ApplyKeepsParties(t: Tables, s: Step)
    requires PartiesRegistered(t)
    ensures PartiesRegistered(Apply(t, s))
  {
  }

  /** The event rows a step appends. */
  function NewEvents(t: Tables, s: Step): seq<Event> {
    match s.op
    case DoLogEvent(did, kind, change) => if did in t.agents then [Event(did, kind, change, s.at)] else []
    case DoSubmit(id, success) =>
      if id in t.verifications && t.verifications[id].status.Pending? && !success
         && t.verifications[id].target in t.agents
      then [Event(t.verifications[id].target, VIOLATION, -100, s.at)] else []
    case _ => []
  }

  lemma EventsFollow(t: Tables, s: Step)
    ensures Apply(t, s).events == t.events + NewEvents(t, s)
  {
  }

  /** The attestation rows a step appends. */
  function NewAttestations(t: Tables, s: Step): seq<Attestation> {
    match s.op
    case DoAttest(a) =>
      if ReadsAsUuid(a.memoryId) && a.agent != "" && a.signature != "" && a.agent in t.agents
      then [a.(createdAt := OrNow(a.createdAt, s.at))] else []
    case _ => []
  }

  lemma AttestationsFollow(t: Tables, s: Step)
    ensures Apply(t, s).attestations == t.attestations + NewAttestations(t, s)
  {
  }

  lemma ApplyKeepsRows(t: Tables, s: Step)
    requires RowsRegistered(t)
    ensures RowsRegistered(Apply(t, s))
  {
    ApplyKeepsAgents(t, s);
    EventsFollow(t, s);
    AttestationsFollow(t, s);
  }

  lemma ApplyWellFormed(t: Tables, s: Step)
    requires WellFormed(t) && Bounded(s.op)
    ensures WellFormed(Apply(t, s))
    ensures t.agents.Keys <= Apply(t, s).agents.Keys
  {
    ApplyKeepsAgents(t, s);
    ApplyKeepsRange(t, s);
    ApplyKeepsParties(t, s);
    ApplyKeepsRows(t, s);
  }

  /**
   * Every reachable state: scores in 0..1000, verifier and target distinct and still registered,
   * so the lookup that `SubmitVerificationResult` silently ignores never fails.
   */
  lemma {:induction false} ReachableWellFormed(t: Tables, steps: seq<Step>)
    requires WellFormed(t) && forall s <- steps :: Bounded(s.op)
    ensures WellFormed(Run(t, steps)) && t.agents.Keys <= Run(t, steps).agents.Keys
  {
    if steps != [] {
      ReachableWellFormed(t, steps[..|steps| - 1]);
      ApplyWellFormed(Run(t, steps[..|steps| - 1]), steps[|steps| - 1]);
    }
  }

  // ------------------------------------------------------------------ score movements

  /** Steps that replace an agent's score instead of moving it. */
  predicate Resets(op: Op, a: string) {
    match op
    case DoUpdate(did, _, _) => did == a
    case DoRecalculate(did) => did == a
    case DoRevoke(did) => did == a
    case _ => false
  }

  /** The change a step means for agent a: the event's own, +25 an attestation, +50 or -100 a verification. */
  function DeltaOf(t: Tables, op: Op, a: string): seq<int> {
    match op
    case DoLogEvent(did, _, change) => if did == a && a in t.agents then [change] else []
    case DoAttest(row) =>
      if row.agent == a && a in t.agents && ReadsAsUuid(row.memoryId) && row.signature != "" then [25] else []
    case DoSubmit(id, success) =>
      if id !in t.verifications || !t.verifications[id].status.Pending? then []
      else if success && t.verifications[id].verifier == a then [50]
      else if !success && t.verifications[id].target == a then [-100]
      else []
    case _ => []
  }

  /**
   * One step moves an agent's score by exactly its saturated change, if there is one, and then
   * also its activity time; nothing else in the agent's row changes.
   */
  lemma StepMovesByDelta(t: Tables, s: Step, a: string)
    requires WellFormed(t) && a in t.agents && !Resets(s.op, a)
    ensures a in Apply(t, s).agents
    ensures Apply(t, s).agents[a].score == ApplyAll(t.agents[a].score, DeltaOf(t, s.op, a))
    ensures Apply(t, s).agents[a]
         == t.agents[a].(score := Apply(t, s).agents[a].score,
                         lastActiveAt := if DeltaOf(t, s.op, a) == [] then t.agents[a].lastActiveAt else s.at)
  {
    var d := DeltaOf(t, s.op, a);
    if d != [] {
      assert d[..|d| - 1] == [];
    }
  }

  ghost function DeltasOf(t: Tables, steps: seq<Step>, a: string): seq<int> {
    if steps == [] then []
    else
      var front := steps[..|steps| - 1];
      DeltasOf(t, front, a) + DeltaOf(Run(t, front), steps[|steps| - 1].op, a)
  }

  lemma {:induction false} RunMovesByDeltas(t: Tables, steps: seq<Step>, a: string)
    requires WellFormed(t) && a in t.agents
    requires forall s <- steps :: Bounded(s.op) && !Resets(s.op, a)
    ensures a in Run(t, steps).agents
    ensures Run(t, steps).agents[a].score == ApplyAll(t.agents[a].score, DeltasOf(t, steps, a))
  {
    if steps != [] {
      var front := steps[..|steps| - 1];
      var last := steps[|steps| - 1];
      RunMovesByDeltas(t, front, a);
      ReachableWellFormed(t, front);
      StepMovesByDelta(Run(t, front), last, a);
      ApplyConcat(t.agents[a].score, DeltasOf(t, front, a), DeltaOf(Run(t, front), last.op, a));
    }
  }

  /**
   * Clamp normal form of a run: whatever interleaving of events, attestations and verification
   * results hits an agent, its score ends at one clamped shift of the score it started from.
   */
  lemma RunNormalForm(t: Tables, steps: seq<Step>, a: string)
    requires WellFormed(t) && a in t.agents
    requires forall s <- steps :: Bounded(s.op) && !Resets(s.op, a)
    ensures a in Run(t, steps).agents
    ensures ClampedShift(t.agents[a].score, Run(t, steps).agents[a].score, DeltasOf(t, steps, a))
  {
    RunMovesByDeltas(t, steps, a);
    NormalForm(t.agents[a].score, DeltasOf(t, steps, a));
  }

  /** Two ledgers that agree on everything except agent a's score. */
  ghost predicate DifferInScore(t: Tables, u: Tables, a: string) {
    && u == t.(agents := u.agents)
    && a in t.agents && u.agents.Keys == t.agents.Keys
    && u.agents[a] == t.agents[a].(score := u.agents[a].score)
    && (forall b <- t.agents :: b != a ==> u.agents[b] == t.agents[b])
  }

  lemma RecalculateIgnoresOthers(t: Tables, u: Tables, did: string, at: Time, a: string)
    requires DifferInScore(t, u, a) && did != a
    ensures DifferInScore(Recalculate(t, did, at).0, Recalculate(u, did, at).0, a)
  {
  }

  lemma SuccessIgnoresScores(t: Tables, u: Tables, id: string, at: Time, a: string)
    requires DifferInScore(t, u, a)
    ensures DifferInScore(Submit(t, id, true, at).0, Submit(u, id, true, at).0, a)
  {
  }

  lemma FailureIgnoresScores(t: Tables, u: Tables, id: string, at: Time, a: string)
    requires DifferInScore(t, u, a)
    ensures DifferInScore(Submit(t, id, false, at).0, Submit(u, id, false, at).0, a)
  {
  }

  lemma RegisterIgnoresScores(t: Tables, u: Tables, did: string, agent: Agent, at: Time, a: string)
    requires DifferInScore(t, u, a)
    ensures DifferInScore(Register(t, did, agent, at).0, Register(u, did, agent, at).0, a)
  {
  }

  lemma EventIgnoresScores(t: Tables, u: Tables, did: string, kind: string, change: int, at: Time, a: string)
    requires DifferInScore(t, u, a)
    ensures DifferInScore(LogEvent(t, did, kind, change, at).0, LogEvent(u, did, kind, change, at).0, a)
  {
  }

  lemma AttestIgnoresScores(t: Tables, u: Tables, row: Attestation, at: Time, a: string)
    requires DifferInScore(t, u, a)
    ensures DifferInScore(SaveAttestation(t, row, at).0, SaveAttestation(u, row, at).0, a)
  {
  }

  lemma DifferInScoreStep(t: Tables, u: Tables, s: Step, a: string)
    requires DifferInScore(t, u, a) && !Resets(s.op, a)
    ensures DifferInScore(Apply(t, s), Apply(u, s), a)
  {
    match s.op
    case DoRecalculate(did) => RecalculateIgnoresOthers(t, u, did, s.at, a);
    case DoSubmit(id, success) =>
      if success {
        SuccessIgnoresScores(t, u, id, s.at, a);
      } else {
        FailureIgnoresScores(t, u, id, s.at, a);
      }
    case DoRegister(did, agent) => RegisterIgnoresScores(t, u, did, agent, s.at, a);
    case DoLogEvent(did, kind, change) => EventIgnoresScores(t, u, did, kind, change, s.at, a);
    case DoAttest(row) => AttestIgnoresScores(t, u, row, s.at, a);
    case _ =>
  }

  lemma {:induction false} DifferInScoreRun(t: Tables, u: Tables, steps: seq<Step>, a: string)
    requires DifferInScore(t, u, a) && forall s <- steps :: !Resets(s.op, a)
    ensures DeltasOf(u, steps, a) == DeltasOf(t, steps, a)
    ensures DifferInScore(Run(t, steps), Run(u, steps), a)
  {
    if steps != [] {
      var front := steps[..|steps| - 1];
      DifferInScoreRun(t, u, front, a);
      assert DeltaOf(Run(u, front), steps[|steps| - 1].op, a) == DeltaOf(Run(t, front), steps[|steps| - 1].op, a);
      DifferInScoreStep(Run(t, front), Run(u, front), steps[|steps| - 1], a);
    }
  }

  /**
   * Starting an agent higher leaves it no lower, never widens its lead, and changes nothing else
   * in the ledger, over every run that does not overwrite its score.
   */
  lemma RunsKeepOrderAndGap(t: Tables, u: Tables, steps: seq<Step>, a: string)
    requires WellFormed(t) && WellFormed(u) && DifferInScore(t, u, a)
    requires t.agents[a].score <= u.agents[a].score
    requires forall s <- steps :: Bounded(s.op) && !Resets(s.op, a)
    ensures DifferInScore(Run(t, steps), Run(u, steps), a)
    ensures 0 <= Run(u, steps).agents[a].score - Run(t, steps).agents[a].score
              <= u.agents[a].score - t.agents[a].score
  {
    DifferInScoreRun(t, u, steps, a);
    RunMovesByDeltas(t, steps, a);
    RunMovesByDeltas(u, steps, a);
    MonotoneAndNonExpansive(t.agents[a].score, u.agents[a].score, DeltasOf(t, steps, a));
  }

  // ------------------------------------------------------------------ conservation

  /** What the rows of the other three tables say an agent has earned. */
  ghost function Earned(t: Tables, a: string): int {
    DEFAULT_SCORE + 50 * |CompletedIds(t, a)| + 25 * CountAttestations(t.attestations, a)
      + SumChanges(t.events, a)
  }

  /**
   * What saturation cuts off a step's change: points lost above 1000 (negative) or granted below 0
   * (positive). It is computed from the score before the step, never from the score after it.
   */
  function ClipOf(t: Tables, op: Op, a: string): int {
    if a in t.agents && DeltaOf(t, op, a) != [] then
      var unclipped := t.agents[a].score + DeltaOf(t, op, a)[0];
      Clamp(unclipped) - unclipped
    else 0
  }

  ghost function Clipped(t: Tables, steps: seq<Step>, a: string): int {
    if steps == [] then 0
    else
      var front := steps[..|steps| - 1];
      Clipped(t, front, a) + ClipOf(Run(t, front), steps[|steps| - 1].op, a)
  }

  /** The API registers every agent at the default score. */
  predicate ApiStep(op: Op, a: string) {
    Bounded(op) && !Resets(op, a) && (op.DoRegister? && op.did == a ==> op.agent.score == DEFAULT_SCORE)
  }

  predicate Completes(t: Tables, op: Op, a: string) {
    op.DoSubmit? && op.success && DeltaOf(t, op, a) != []
  }

  lemma OtherStepsCompleteNothing(t: Tables, s: Step, a: string)
    requires PartiesRegistered(t) && !Completes(t, s.op, a)
    ensures CompletedIds(Apply(t, s), a) == CompletedIds(t, a)
  {
    var before, after := t.verifications, Apply(t, s).verifications;
    assert forall id <- before :: id in after && (CompletedFor(before[id], a) <==> CompletedFor(after[id], a));
    assert forall id <- after :: id !in before ==> after[id].status.Pending?;
  }

  lemma CompletedStep(t: Tables, s: Step, a: string)
    requires PartiesRegistered(t)
    ensures |CompletedIds(Apply(t, s), a)| == |CompletedIds(t, a)| + if Completes(t, s.op, a) then 1 else 0
  {
    if Completes(t, s.op, a) {
      assert CompletedIds(Apply(t, s), a) == CompletedIds(t, a) + {s.op.id};
    } else {
      OtherStepsCompleteNothing(t, s, a);
    }
  }

  lemma AttestedStep(t: Tables, s: Step, a: string)
    requires ScoresInRange(t)
    ensures CountAttestations(Apply(t, s).attestations, a)
         == CountAttestations(t.attestations, a)
          + if s.op.DoAttest? && DeltaOf(t, s.op, a) != [] then 1 else 0
  {
  }

  lemma LoggedStep(t: Tables, s: Step, a: string)
    requires PartiesRegistered(t)
    ensures SumChanges(Apply(t, s).events, a)
         == SumChanges(t.events, a)
          + if DeltaOf(t, s.op, a) == [] || s.op.DoAttest? || (s.op.DoSubmit? && s.op.success) then 0
            else DeltaOf(t, s.op, a)[0]
  {
    EventsFollow(t, s);
    var added := NewEvents(t, s);
    if added == [] {
      assert t.events + added == t.events;
    } else {
      assert (t.events + added)[..|t.events|] == t.events;
    }
  }

  lemma SumSingle(d: int)
    ensures Sum([d]) == d
  {
  }

  /** One step adds to the rows exactly what it means for the score. */
  lemma EarnedStep(t: Tables, s: Step, a: string)
    requires WellFormed(t)
    ensures Earned(Apply(t, s), a) == Earned(t, a) + Sum(DeltaOf(t, s.op, a))
  {
    CompletedStep(t, s, a);
    AttestedStep(t, s, a);
    LoggedStep(t, s, a);
    var d := DeltaOf(t, s.op, a);
    if d != [] {
      SumSingle(d[0]);
      assert d == [d[0]];
    }
  }

  lemma {:induction false} NoRowsNothingEarned(t: Tables, a: string)
    requires forall i | 0 <= i < |t.attestations| :: t.attestations[i].agent != a
    requires forall i | 0 <= i < |t.events| :: t.events[i].agent != a
    requires forall id <- t.verifications :: t.verifications[id].verifier != a
    ensures Earned(t, a) == DEFAULT_SCORE
    decreases |t.attestations| + |t.events|
  {
    assert CompletedIds(t, a) == {};
    if t.attestations != [] {
      NoRowsNothingEarned(t.(attestations := t.attestations[..|t.attestations| - 1]), a);
    } else if t.events != [] {
      NoRowsNothingEarned(t.(events := t.events[..|t.events| - 1]), a);
    }
  }

  /** A step that creates an agent gives it what its (absent) rows say it has earned. */
  lemma FreshAgentEarned(t: Tables, s: Step, a: string)
    requires WellFormed(t) && ApiStep(s.op, a)
    requires a !in t.agents && a in Apply(t, s).agents
    ensures Apply(t, s).agents[a].score == Earned(Apply(t, s), a)
  {
    assert s.op.DoRegister? && s.op.did == a;
    NoRowsNothingEarned(Apply(t, s), a);
  }

  lemma ConservationStep(t: Tables, s: Step, a: string, clipped: int)
    requires WellFormed(t) && ApiStep(s.op, a)
    requires a in t.agents ==> t.agents[a].score == Earned(t, a) + clipped
    requires a !in t.agents ==> clipped == 0
    ensures var t' := Apply(t, s);
            && (a in t'.agents ==> t'.agents[a].score == Earned(t', a) + clipped + ClipOf(t, s.op, a))
            && (a !in t'.agents ==> clipped + ClipOf(t, s.op, a) == 0)
  {
    ApplyKeepsAgents(t, s);
    if a in t.agents {
      EarnedStep(t, s, a);
      StepMovesByDelta(t, s, a);
      var d := DeltaOf(t, s.op, a);
      if d != [] {
        SumSingle(d[0]);
        assert d == [d[0]] && d[..0] == [];
      }
    } else if a in Apply(t, s).agents {
      FreshAgentEarned(t, s, a);
    }
  }

  /**
   * Ledger conservation: in every run from empty tables, the score is 500, plus 50 a completed
   * verification, plus 25 an attestation, plus the logged changes, plus what saturation clipped.
   */
  lemma {:induction false} Conservation(steps: seq<Step>, a: string)
    requires forall s <- steps :: ApiStep(s.op, a)
    ensures var t := Run(EMPTY, steps);
            a in t.agents ==> t.agents[a].score == Earned(t, a) + Clipped(EMPTY, steps, a)
    ensures a !in Run(EMPTY, steps).agents ==> Clipped(EMPTY, steps, a) == 0
  {
    if steps != [] {
      var front := steps[..|steps| - 1];
      Conservation(front, a);
      ReachableWellFormed(EMPTY, front);
      ConservationStep(Run(EMPTY, front), steps[|steps| - 1], a, Clipped(EMPTY, front, a));
    } else {
      assert a !in Run(EMPTY, steps).agents;
    }
  }

  /** An agent whose unsaturated score never leaves 0..1000 along a run. */
  ghost predicate NeverHitsBound(t: Tables, steps: seq<Step>, a: string) {
    steps != [] ==>
      var front := steps[..|steps| - 1];
      var before := Run(t, front);
      && NeverHitsBound(t, front, a)
      && (a in before.agents ==>
            InRange(before.agents[a].score + Sum(DeltaOf(before, steps[|steps| - 1].op, a))))
  }

  /** Saturation then cuts nothing off. */
  lemma {:induction false} UnclippedWithinBounds(t: Tables, steps: seq<Step>, a: string)
    requires NeverHitsBound(t, steps, a)
    ensures Clipped(t, steps, a) == 0
  {
    if steps != [] {
      var front := steps[..|steps| - 1];
      UnclippedWithinBounds(t, front, a);
      var d := DeltaOf(Run(t, front), steps[|steps| - 1].op, a);
      if d != [] {
        SumSingle(d[0]);
        assert d == [d[0]];
      }
    }
  }

  // ------------------------------------------------------------------ two accountings

  /** Logged points that the recalculation formula does not know about. */
  function Unformulated(t: Tables, a: string): int {
    SumChanges(t.events, a) + 100 * CountEvents(t.events, a, VIOLATION)
      + 150 * CountEvents(t.events, a, DISPUTE_LOST)
  }

  lemma RecalculatedFromRows(t: Tables, a: string, clipped: int, now: Time)
    requires a in t.agents && t.agents[a].score == Earned(t, a) + clipped
    ensures Recalculate(t, a, now).1
         == Success(Clamp(t.agents[a].score + 200 - DaysInactive(t.agents[a].lastActiveAt, now)
                          - clipped - Unformulated(t, a)))
  {
    var f := FactorsOf(t, a, now);
    var total := 700 + 50 * f.peerVerifications + 25 * f.memoryAttestations
                 - 100 * f.policyViolations - 150 * f.disputesLost - f.daysInactive;
    assert RawScore(f) == total as real;
    assert Round(total as real) == total;
  }

  /**
   * The two accountings differ by exactly four things: the 200 points of the fixed completion
   * rate, the idle days, what saturation clipped, and logged changes outside the formula.
   */
  lemma AccountingsCompared(steps: seq<Step>, a: string, now: Time)
    requires forall s <- steps :: ApiStep(s.op, a)
    requires a in Run(EMPTY, steps).agents
    ensures var t := Run(EMPTY, steps);
            Recalculate(t, a, now).1
              == Success(Clamp(t.agents[a].score + 200 - DaysInactive(t.agents[a].lastActiveAt, now)
                               - Clipped(EMPTY, steps, a) - Unformulated(t, a)))
  {
    Conservation(steps, a);
    RecalculatedFromRows(Run(EMPTY, steps), a, Clipped(EMPTY, steps, a), now);
  }

  /** Every logged event is a -100 violation or a -150 lost dispute. */
  predicate OnlyPenalties(events: seq<Event>, a: string) {
    forall i | 0 <= i < |events| && events[i].agent == a ::
      (events[i].kind == VIOLATION && events[i].change == -100)
      || (events[i].kind == DISPUTE_LOST && events[i].change == -150)
  }

  lemma {:induction false} PenaltiesAreFormulated(t: Tables, a: string)
    requires OnlyPenalties(t.events, a)
    ensures Unformulated(t, a) == 0
    decreases |t.events|
  {
    if t.events != [] {
      PenaltiesAreFormulated(t.(events := t.events[..|t.events| - 1]), a);
    }
  }

  lemma RecalculatedPenaltiesOnly(t: Tables, a: string, now: Time)
    requires a in t.agents && t.agents[a].score == Earned(t, a) && OnlyPenalties(t.events, a)
    ensures Recalculate(t, a, now).1
         == Success(Clamp(t.agents[a].score + 200 - DaysInactive(t.agents[a].lastActiveAt, now)))
  {
    RecalculatedFromRows(t, a, 0, now);
    PenaltiesAreFormulated(t, a);
  }

  /** The two accountings agree, up to the completion bonus and idleness, for an unclipped, penalties-only agent. */
  lemma AccountingsAgree(steps: seq<Step>, a: string, now: Time)
    requires forall s <- steps :: ApiStep(s.op, a)
    requires a in Run(EMPTY, steps).agents
    requires NeverHitsBound(EMPTY, steps, a) && OnlyPenalties(Run(EMPTY, steps).events, a)
    ensures var t := Run(EMPTY, steps);
            Recalculate(t, a, now).1
              == Success(Clamp(t.agents[a].score + 200 - DaysInactive(t.agents[a].lastActiveAt, now)))
  {
    Conservation(steps, a);
    UnclippedWithinBounds(EMPTY, steps, a);
    RecalculatedPenaltiesOnly(Run(EMPTY, steps), a, now);
  }

  // ------------------------------------------------------------------ verification state machine

  /** The verdicts of the successful submissions for a verification, in order. */
  ghost function Verdicts(t: Tables, steps: seq<Step>, id: string): seq<bool> {
    if steps == [] then []
    else
      var front := steps[..|steps| - 1];
      Verdicts(t, front, id) + VerdictOf(Run(t, front), steps[|steps| - 1], id)
  }

  function StatusAfter(verdicts: seq<bool>): Status {
    if verdicts == [] then Pending else if verdicts[0] then Completed else Failed
  }

  ghost function VerdictOf(t: Tables, s: Step, id: string): seq<bool> {
    if s.op.DoSubmit? && s.op.id == id && Submit(t, id, s.op.success, s.at).1.Ok? then [s.op.success] else []
  }

  /** One step leaves a verification alone, or settles a pending one as the verdict says. */
  lemma VerdictStep(t: Tables, s: Step, id: string)
    requires id in t.verifications
    ensures id in Apply(t, s).verifications
    ensures var v, verdict := t.verifications[id], VerdictOf(t, s, id);
            && (verdict != [] ==> v.status.Pending?)
            && Apply(t, s).verifications[id] == if verdict == [] then v else v.(status := StatusAfter(verdict))
  {
  }

  /**
   * In every run a verification accepts at most one verdict, and its status records exactly
   * that verdict; the parties never change.
   */
  lemma {:induction false} SettledAtMostOnce(t: Tables, steps: seq<Step>, id: string)
    requires id in t.verifications && t.verifications[id].status.Pending?
    ensures |Verdicts(t, steps, id)| <= 1
    ensures id in Run(t, steps).verifications
    ensures Run(t, steps).verifications[id] == t.verifications[id].(status := StatusAfter(Verdicts(t, steps, id)))
  {
    if steps != [] {
      var front := steps[..|steps| - 1];
      SettledAtMostOnce(t, front, id);
      VerdictStep(Run(t, front), steps[|steps| - 1], id);
    }
  }

  /** Once settled, a verification row never changes again and no further verdict is accepted. */
  lemma {:induction false} SettledForever(t: Tables, steps: seq<Step>, id: string)
    requires id in t.verifications && !t.verifications[id].status.Pending?
    ensures id in Run(t, steps).verifications && Run(t, steps).verifications[id] == t.verifications[id]
    ensures Verdicts(t, steps, id) == []
  {
    if steps != [] {
      var front := steps[..|steps| - 1];
      SettledForever(t, front, id);
      VerdictStep(Run(t, front), steps[|steps| - 1], id);
    }
  }

  /**
   * The one accepted verdict pays exactly one agent: +50 to the verifier or -100 and one logged
   * violation to the target; every rejected submission changes nothing at all.
   */
  lemma VerdictPaysOnce(t: Tables, id: string, success: bool, at: Time)
    requires WellFormed(t)
    ensures var (t', outcome) := Submit(t, id, success, at);
            if outcome.Fail? then t' == t
            else
              var v := t.verifications[id];
              var payee := if success then v.verifier else v.target;
              var moved := t.agents[payee].score + if success then 50 else -100;
              && t'.agents.Keys == t.agents.Keys
              && t'.agents[payee] == t.agents[payee].(
                   score := if moved < 0 then 0 else if moved > 1000 then 1000 else moved, lastActiveAt := at)
              && (forall a <- t.agents :: a != payee ==> t'.agents[a] == t.agents[a])
              && t'.events == t.events + (if success then [] else [Event(v.target, "policy_violation", -100, at)])
              && t'.attestations == t.attestations
    ensures Submit(t, id, success, at).1.Ok?
        <==> id in t.verifications && t.verifications[id].status.Pending?
  {
  }
}
