/**
 * What the trust layer's transactions come to, said of rows, texts and points alone: which memory
 * ids an attestation accepts, what a registration stores, what the counted rows are worth.
 */
module TrustOutcomes {
  import opened Prelude
  import opened TrustTables
  import opened LedgerRuns

  // ------------------------------------------------------------------ spellings of a UUID

  /** A hexadecimal digit in either case. */
  predicate AnyHex(c: char) {
    '0' <= c <= '9' || 'a' <= c <= 'f' || 'A' <= c <= 'F'
  }

  /** Hexadecimal digits in groups of 8, 4, 4, 4 and 12, in either case. */
  predicate Hyphenated(s: string) {
    |s| == 36 && forall i | 0 <= i < 36 ::
      if i == 8 || i == 13 || i == 18 || i == 23 then s[i] == '-' else AnyHex(s[i])
  }

  /** 32 hexadecimal digits in either case. */
  predicate Unhyphenated(s: string) {
    |s| == 32 && forall i | 0 <= i < 32 :: AnyHex(s[i])
  }

  /** Where byte i starts in the hyphenated text. */
  function BytePlace(i: nat): nat {
    2 * i + if i >= 10 then 4 else if i >= 8 then 3 else if i >= 6 then 2 else if i >= 4 then 1 else 0
  }

  lemma ByteReads(s: string, i: nat, rest: string)
    requires i < 16 && |s| >= 2 && AnyHex(s[0]) && AnyHex(s[1]) && ReadsBytes(rest, i + 1)
    requires if |s| > 2 && s[2] == '-' then (i == 3 || i == 5 || i == 7 || i == 9) && rest == s[3..] else rest == s[2..]
    ensures ReadsBytes(s, i)
  {
  }

  lemma {:induction false} HyphenatedReads(s: string, i: nat)
    requires Hyphenated(s) && i <= 16
    ensures ReadsBytes(s[BytePlace(i)..], i)
    decreases 16 - i
  {
    if i < 16 {
      HyphenatedReads(s, i + 1);
      ByteReads(s[BytePlace(i)..], i, s[BytePlace(i + 1)..]);
    }
  }

  lemma {:induction false} UnhyphenatedReads(s: string, i: nat)
    requires Unhyphenated(s) && i <= 16
    ensures ReadsBytes(s[2 * i..], i)
    decreases 16 - i
  {
    if i < 16 {
      UnhyphenatedReads(s, i + 1);
      ByteReads(s[2 * i..], i, s[2 * (i + 1)..]);
    }
  }

  /** Nothing but digits and hyphens is read as bytes. */
  lemma {:induction false} BytesAreDigits(s: string, i: nat, k: nat)
    requires ReadsBytes(s, i) && k < |s|
    ensures AnyHex(s[k]) || s[k] == '-'
    decreases |s|
  {
    if k >= 2 {
      var skip := if |s| > 2 && s[2] == '-' && i % 2 == 1 && i < 15 then 3 else 2;
      if k >= skip {
        BytesAreDigits(s[skip..], i + 1, k - skip);
      }
    }
  }

  function DigitCount(s: string): nat {
    if s == "" then 0 else (if AnyHex(s[0]) then 1 else 0) + DigitCount(s[1..])
  }

  /** Every byte takes two digits. */
  lemma {:induction false} BytesTakeTwoDigits(s: string, i: nat)
    requires i <= 16 && ReadsBytes(s, i)
    ensures DigitCount(s) == 2 * (16 - i)
    decreases |s|
  {
    if i < 16 {
      assert s[1..][0] == s[1] && s[1..][1..] == s[2..];
      assert DigitCount(s) == 2 + DigitCount(s[2..]);
      if |s| > 2 && s[2] == '-' && i % 2 == 1 && i < 15 {
        BytesTakeTwoDigits(s[3..], i + 1);
        assert s[2..][0] == '-' && s[2..][1..] == s[3..];
        assert DigitCount(s[2..]) == DigitCount(s[3..]);
      } else {
        BytesTakeTwoDigits(s[2..], i + 1);
      }
    }
  }

  lemma {:induction false} TrailingBrace(s: string)
    requires s != "" && s[|s| - 1] == '}'
    ensures DigitCount(s) == DigitCount(s[..|s| - 1])
  {
    if |s| > 1 {
      TrailingBrace(s[1..]);
      assert s[1..][..|s[1..]| - 1] == s[..|s| - 1][1..];
    }
  }

  lemma UuidsHave32Digits(s: string)
    requires ReadsAsUuid(s)
    ensures DigitCount(s) == 32
  {
    if |s| >= 2 && s[0] == '{' && s[|s| - 1] == '}' {
      TrailingBrace(s);
      assert s[..|s| - 1][0] == '{' && s[..|s| - 1][1..] == s[1..|s| - 1];
      BytesTakeTwoDigits(s[1..|s| - 1], 0);
    } else {
      BytesTakeTwoDigits(s, 0);
    }
  }

  lemma SpellingsRead(s: string)
    requires Hyphenated(s) || Unhyphenated(s)
    ensures ReadsAsUuid(s)
  {
    assert s[0] != '{';
    assert s[0..] == s;
    if Hyphenated(s) {
      HyphenatedReads(s, 0);
    } else {
      UnhyphenatedReads(s, 0);
    }
  }

  lemma OtherCharactersDoNotRead(s: string, k: nat)
    requires k < |s| && !AnyHex(s[k]) && s[k] !in "-{}"
    ensures !ReadsAsUuid(s)
  {
    if ReadsAsUuid(s) {
      if s[0] == '{' && s[|s| - 1] == '}' {
        assert s[1..|s| - 1][k - 1] == s[k];
        BytesAreDigits(s[1..|s| - 1], 0, k - 1);
      } else {
        BytesAreDigits(s, 0, k);
      }
    }
  }

  /**
   * An attestation by a registered agent of a memory id in the usual spelling, without hyphens, or
   * in upper case is saved: one row, and 25 points up to 1000.
   */
  lemma AttestationIsSaved(t: Tables, a: Attestation, now: Time)
    requires Hyphenated(a.memoryId) || Unhyphenated(a.memoryId)
    requires a.agent != "" && a.agent in t.agents && a.signature != ""
    ensures var (t', outcome) := SaveAttestation(t, a, now);
            && outcome == Ok
            && |t'.attestations| == |t.attestations| + 1
            && t'.attestations[..|t.attestations|] == t.attestations
            && (var row := t'.attestations[|t.attestations|];
                && row.memoryId == a.memoryId && row.agent == a.agent && row.signature == a.signature
                && row.createdAt == (if a.createdAt == -62_135_596_800 * 1_000_000_000 then now else a.createdAt))
            && t'.agents.Keys == t.agents.Keys && (forall b <- t.agents :: b != a.agent ==> t'.agents[b] == t.agents[b])
            && t'.agents[a.agent].score
                 == (if t.agents[a.agent].score + 25 > 1000 then 1000 else t.agents[a.agent].score + 25)
            && t'.agents[a.agent].publicKey == t.agents[a.agent].publicKey
            && t'.agents[a.agent].lastActiveAt == now
            && t'.events == t.events && t'.verifications == t.verifications
  {
    SpellingsRead(a.memoryId);
  }

  lemma UuidIsHyphenated(id: Uuid)
    ensures Hyphenated(id)
  {
  }

  /** So it is for every memory id the platform itself writes. */
  lemma OwnIdsAreAttested(t: Tables, id: Uuid, agent: string, signature: Bytes, createdAt: Time, now: Time)
    requires agent != "" && agent in t.agents && signature != ""
    ensures SaveAttestation(t, Attestation(id, agent, signature, createdAt), now).1 == Ok
  {
    UuidIsHyphenated(id);
    AttestationIsSaved(t, Attestation(id, agent, signature, createdAt), now);
  }

  /**
   * An attestation is refused, and nothing changes, without a registered agent, a signature, or a
   * memory id of 32 digits; so is one whose id holds anything but digits, hyphens and braces.
   */
  lemma AttestationIsRefused(t: Tables, a: Attestation, now: Time)
    requires a.agent == "" || a.signature == "" || a.agent !in t.agents || DigitCount(a.memoryId) != 32
             || exists k | 0 <= k < |a.memoryId| :: !AnyHex(a.memoryId[k]) && a.memoryId[k] !in "-{}"
    ensures SaveAttestation(t, a, now).1.Fail? && SaveAttestation(t, a, now).0 == t
  {
    if ReadsAsUuid(a.memoryId) {
      UuidsHave32Digits(a.memoryId);
    }
    if k :| 0 <= k < |a.memoryId| && !AnyHex(a.memoryId[k]) && a.memoryId[k] !in "-{}" {
      OtherCharactersDoNotRead(a.memoryId, k);
    }
  }

  // ------------------------------------------------------------------ registration, events, verifications

  /**
   * A registration succeeds exactly for a new DID with a key. A score of zero becomes 500, and a
   * time becomes the present if it is the first instant of year 1.
   */
  lemma RegistrationOutcome(t: Tables, did: string, agent: Agent, now: Time)
    ensures var (t', outcome) := Register(t, did, agent, now);
            var zero := -62_135_596_800 * 1_000_000_000;
            && (outcome == Ok <==> did != "" && agent.publicKey != "" && did !in t.agents)
            && (outcome != Ok ==> t' == t)
            && (outcome == Ok ==>
                  && t'.agents.Keys == t.agents.Keys + {did}
                  && (forall a <- t.agents :: t'.agents[a] == t.agents[a])
                  && t'.agents[did].publicKey == agent.publicKey
                  && t'.agents[did].score == (if agent.score == 0 then 500 else agent.score)
                  && t'.agents[did].createdAt == (if agent.createdAt == zero then now else agent.createdAt)
                  && t'.agents[did].lastActiveAt == (if agent.lastActiveAt == zero then now else agent.lastActiveAt)
                  && t'.events == t.events && t'.attestations == t.attestations && t'.verifications == t.verifications)
  {
  }

  /** An update writes score and activity of a registered agent as given, and nothing else. */
  lemma UpdateOutcome(t: Tables, did: string, score: int, lastActiveAt: Time)
    ensures var (t', outcome) := Update(t, did, score, lastActiveAt);
            && (outcome == Ok <==> did in t.agents)
            && (outcome != Ok ==> t' == t)
            && (outcome == Ok ==>
                  t' == t.(agents := t.agents[did := Agent(t.agents[did].publicKey, score, t.agents[did].createdAt, lastActiveAt)]))
  {
  }

  /** A logged event adds one row and moves one score, kept between 0 and 1000. */
  lemma EventOutcome(t: Tables, did: string, kind: string, change: int, now: Time)
    ensures var (t', outcome) := LogEvent(t, did, kind, change, now);
            && (outcome == Ok <==> did in t.agents)
            && (outcome != Ok ==> t' == t)
            && (outcome == Ok ==>
                  && t'.events == t.events + [Event(did, kind, change, now)]
                  && t'.agents.Keys == t.agents.Keys
                  && (forall a <- t.agents :: a != did ==> t'.agents[a] == t.agents[a])
                  && (var moved := t.agents[did].score + change;
                      var score := if moved < 0 then 0 else if moved > 1000 then 1000 else moved;
                      t'.agents[did] == Agent(t.agents[did].publicKey, score, t.agents[did].createdAt, now))
                  && t'.attestations == t.attestations && t'.verifications == t.verifications)
  {
  }

  /** A verification is created exactly between two different registered agents, under a new id, as pending. */
  lemma CreationOutcome(t: Tables, id: string, target: string, verifier: string, now: Time)
    requires id !in t.verifications && "" !in t.agents
    ensures var (t', outcome) := CreateVerification(t, id, target, verifier, now);
            && (outcome == Ok <==> target in t.agents && verifier in t.agents && target != verifier)
            && t' == if outcome == Ok
                     then t.(verifications := t.verifications[id := Verification(target, verifier, Pending, now)])
                     else t
  {
  }

  // ------------------------------------------------------------------ what the rows are worth

  function CompletedBy(t: Tables, did: string): set<string> {
    set id | id in t.verifications && t.verifications[id].verifier == did && t.verifications[id].status == Completed
  }

  function EventRows(rows: seq<Event>, did: string, kind: string): set<nat> {
    set i: nat | i < |rows| && rows[i].agent == did && rows[i].kind == kind
  }

  function AttestationRows(rows: seq<Attestation>, did: string): set<nat> {
    set i: nat | i < |rows| && rows[i].agent == did
  }

  lemma {:induction false} EventsAreCounted(rows: seq<Event>, did: string, kind: string)
    ensures CountEvents(rows, did, kind) == |EventRows(rows, did, kind)|
  {
    if rows != [] {
      var n := |rows| - 1;
      EventsAreCounted(rows[..n], did, kind);
      assert EventRows(rows, did, kind) == EventRows(rows[..n], did, kind)
        + if rows[n].agent == did && rows[n].kind == kind then {n} else {};
    }
  }

  lemma {:induction false} AttestationsAreCounted(rows: seq<Attestation>, did: string)
    ensures CountAttestations(rows, did) == |AttestationRows(rows, did)|
  {
    if rows != [] {
      var n := |rows| - 1;
      AttestationsAreCounted(rows[..n], did);
      assert AttestationRows(rows, did) == AttestationRows(rows[..n], did) + if rows[n].agent == did then {n} else {};
    }
  }

  /**
   * Recalculation, said of rows: 700 points, 50 a completed verification and 25 an attestation,
   * less 100 a policy violation, 150 a lost dispute and 1 a whole idle day, between 0 and 1000.
   */
  lemma RecalculationOutcome(t: Tables, did: string, now: Time, days: nat)
    requires did in t.agents
    requires var idle := now - t.agents[did].lastActiveAt;
             if idle < 0 then days == 0
             else days * 24 * 3600 * 1_000_000_000 <= idle < (days + 1) * 24 * 3600 * 1_000_000_000
    ensures var (t', result) := Recalculate(t, did, now);
            var worth := 700 + 50 * |CompletedBy(t, did)| + 25 * |AttestationRows(t.attestations, did)|
                         - 100 * |EventRows(t.events, did, "policy_violation")|
                         - 150 * |EventRows(t.events, did, "dispute_lost")| - days;
            var score := if worth < 0 then 0 else if worth > 1000 then 1000 else worth;
            result == Success(score) && t' == t.(agents := t.agents[did := t.agents[did].(score := score)])
  {
    EventsAreCounted(t.events, did, "policy_violation");
    EventsAreCounted(t.events, did, "dispute_lost");
    AttestationsAreCounted(t.attestations, did);
    assert CompletedIds(t, did) == CompletedBy(t, did);
    IdleDays(t.agents[did].lastActiveAt, now, days);
    WholeScore(FactorsOf(t, did, now));
  }

  lemma IdleDays(lastActiveAt: Time, now: Time, days: nat)
    requires var idle := now - lastActiveAt;
             if idle < 0 then days == 0
             else days * 24 * 3600 * 1_000_000_000 <= idle < (days + 1) * 24 * 3600 * 1_000_000_000
    ensures DaysInactive(lastActiveAt, now) == days
  {
  }

  /** With a completion rate of 1 there is nothing to round. */
  lemma WholeScore(f: Factors)
    requires f.completionRate == 1.0
    ensures var worth := 700 + 50 * f.peerVerifications + 25 * f.memoryAttestations - 100 * f.policyViolations
                         - 150 * f.disputesLost - f.daysInactive;
            Reputation(f) == if worth < 0 then 0 else if worth > 1000 then 1000 else worth
  {
    var worth := 700 + 50 * f.peerVerifications + 25 * f.memoryAttestations - 100 * f.policyViolations
                 - 150 * f.disputesLost - f.daysInactive;
    assert RawScore(f) == worth as real;
    assert Round(worth as real) == worth;
  }

  /**
   * The score of any factors: 500, 200 times the completion rate, and the counted rows, rounded to
   * the nearest whole number, halves up, between 0 and 1000.
   */
  lemma ReputationOutcome(f: Factors)
    ensures var points := 500.0 + 200.0 * f.completionRate
                          + (50 * f.peerVerifications + 25 * f.memoryAttestations - 100 * f.policyViolations
                             - 150 * f.disputesLost - f.daysInactive) as real;
            var score := Reputation(f);
            if points <= 0.0 then score == 0
            else if points >= 1000.0 then score == 1000
            else score as real <= points + 0.5 < score as real + 1.0
  {
  }

  /** In every run whose given scores lie between 0 and 1000, all scores do. */
  lemma ScoresStayBetweenBounds(steps: seq<Step>, did: string)
    requires forall s <- steps ::
               && (s.op.DoRegister? ==> 0 <= s.op.agent.score <= 1000)
               && (s.op.DoUpdate? ==> 0 <= s.op.score <= 1000)
    ensures did in Run(EMPTY, steps).agents ==> 0 <= Run(EMPTY, steps).agents[did].score <= 1000
  {
    ReachableWellFormed(EMPTY, steps);
  }
}
