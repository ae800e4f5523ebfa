/**
 * The policy table, its read-through cache with a five-minute expiry, and the evaluations that
 * go through them. Saving never invalidates the cache, so what can be promised is bounded
 * staleness, over every interleaving of saves, deletions, evaluations and late cache writes.
 */
module PolicyCache {
  import opened Prelude
  import opened PolicyDecision

  const TTL := 5 * 60 * NANOS_PER_SECOND

  type Rows = map<string, Policy>

  datatype Cached = Cached(policies: seq<Policy>, setAt: Time)

  /** A list read from the table at `readAt` and not yet written to the cache. */
  datatype Refill = Refill(agent: string, policies: seq<Policy>, readAt: Time)

  datatype State = State(
    now: Time, agents: set<string>, rows: Rows, cache: map<string, Cached>, refills: seq<Refill>)

  // ------------------------------------------------------------------ the table

  function Owned(rows: Rows, agent: string): set<string> {
    set id | id in rows && rows[id].agentDid == agent
  }

  /** The list holds every policy of the agent once, in any order. */
  ghost predicate Lists(policies: seq<Policy>, rows: Rows, agent: string) {
    && (forall i | 0 <= i < |policies| ::
          policies[i].id in Owned(rows, agent) && policies[i] == rows[policies[i].id])
    && (forall i, j | 0 <= i < j < |policies| :: policies[i].id != policies[j].id)
    && (forall id <- Owned(rows, agent) :: exists i | 0 <= i < |policies| :: policies[i].id == id)
  }

  /**
   * Insert, or update on a known id: an update keeps the owner and the creation time of the row,
   * whoever the saved policy names.
   */
  function Save(agents: set<string>, rows: Rows, p: Policy, now: Time): (Rows, Outcome) {
    if p.id in rows then
      (rows[p.id := rows[p.id].(version := p.version, content := p.content, updatedAt := now)], Ok)
    else if p.agentDid !in agents then (rows, Fail(ForeignKey))
    else
      (rows[p.id := p.(createdAt := OrNow(p.createdAt, now), updatedAt := now)], Ok)
  }

  function ForgetRows(rows: Rows, agent: string): Rows {
    map id | id in rows && rows[id].agentDid != agent :: rows[id]
  }

  // ------------------------------------------------------------------ steps

  datatype Event =
    | Tick(nanos: nat)
    | RegisterAgent(agent: string)
    | SavePolicy(policy: Policy)
    | Forget(agent: string)
    | Invalidate(agent: string)
    | Served(agent: string, policies: seq<Policy>)   // an evaluation answered from the cache
    | Fetched(agent: string, policies: seq<Policy>)  // an evaluation answered from the table
    | Filled(index: nat)                             // its cache write arrives
    | Dropped(index: nat)                            // its cache write is lost

  /** The cache answers while the entry lives; an empty list reads back as a miss. */
  predicate Hit(s: State, agent: string, policies: seq<Policy>) {
    agent in s.cache && s.now < s.cache[agent].setAt + TTL && policies == s.cache[agent].policies != []
  }

  function WithoutRefill(s: State, index: nat): State
    requires index < |s.refills|
  {
    s.(refills := s.refills[..index] + s.refills[index + 1..])
  }

  /** One step; a cache write arrives at most `delay` after the table was read. */
  ghost predicate Next(s: State, e: Event, s': State, delay: nat) {
    match e
    case Tick(nanos) => s' == s.(now := s.now + nanos)
    case RegisterAgent(agent) => s' == s.(agents := s.agents + {agent})
    case SavePolicy(p) => s' == s.(rows := Save(s.agents, s.rows, p, s.now).0)
    case Forget(agent) => s' == s.(rows := ForgetRows(s.rows, agent))
    case Invalidate(agent) => s' == s.(cache := s.cache - {agent})
    case Served(agent, policies) => Hit(s, agent, policies) && s' == s
    case Fetched(agent, policies) =>
      Lists(policies, s.rows, agent) && s' == s.(refills := s.refills + [Refill(agent, policies, s.now)])
    case Filled(index) =>
      && index < |s.refills|
      && var r := s.refills[index];
      && s.now <= r.readAt + delay
      && s' == WithoutRefill(s, index).(cache := s.cache[r.agent := Cached(r.policies, s.now)])
    case Dropped(index) => index < |s.refills| && s' == WithoutRefill(s, index)
  }

  /** An evaluation of the agent's requests that uses this list. */
  predicate Uses(e: Event, agent: string, policies: seq<Policy>) {
    e == Served(agent, policies) || e == Fetched(agent, policies)
  }

  datatype Trace = Trace(states: seq<State>, events: seq<Event>)

  ghost predicate IsRun(t: Trace, delay: nat) {
    && |t.states| == |t.events| + 1
    && t.states[0].cache == map[] && t.states[0].refills == []
    && forall i | 0 <= i < |t.events| :: Next(t.states[i], t.events[i], t.states[i + 1], delay)
  }

  // ------------------------------------------------------------------ bounded staleness

  /** In one of the states up to i, at a time in lo..hi, the table held exactly this list. */
  ghost predicate WasHeld(t: Trace, i: nat, agent: string, policies: seq<Policy>, lo: Time, hi: Time) {
    exists j | 0 <= j <= i && j < |t.states| ::
      Lists(policies, t.states[j].rows, agent) && lo <= t.states[j].now <= hi
  }

  ghost predicate CacheIsRecent(t: Trace, i: nat, delay: nat)
    requires i < |t.states|
  {
    var s := t.states[i];
    forall a <- s.cache ::
      && s.cache[a].setAt <= s.now
      && WasHeld(t, i, a, s.cache[a].policies, s.cache[a].setAt - delay, s.cache[a].setAt)
  }

  ghost predicate RefillsAreReal(t: Trace, i: nat)
    requires i < |t.states|
  {
    var s := t.states[i];
    forall k | 0 <= k < |s.refills| ::
      && s.refills[k].readAt <= s.now
      && WasHeld(t, i, s.refills[k].agent, s.refills[k].policies, s.refills[k].readAt, s.refills[k].readAt)
  }

  lemma HeldStaysHeld(t: Trace, i: nat, agent: string, policies: seq<Policy>, lo: Time, hi: Time)
    requires WasHeld(t, i, agent, policies, lo, hi)
    ensures WasHeld(t, i + 1, agent, policies, lo, hi)
  {
  }

  lemma RefillsStep(t: Trace, i: nat, delay: nat)
    requires IsRun(t, delay) && i < |t.events| && RefillsAreReal(t, i)
    ensures RefillsAreReal(t, i + 1)
  {
    var s, s', e := t.states[i], t.states[i + 1], t.events[i];
    assert Next(s, e, s', delay);
    forall k | 0 <= k < |s'.refills|
      ensures s'.refills[k].readAt <= s'.now
      ensures WasHeld(t, i + 1, s'.refills[k].agent, s'.refills[k].policies, s'.refills[k].readAt, s'.refills[k].readAt)
    {
      var r := s'.refills[k];
      if e.Fetched? && k == |s.refills| {
        assert Lists(r.policies, t.states[i].rows, r.agent);
      } else {
        var old_k := if (e.Filled? || e.Dropped?) && k >= e.index then k + 1 else k;
        assert r == s.refills[old_k];
        HeldStaysHeld(t, i, r.agent, r.policies, r.readAt, r.readAt);
      }
    }
  }

  lemma CacheStep(t: Trace, i: nat, delay: nat)
    requires IsRun(t, delay) && i < |t.events| && CacheIsRecent(t, i, delay) && RefillsAreReal(t, i)
    ensures CacheIsRecent(t, i + 1, delay)
  {
    var s, s', e := t.states[i], t.states[i + 1], t.events[i];
    assert Next(s, e, s', delay);
    forall a | a in s'.cache
      ensures s'.cache[a].setAt <= s'.now
      ensures WasHeld(t, i + 1, a, s'.cache[a].policies, s'.cache[a].setAt - delay, s'.cache[a].setAt)
    {
      if e.Filled? && a == s.refills[e.index].agent {
        var r := s.refills[e.index];
        var j :| 0 <= j <= i && j < |t.states| && Lists(r.policies, t.states[j].rows, a) && r.readAt <= t.states[j].now <= r.readAt;
        assert 0 <= j <= i + 1;
      } else {
        HeldStaysHeld(t, i, a, s.cache[a].policies, s.cache[a].setAt - delay, s.cache[a].setAt);
      }
    }
  }

  lemma {:induction false} CacheInvariant(t: Trace, i: nat, delay: nat)
    requires IsRun(t, delay) && i < |t.states|
    ensures CacheIsRecent(t, i, delay) && RefillsAreReal(t, i)
  {
    if i > 0 {
      CacheInvariant(t, i - 1, delay);
      RefillsStep(t, i - 1, delay);
      CacheStep(t, i - 1, delay);
    }
  }

  /**
   * Bounded staleness: every list an evaluation uses at time t is what the table held for that
   * agent at some time in (t - 300s - delay, t]. With instant cache writes the delay is 0.
   */
  lemma BoundedStaleness(t: Trace, i: nat, delay: nat, agent: string, policies: seq<Policy>)
    requires IsRun(t, delay) && i < |t.events| && Uses(t.events[i], agent, policies)
    ensures WasHeld(t, i, agent, policies, t.states[i].now - 300 * 1_000_000_000 - delay + 1, t.states[i].now)
  {
    assert Next(t.states[i], t.events[i], t.states[i + 1], delay);
    CacheInvariant(t, i, delay);
    if t.events[i].Served? {
      var c := t.states[i].cache[agent];
      var j :| 0 <= j <= i && j < |t.states| && Lists(policies, t.states[j].rows, agent) && c.setAt - delay <= t.states[j].now <= c.setAt;
      assert t.states[j].now >= t.states[i].now - TTL - delay + 1;
    } else {
      assert Lists(policies, t.states[i].rows, agent);
    }
  }

  // ------------------------------------------------------------------ what follows for decisions

  lemma {:induction false} ClockMonotone(t: Trace, i: nat, j: nat, delay: nat)
    requires IsRun(t, delay) && i <= j < |t.states|
    ensures t.states[i].now <= t.states[j].now
    decreases j - i
  {
    if i < j {
      ClockMonotone(t, i, j - 1, delay);
      assert Next(t.states[j - 1], t.events[j - 1], t.states[j], delay);
    }
  }

  lemma ListedIsOwned(policies: seq<Policy>, rows: Rows, agent: string)
    requires Lists(policies, rows, agent)
    ensures policies != [] ==> Owned(rows, agent) != {}
  {
    if policies != [] {
      assert policies[0].id in Owned(rows, agent);
    }
  }

  /** No save between two steps names the agent. */
  predicate NoSaveFor(t: Trace, agent: string, start: nat, until: nat) {
    forall k | start <= k < until && k < |t.events| ::
      t.events[k].SavePolicy? ==> t.events[k].policy.agentDid != agent
  }

  lemma OwnsNothingStep(s: State, e: Event, s': State, agent: string, delay: nat)
    requires Next(s, e, s', delay) && Owned(s.rows, agent) == {}
    requires e.SavePolicy? ==> e.policy.agentDid != agent
    ensures Owned(s'.rows, agent) == {}
  {
  }

  lemma {:induction false} OwnsNothing(t: Trace, agent: string, start: nat, until: nat, delay: nat)
    requires IsRun(t, delay) && start <= until < |t.states| && NoSaveFor(t, agent, start, until)
    requires Owned(t.states[start].rows, agent) == {}
    ensures Owned(t.states[until].rows, agent) == {}
    decreases until
  {
    if start < until {
      OwnsNothing(t, agent, start, until - 1, delay);
      OwnsNothingStep(t.states[until - 1], t.events[until - 1], t.states[until], agent, delay);
    }
  }

  /**
   * Forget reaches the decision point: once 300s (plus the write delay) have passed since
   * Forget(a) without a save naming a, every evaluation for a is denied.
   */
  lemma ForgottenIsDenied(t: Trace, f: nat, i: nat, delay: nat, agent: string, policies: seq<Policy>,
                          req: Request, d: Decision)
    requires IsRun(t, delay) && f < i < |t.events|
    requires t.events[f] == Forget(agent) && NoSaveFor(t, agent, f + 1, i)
    requires t.states[i].now >= t.states[f].now + 300 * 1_000_000_000 + delay
    requires Uses(t.events[i], agent, policies) && IsDecision(policies, req, d)
    ensures d == Decision(false, NoPolicies)
  {
    assert Next(t.states[f], t.events[f], t.states[f + 1], delay);
    assert Owned(t.states[f + 1].rows, agent) == {};
    BoundedStaleness(t, i, delay, agent, policies);
    var j :| 0 <= j <= i && j < |t.states| && Lists(policies, t.states[j].rows, agent)
             && t.states[i].now - TTL - delay + 1 <= t.states[j].now <= t.states[i].now;
    if j <= f {
      ClockMonotone(t, j, f, delay);
      assert false;
    }
    OwnsNothing(t, agent, f + 1, j, delay);
    ListedIsOwned(policies, t.states[j].rows, agent);
  }

  /** What an evaluation for b may use in a state. */
  ghost predicate MayUse(s: State, agent: string, policies: seq<Policy>) {
    Hit(s, agent, policies) || Lists(policies, s.rows, agent)
  }

  /** Forgetting a leaves every other agent's evaluations exactly as they were. */
  lemma ForgetKeepsOthers(s: State, s': State, a: string, b: string, policies: seq<Policy>, delay: nat)
    requires Next(s, Forget(a), s', delay) && a != b
    ensures MayUse(s, b, policies) <==> MayUse(s', b, policies)
  {
    assert Owned(s'.rows, b) == Owned(s.rows, b);
  }

  /** Whatever is cached or on its way to the cache for the agent is an empty list. */
  ghost predicate NothingCached(s: State, agent: string) {
    && (agent in s.cache ==> s.cache[agent].policies == [])
    && forall k | 0 <= k < |s.refills| :: s.refills[k].agent == agent ==> s.refills[k].policies == []
  }

  lemma NothingCachedWithoutRows(t: Trace, k: nat, delay: nat, agent: string)
    requires IsRun(t, delay) && k < |t.states|
    requires forall j | 0 <= j <= k :: Owned(t.states[j].rows, agent) == {}
    ensures NothingCached(t.states[k], agent)
  {
    var s := t.states[k];
    CacheInvariant(t, k, delay);
    if agent in s.cache {
      var c := s.cache[agent];
      var j :| 0 <= j <= k && j < |t.states| && Lists(c.policies, t.states[j].rows, agent)
               && c.setAt - delay <= t.states[j].now <= c.setAt;
      ListedIsOwned(c.policies, t.states[j].rows, agent);
    }
    forall n | 0 <= n < |s.refills| && s.refills[n].agent == agent
      ensures s.refills[n].policies == []
    {
      var r := s.refills[n];
      var j :| 0 <= j <= k && j < |t.states| && Lists(r.policies, t.states[j].rows, agent)
               && r.readAt <= t.states[j].now <= r.readAt;
      ListedIsOwned(r.policies, t.states[j].rows, agent);
    }
  }

  lemma NothingCachedStep(s: State, e: Event, s': State, agent: string, delay: nat)
    requires Next(s, e, s', delay) && NothingCached(s, agent)
    requires e.Fetched? ==> e.agent != agent
    ensures NothingCached(s', agent)
  {
    forall k | 0 <= k < |s'.refills| && s'.refills[k].agent == agent
      ensures s'.refills[k].policies == []
    {
      var before := if (e.Filled? || e.Dropped?) && k >= e.index then k + 1 else k;
      assert before < |s.refills| ==> s'.refills[k] == s.refills[before];
    }
  }

  lemma {:induction false} NothingCachedUntilFetched(t: Trace, k: nat, i: nat, delay: nat, agent: string)
    requires IsRun(t, delay) && k <= i < |t.states| && NothingCached(t.states[k], agent)
    requires forall n | k <= n < i :: t.events[n].Fetched? ==> t.events[n].agent != agent
    ensures NothingCached(t.states[i], agent)
    decreases i
  {
    if k < i {
      NothingCachedUntilFetched(t, k, i - 1, delay, agent);
      NothingCachedStep(t.states[i - 1], t.events[i - 1], t.states[i], agent, delay);
    }
  }

  /**
   * An agent's first policy is seen by its next evaluation: if the agent had no row in any state
   * up to k, and no evaluation since then has read the table for it, the evaluation at i reads
   * the table and uses the rows of that moment. Empty lists are never served from the cache.
   */
  lemma FirstPolicySeen(t: Trace, k: nat, i: nat, delay: nat, agent: string, policies: seq<Policy>)
    requires IsRun(t, delay) && k <= i < |t.events| && Uses(t.events[i], agent, policies)
    requires forall j | 0 <= j <= k :: Owned(t.states[j].rows, agent) == {}
    requires forall n | k <= n < i :: t.events[n].Fetched? ==> t.events[n].agent != agent
    ensures t.events[i] == Fetched(agent, policies)
    ensures Lists(policies, t.states[i].rows, agent)
  {
    NothingCachedWithoutRows(t, k, delay, agent);
    NothingCachedUntilFetched(t, k, i, delay, agent);
    assert Next(t.states[i], t.events[i], t.states[i + 1], delay);
  }

  /**
   * Later evaluations stay current as long as the agent's own rows do not change again, however
   * often the table was read and whatever is saved for others.
   */
  lemma UnchangedRowsStayCurrent(t: Trace, k: nat, i: nat, delay: nat, agent: string, policies: seq<Policy>)
    requires IsRun(t, delay) && k < i < |t.events| && Uses(t.events[i], agent, policies)
    requires forall j | 0 <= j <= k :: Owned(t.states[j].rows, agent) == {}
    requires forall j | k < j <= i :: RowsOf(t.states[j].rows, agent) == RowsOf(t.states[i].rows, agent)
    ensures Lists(policies, t.states[i].rows, agent)
  {
    assert Next(t.states[i], t.events[i], t.states[i + 1], delay);
    BoundedStaleness(t, i, delay, agent, policies);
    var j :| 0 <= j <= i && j < |t.states| && Lists(policies, t.states[j].rows, agent)
             && t.states[i].now - TTL - delay + 1 <= t.states[j].now <= t.states[i].now;
    ListedIsOwned(policies, t.states[j].rows, agent);
    if j > k {
      SameRowsSameList(policies, t.states[j].rows, t.states[i].rows, agent);
    }
  }

  /**
   * Whatever happened before: once the agent's rows have been the same for 300s plus the write
   * delay, every evaluation uses the table's current list.
   */
  lemma QuietRowsAreCurrent(t: Trace, i: nat, delay: nat, agent: string, policies: seq<Policy>)
    requires IsRun(t, delay) && i < |t.events| && Uses(t.events[i], agent, policies)
    requires forall j | 0 <= j <= i && t.states[j].now > t.states[i].now - 300 * 1_000_000_000 - delay ::
               RowsOf(t.states[j].rows, agent) == RowsOf(t.states[i].rows, agent)
    ensures Lists(policies, t.states[i].rows, agent)
  {
    BoundedStaleness(t, i, delay, agent, policies);
    var j :| 0 <= j <= i && j < |t.states| && Lists(policies, t.states[j].rows, agent)
             && t.states[i].now - TTL - delay + 1 <= t.states[j].now <= t.states[i].now;
    SameRowsSameList(policies, t.states[j].rows, t.states[i].rows, agent);
  }

  /** A save on a known id changes the rules of its row but never its owner. */
  lemma SaveKeepsOwners(agents: set<string>, rows: Rows, p: Policy, now: Time, agent: string)
    ensures var rows' := Save(agents, rows, p, now).0;
            Owned(rows', agent) == Owned(rows, agent)
              + (if p.id !in rows && p.agentDid == agent && agent in agents then {p.id} else {})
  {
  }

  function RowsOf(rows: Rows, agent: string): Rows {
    map id | id in rows && rows[id].agentDid == agent :: rows[id]
  }

  lemma SameListSameRows(policies: seq<Policy>, before: Rows, after: Rows, agent: string)
    requires Lists(policies, before, agent) && Lists(policies, after, agent)
    ensures RowsOf(before, agent) == RowsOf(after, agent)
  {
    forall id | id in Owned(before, agent) ensures id in Owned(after, agent) && after[id] == before[id] {
      var i :| 0 <= i < |policies| && policies[i].id == id;
    }
    forall id | id in Owned(after, agent) ensures id in Owned(before, agent) {
      var i :| 0 <= i < |policies| && policies[i].id == id;
    }
  }

  lemma SameRowsSameList(policies: seq<Policy>, before: Rows, after: Rows, agent: string)
    requires Lists(policies, before, agent) && RowsOf(before, agent) == RowsOf(after, agent)
    ensures Lists(policies, after, agent)
  {
    assert Owned(before, agent) == RowsOf(before, agent).Keys;
    assert Owned(after, agent) == RowsOf(after, agent).Keys;
    forall i | 0 <= i < |policies| ensures policies[i].id in Owned(after, agent) && policies[i] == after[policies[i].id] {
      assert RowsOf(after, agent)[policies[i].id] == RowsOf(before, agent)[policies[i].id];
    }
  }

  /** The save changes a row of the agent, or adds one. */
  predicate SaveTouches(agents: set<string>, rows: Rows, p: Policy, now: Time, agent: string) {
    if p.id in rows then
      var row := rows[p.id];
      row.agentDid == agent && (row.version != p.version || row.content != p.content || row.updatedAt != now)
    else p.agentDid == agent && agent in agents
  }

  lemma TouchedRowsDiffer(agents: set<string>, rows: Rows, p: Policy, now: Time, agent: string)
    ensures RowsOf(Save(agents, rows, p, now).0, agent) == RowsOf(rows, agent) <==> !SaveTouches(agents, rows, p, now, agent)
  {
    var before, after := RowsOf(rows, agent), RowsOf(Save(agents, rows, p, now).0, agent);
    if SaveTouches(agents, rows, p, now, agent) {
      assert p.id in after && (p.id !in before || before[p.id] != after[p.id]);
    } else {
      assert before == after;
    }
  }

  /**
   * The documentation promises that a policy change takes effect immediately; the code does not
   * invalidate the cache on a save. A current cached list stays servable across the save, and
   * goes stale exactly when the save changes a row of the agent or adds one for it.
   */
  lemma SaveLeavesCacheStale(s: State, p: Policy, s': State, agent: string, policies: seq<Policy>, delay: nat)
    requires Next(s, SavePolicy(p), s', delay)
    requires Hit(s, agent, policies) && Lists(policies, s.rows, agent)
    ensures Hit(s', agent, policies)
    ensures Lists(policies, s'.rows, agent) <==> !SaveTouches(s.agents, s.rows, p, s.now, agent)
  {
    TouchedRowsDiffer(s.agents, s.rows, p, s.now, agent);
    if Lists(policies, s'.rows, agent) {
      SameListSameRows(policies, s.rows, s'.rows, agent);
    } else if RowsOf(s'.rows, agent) == RowsOf(s.rows, agent) {
      SameRowsSameList(policies, s.rows, s'.rows, agent);
    }
  }

  // ------------------------------------------------------------------ a stale decision

  function Blanket(effect: string): Policy {
    Policy("p", "a", "1", Content([MemoryRule("*", ["*"], ["*"], effect)], []), 0, 0)
  }

  /**
   * Agent a is registered and allowed everything, an evaluation caches that, the same policy is
   * saved again with a deny, and 299 seconds later a request is evaluated.
   */
  function StaleRun(): Trace {
    var allow, deny := Blanket("allow"), Blanket("deny");
    var rows := map["p" := allow];
    var cache := map["a" := Cached([allow], 0)];
    var later := 299 * NANOS_PER_SECOND;
    Trace(
      [State(0, {}, map[], map[], []),
       State(0, {"a"}, map[], map[], []),
       State(0, {"a"}, rows, map[], []),
       State(0, {"a"}, rows, map[], [Refill("a", [allow], 0)]),
       State(0, {"a"}, rows, cache, []),
       State(0, {"a"}, map["p" := deny], cache, []),
       State(later, {"a"}, map["p" := deny], cache, []),
       State(later, {"a"}, map["p" := deny], cache, [])],
      [RegisterAgent("a"), SavePolicy(allow), Fetched("a", [allow]), Filled(0), SavePolicy(deny), Tick(later),
       Served("a", [allow])])
  }

  lemma BlanketListed(effect: string)
    ensures Lists([Blanket(effect)], map["p" := Blanket(effect)], "a")
  {
    var rows := map["p" := Blanket(effect)];
    assert Owned(rows, "a") == {"p"};
    assert [Blanket(effect)][0].id == "p";
  }

  lemma StaleRunStarts()
    ensures var t := StaleRun();
            Next(t.states[0], t.events[0], t.states[1], 0) && Next(t.states[1], t.events[1], t.states[2], 0)
  {
    var t := StaleRun();
    assert t.states[2].rows == Save(t.states[1].agents, t.states[1].rows, Blanket("allow"), 0).0;
  }

  lemma StaleRunCaches()
    ensures var t := StaleRun();
            Next(t.states[2], t.events[2], t.states[3], 0) && Next(t.states[3], t.events[3], t.states[4], 0)
  {
    BlanketListed("allow");
    var s := StaleRun().states;
    assert s[3] == s[2].(refills := s[2].refills + [Refill("a", [Blanket("allow")], 0)]);
    assert s[4] == WithoutRefill(s[3], 0).(cache := s[3].cache["a" := Cached([Blanket("allow")], 0)]);
  }

  lemma StaleRunEnds()
    ensures var t := StaleRun();
            forall i | 4 <= i < 7 :: Next(t.states[i], t.events[i], t.states[i + 1], 0)
  {
    var t := StaleRun();
    var s := t.states;
    assert s[5].rows == Save(s[4].agents, s[4].rows, Blanket("deny"), 0).0;
    assert Next(s[4], t.events[4], s[5], 0) && Next(s[5], t.events[5], s[6], 0) && Next(s[6], t.events[6], s[7], 0);
  }

  lemma StaleRunIsRun()
    ensures IsRun(StaleRun(), 0)
  {
    StaleRunStarts();
    StaleRunCaches();
    StaleRunEnds();
  }

  /** A list of one and the same blanket policy decides by its effect. */
  lemma BlanketDecides(policies: seq<Policy>, effect: string, req: Request, d: Decision)
    requires effect == "allow" || effect == "deny"
    requires policies != [] && forall i | 0 <= i < |policies| :: policies[i] == Blanket(effect)
    requires IsDecision(policies, req, d)
    ensures d.allowed <==> effect == "allow"
  {
    var p := policies[0];
    var rule := p.content.memoryRules[0];
    assert rule.targetTypes[0] == "*" && rule.namespaces[0] == "*";
    assert Applies(rule, req);
    assert PolicyDenies(p, req) <==> effect == "deny";
    assert PolicyAllows(p, req) <==> effect == "allow";
  }

  lemma OnlyDenyListed(policies: seq<Policy>)
    requires Lists(policies, map["p" := Blanket("deny")], "a")
    ensures policies != [] && forall i | 0 <= i < |policies| :: policies[i] == Blanket("deny")
  {
    assert "p" in Owned(map["p" := Blanket("deny")], "a");
  }

  /**
   * A stale decision in one concrete run: 299 seconds after the allow was replaced by a deny,
   * every request of the agent is still allowed, while the table's own list denies every one.
   */
  lemma DenyIgnoredFor299Seconds(req: Request, used: Decision, current: seq<Policy>, updated: Decision)
    requires Lists(current, StaleRun().states[6].rows, "a")
    requires IsDecision([Blanket("allow")], req, used) && IsDecision(current, req, updated)
    ensures IsRun(StaleRun(), 0) && Uses(StaleRun().events[6], "a", [Blanket("allow")])
    ensures used.allowed && !updated.allowed
  {
    StaleRunIsRun();
    BlanketDecides([Blanket("allow")], "allow", req, used);
    OnlyDenyListed(current);
    BlanketDecides(current, "deny", req, updated);
  }
}
