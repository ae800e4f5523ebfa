/**
 * What working memory comes to, said of times and texts: how long a stored memory is served, which
 * stores are refused, which ids the latest set keeps, and what a search returns.
 */
module WorkingOutcomes {
  import opened Prelude
  import opened MemoryTypes
  import opened WorkingKeys
  import opened LatestIndex
  import opened WorkingStore
  import opened WorkingSearch

  // ------------------------------------------------------------------ lifetimes

  /** The time to ValidUntil, or else the configured expiry. */
  function Life(ttl: int, m: Memory, at: Time): int {
    if m.validUntil == None then ttl else m.validUntil.value - at
  }

  /** The step deletes the id, or stores a working memory of that id with a second or more to live. */
  predicate Concerns(ttl: int, s: Step, id: Uuid) {
    match s.op
    case PutOp(m) => m.id == id && m.kind == Working && Life(ttl, m, s.at) >= 1_000_000_000
    case RemoveOp(x) => x == id
  }

  /** Step i is the last one that stores or deletes the id. */
  predicate LastOn(ttl: int, steps: seq<Step>, id: Uuid, i: nat) {
    i < |steps| && Concerns(ttl, steps[i], id) && forall j | i < j < |steps| :: !Concerns(ttl, steps[j], id)
  }

  /** The store grants k whole seconds. */
  predicate Grants(ttl: int, m: Memory, at: Time, k: int) {
    k * 1_000_000_000 <= Life(ttl, m, at) < (k + 1) * 1_000_000_000
  }

  lemma AcceptsMeans(ttl: int, m: Memory, at: Time)
    ensures Accepts(ttl, m, at) <==> m.kind == Working && Life(ttl, m, at) >= 1_000_000_000
  {
  }

  lemma OthersLeaveLease(ttl: int, s: Step, id: Uuid, lease: Option<Lease>)
    requires !Concerns(ttl, s, id)
    ensures NextLease(ttl, s, id, lease) == lease
  {
    if s.op.PutOp? {
      AcceptsMeans(ttl, s.op.memory, s.at);
    }
  }

  lemma GrantedSeconds(ttl: int, m: Memory, at: Time, k: int)
    requires Grants(ttl, m, at, k) && k >= 0
    ensures ExpirySeconds(ttl, m, at) == k && ExpiryTime(ttl, m, at) == at + k * 1_000_000_000
  {
  }

  lemma {:induction false} LeaseOfLast(ttl: int, steps: seq<Step>, id: Uuid, i: nat)
    requires LastOn(ttl, steps, id, i)
    ensures LeaseOf(ttl, steps, id) == LeaseOf(ttl, steps[..i + 1], id)
    decreases |steps|
  {
    if i == |steps| - 1 {
      assert steps[..i + 1] == steps;
    } else {
      var front := steps[..|steps| - 1];
      LeaseOfLast(ttl, front, id, i);
      OthersLeaveLease(ttl, steps[|steps| - 1], id, LeaseOf(ttl, front, id));
      assert front[..i + 1] == steps[..i + 1];
    }
  }

  lemma LeaseOfLastPut(ttl: int, steps: seq<Step>, i: nat, k: int)
    requires i < |steps| && steps[i].op.PutOp? && LastOn(ttl, steps, steps[i].op.memory.id, i)
    requires Grants(ttl, steps[i].op.memory, steps[i].at, k)
    ensures var m := steps[i].op.memory;
            LeaseOf(ttl, steps, m.id) == Some(Lease(WireImage(m), steps[i].at + k * 1_000_000_000))
  {
    var m := steps[i].op.memory;
    LeaseOfLast(ttl, steps, m.id, i);
    GrantedSeconds(ttl, m, steps[i].at, k);
    assert steps[..i + 1][|steps[..i + 1]| - 1] == steps[i];
  }

  /**
   * If the last step on an id stored a working memory with k whole seconds to live, it is served
   * for exactly k seconds from then on, without its embedding, and not found afterwards.
   */
  lemma ServedForItsSeconds(ttl: int, steps: seq<Step>, i: nat, k: int, now: Time)
    requires ClockOrder(steps, now) && i < |steps| && steps[i].op.PutOp?
    requires LastOn(ttl, steps, steps[i].op.memory.id, i) && Grants(ttl, steps[i].op.memory, steps[i].at, k)
    ensures var m := steps[i].op.memory;
            Get(Run(ttl, steps), m.id, now)
              == if now < steps[i].at + k * 1_000_000_000
                 then Success(m.(embedding := [], content := if m.content == "" then "null" else m.content))
                 else Failure(MemoryNotFound)
  {
    LeaseOfLastPut(ttl, steps, i, k);
    RetrieveRefinesLeases(ttl, steps, now, steps[i].op.memory.id);
  }

  /** With the default expiry and no ValidUntil that is one day. */
  lemma ServedForADay(steps: seq<Step>, i: nat, now: Time)
    requires ClockOrder(steps, now) && i < |steps| && steps[i].op.PutOp?
    requires LastOn(DEFAULT_TTL, steps, steps[i].op.memory.id, i) && steps[i].op.memory.validUntil == None
    ensures Get(Run(DEFAULT_TTL, steps), steps[i].op.memory.id, now).Success?
       <==> now < steps[i].at + 86_400 * 1_000_000_000
  {
    ServedForItsSeconds(DEFAULT_TTL, steps, i, 86_400, now);
  }

  /** If it deleted the id, or there was none, the id is not found. */
  lemma DeletedIsNotFound(ttl: int, steps: seq<Step>, id: Uuid, i: nat, now: Time)
    requires ClockOrder(steps, now)
    requires (LastOn(ttl, steps, id, i) && steps[i].op.RemoveOp?) || forall j | 0 <= j < |steps| :: !Concerns(ttl, steps[j], id)
    ensures Get(Run(ttl, steps), id, now) == Failure(MemoryNotFound)
  {
    RetrieveRefinesLeases(ttl, steps, now, id);
    if LastOn(ttl, steps, id, i) && steps[i].op.RemoveOp? {
      LeaseOfLast(ttl, steps, id, i);
      assert steps[..i + 1][|steps[..i + 1]| - 1] == steps[i];
    } else {
      NeverStored(ttl, steps, id);
    }
  }

  lemma {:induction false} NeverStored(ttl: int, steps: seq<Step>, id: Uuid)
    requires forall j | 0 <= j < |steps| :: !Concerns(ttl, steps[j], id)
    ensures LeaseOf(ttl, steps, id) == None
  {
    if steps != [] {
      var front := steps[..|steps| - 1];
      NeverStored(ttl, front, id);
      OthersLeaveLease(ttl, steps[|steps| - 1], id, LeaseOf(ttl, front, id));
    }
  }

  /** In every run a store succeeds exactly for a working memory with a second or more to live. */
  lemma StoreNeedsASecond(ttl: int, steps: seq<Step>, m: Memory, at: Time)
    ensures var (keys', outcome) := Put(Run(ttl, steps), ttl, m, at);
            && (outcome == Ok <==> m.kind == Working && Life(ttl, m, at) >= 1_000_000_000)
            && (outcome != Ok ==> keys' == Run(ttl, steps))
  {
    ReachableSorted(ttl, steps);
    PutIsAllOrNothing(Run(ttl, steps), ttl, m, at);
    AcceptsMeans(ttl, m, at);
  }

  // ------------------------------------------------------------------ the latest set

  /** Byte-wise order: the texts agree up to a place where a ends, or has the smaller character. */
  lemma {:induction false} LexLessMeans(a: string, b: string)
    ensures LexLess(a, b) <==>
              exists k | 0 <= k <= |a| :: k < |b| && a[..k] == b[..k] && (k == |a| || a[k] < b[k])
  {
    if a != "" && b != "" && a[0] == b[0] {
      LexLessMeans(a[1..], b[1..]);
      if k :| 0 <= k <= |a[1..]| && k < |b[1..]| && a[1..][..k] == b[1..][..k] && (k == |a[1..]| || a[1..][k] < b[1..][k]) {
        assert a[..k + 1] == [a[0]] + a[1..][..k] && b[..k + 1] == [b[0]] + b[1..][..k];
      }
      if k :| 0 <= k <= |a| && k < |b| && a[..k] == b[..k] && (k == |a| || a[k] < b[k]) {
        assert a[1..][..k - 1] == a[..k][1..] && b[1..][..k - 1] == b[..k][1..];
      }
    } else if a == "" && b != "" {
      assert a[..0] == b[..0];
    } else if a != "" && b != "" && a[0] < b[0] {
      assert a[..0] == b[..0];
    }
  }

  /** Each member the trim keeps has a higher score than each it drops, or the same and the later name. */
  lemma KeptAboveDropped(z: Scores, n: nat, x: string, y: string)
    requires x in Best(z, n) && y in z && y !in Best(z, n)
    ensures z[y] < z[x] || (z[y] == z[x] && LexLess(y, x))
  {
    LexTotal(x, y);
    if y in Above(z, x) {
      AboveTransitive(z, x, y);
    }
  }

  /** Step i is the last one that adds the id under the latest key. */
  predicate LastAdds(ttl: int, steps: seq<Step>, latest: string, id: Uuid, i: nat) {
    && i < |steps| && Adds(ttl, steps[i], latest, id)
    && forall j | i < j < |steps| :: !Adds(ttl, steps[j], latest, id)
  }

  predicate Adds(ttl: int, s: Step, latest: string, id: Uuid) {
    s.op.PutOp? && Concerns(ttl, s, id)
    && "acumius:working:" + s.op.memory.namespace + ":" + s.op.memory.agentDid + ":latest" == latest
  }

  lemma AddsMeans(ttl: int, s: Step, latest: string, id: Uuid)
    ensures Adds(ttl, s, latest, id) <==> AddsTo(ttl, s, latest) && s.op.memory.id == id
  {
    if s.op.PutOp? {
      AcceptsMeans(ttl, s.op.memory, s.at);
    }
  }

  /** What was ever added: the ids some step adds, each with the second its last such step gives. */
  lemma {:induction false} AddedOutcome(ttl: int, steps: seq<Step>, latest: string, id: Uuid)
    ensures id in Added(ttl, steps, latest) <==> exists i: nat :: LastAdds(ttl, steps, latest, id, i)
    ensures forall i: nat | LastAdds(ttl, steps, latest, id, i) ::
              && id in Added(ttl, steps, latest)
              && var second := Added(ttl, steps, latest)[id];
                 second * 1_000_000_000 <= steps[i].op.memory.createdAt < (second + 1) * 1_000_000_000
  {
    if steps != [] {
      var front, n := steps[..|steps| - 1], |steps| - 1;
      AddedOutcome(ttl, front, latest, id);
      AddsMeans(ttl, steps[n], latest, id);
      if Adds(ttl, steps[n], latest, id) {
        assert LastAdds(ttl, steps, latest, id, n);
      } else {
        forall i: nat | LastAdds(ttl, front, latest, id, i) ensures LastAdds(ttl, steps, latest, id, i) {
        }
      }
      forall i: nat | LastAdds(ttl, steps, latest, id, i) && i < n ensures LastAdds(ttl, front, latest, id, i) {
      }
    }
  }

  /**
   * The latest set of every run in which no id comes back with an earlier creation second: of all
   * ids ever added at most 1000, each of them above each that was dropped.
   */
  lemma LatestOutcome(ttl: int, steps: seq<Step>, now: Time, namespace: string, did: string, x: string, y: string)
    requires ClockOrder(steps, now) && CreationNotLowered(ttl, steps, LatestKey(namespace, did))
    ensures var added := Added(ttl, steps, LatestKey(namespace, did));
            var kept := Members(Run(ttl, steps), LatestKey(namespace, did));
            && |kept| == (if |added| < 1000 then |added| else 1000)
            && (x in kept ==> x in added && kept[x] == added[x])
            && (x in kept && y in added && y !in kept ==>
                  added[y] < added[x] || (added[y] == added[x] && LexLess(y, x)))
  {
    var added := Added(ttl, steps, LatestKey(namespace, did));
    LatestIsBestOfAll(ttl, steps, now, namespace, did);
    BestSize(added, LATEST_SIZE);
    if x in Best(added, LATEST_SIZE) && y in added && y !in Best(added, LATEST_SIZE) {
      KeptAboveDropped(added, LATEST_SIZE, x, y);
    }
  }

  // ------------------------------------------------------------------ searches

  lemma ContainsMeans(s: string, part: string)
    ensures Contains(s, part) <==> exists a, b :: s == a + part + b
  {
    if Contains(s, part) {
      var i :| 0 <= i <= |s| && OccursAt(s, part, i);
      assert s == s[..i] + part + s[i + |part|..];
    }
    if a, b :| s == a + part + b {
      assert OccursAt(s, part, |a|);
    }
  }

  /** What a scanned key contributes: its live record, if the text occurs in it and the namespace is asked for. */
  lemma MatchOutcome(keys: Keys, q: Query, now: Time, key: string, m: Memory)
    ensures MatchOf(keys, q, now, key) == [m] <==>
              && !(exists a, b :: key == a + ":index:" + b) && !(exists a :: key == a + ":latest")
              && key in keys && keys[key].Text? && keys[key].value == Record(m) && now < keys[key].expiresAt
              && (exists a, b :: m.content == a + q.text + b)
              && (|q.namespaces| == 0 || m.namespace in q.namespaces)
  {
    ContainsMeans(key, ":index:");
    SuffixMeans(key, ":latest");
    if key in keys && keys[key].Text? && keys[key].value.Record? {
      ContainsMeans(keys[key].value.memory.content, q.text);
    }
  }

  lemma SuffixMeans(s: string, part: string)
    ensures HasSuffix(s, part) <==> exists a :: s == a + part
  {
    if HasSuffix(s, part) {
      assert s == s[..|s| - |part|] + part;
    }
  }

  /** Every record matches the pattern a search in its namespace scans for. */
  lemma RecordMatchesPattern(namespace: string, did: string, id: Uuid)
    ensures exists b, c :: RecordKey(namespace, did, id) == "acumius:working:" + namespace + ":" + b + ":" + c
  {
    assert RecordKey(namespace, did, id) == "acumius:working:" + namespace + ":" + did + ":" + id;
  }

  /** The keys of the index and of the latest sets, which every search skips. */
  lemma BookkeepingIsSkipped(namespace: string, did: string, id: Uuid)
    ensures IndexKey(id) == "acumius:working:index:" + id && Skipped(IndexKey(id))
    ensures LatestKey(namespace, did) == "acumius:working:" + namespace + ":" + did + ":latest"
    ensures Skipped(LatestKey(namespace, did))
  {
    assert IndexKey(id) == "acumius:working" + ":index:" + id;
    ContainsMeans(IndexKey(id), ":index:");
  }

  /** Matches come in the order of the scan, each key contributing once for each time it is scanned. */
  lemma ScanOrder(keys: Keys, q: Query, now: Time, a: seq<string>, key: string, b: seq<string>)
    ensures Matches(keys, q, now, []) == []
    ensures Matches(keys, q, now, a + [key] + b)
         == Matches(keys, q, now, a) + MatchOf(keys, q, now, key) + Matches(keys, q, now, b)
  {
    MatchesConcat(keys, q, now, a + [key], b);
    MatchesConcat(keys, q, now, a, [key]);
    assert [key][..0] == [];
  }

  /** Pages are scanned one after the other. */
  lemma PagesInOrder(a: seq<seq<string>>, page: seq<string>, b: seq<seq<string>>)
    ensures Concat(a + [page] + b) == Concat(a) + page + Concat(b)
  {
    ConcatSplit(a + [page] + b, |a| + 1);
    assert (a + [page] + b)[..|a| + 1] == a + [page] && (a + [page] + b)[|a| + 1..] == b;
    assert (a + [page])[..|a|] == a;
  }

  /** An answer is the first `limit` matches; without a positive limit, at most the first match of one page. */
  lemma AnswerOutcome(keys: Keys, q: Query, limit: int, now: Time, pages: seq<seq<string>>)
    requires pages != []
    ensures var answer := Answer(keys, q, limit, now, pages);
            var matches := Matches(keys, q, now, if limit >= 1 then Concat(pages) else pages[0]);
            var room := if limit >= 1 then limit else 1;
            answer == matches[..|answer|] && |answer| == (if |matches| < room then |matches| else room)
  {
  }
}
