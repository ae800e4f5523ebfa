/** The scanning search over working memory: pages of keys, filters, and two early exits. */
module WorkingSearch {
  import opened Prelude
  import opened MemoryTypes
  import opened WorkingKeys
  import opened WorkingStore

  predicate OccursAt(s: string, part: string, i: nat) {
    i + |part| <= |s| && s[i..i + |part|] == part
  }

  predicate Contains(s: string, part: string) {
    exists i | 0 <= i <= |s| :: OccursAt(s, part, i)
  }

  predicate HasSuffix(s: string, part: string) {
    |part| <= |s| && s[|s| - |part|..] == part
  }

  /** Keys the search takes for bookkeeping. */
  predicate Skipped(key: string) {
    Contains(key, ":index:") || HasSuffix(key, ":latest")
  }

  datatype Query = Query(text: string, namespaces: seq<string>)

  predicate Fits(q: Query, m: Memory) {
    Contains(m.content, q.text) && (q.namespaces == [] || m.namespace in q.namespaces)
  }

  /** The memory a scanned key contributes to the answer, if any. */
  function MatchOf(keys: Keys, q: Query, now: Time, key: string): seq<Memory> {
    if Skipped(key) || !Live(keys, key, now) || !keys[key].Text? || !keys[key].value.Record? then []
    else
      var m := keys[key].value.memory;
      if Fits(q, m) then [m] else []
  }

  /** What the scanned keys contribute, in scan order. */
  function Collect(contribution: string -> seq<Memory>, scanned: seq<string>): seq<Memory> {
    if scanned == [] then []
    else Collect(contribution, scanned[..|scanned| - 1]) + contribution(scanned[|scanned| - 1])
  }

  function Matches(keys: Keys, q: Query, now: Time, scanned: seq<string>): seq<Memory> {
    Collect(key => MatchOf(keys, q, now, key), scanned)
  }

  function Concat(pages: seq<seq<string>>): seq<string> {
    if pages == [] then [] else Concat(pages[..|pages| - 1]) + pages[|pages| - 1]
  }

  function Take<T>(s: seq<T>, n: nat): seq<T> {
    if n < |s| then s[..n] else s
  }

  lemma Associative<T>(a: seq<T>, b: seq<T>, c: seq<T>)
    ensures (a + b) + c == a + (b + c)
  {
  }

  lemma {:induction false} CollectConcat(contribution: string -> seq<Memory>, a: seq<string>, b: seq<string>)
    ensures Collect(contribution, a + b) == Collect(contribution, a) + Collect(contribution, b)
  {
    if b == [] {
      assert a + b == a && Collect(contribution, b) == [];
    } else {
      var front, last := b[..|b| - 1], contribution(b[|b| - 1]);
      CollectConcat(contribution, a, front);
      assert (a + b)[..|a + b| - 1] == a + front && (a + b)[|a + b| - 1] == b[|b| - 1];
      Associative(Collect(contribution, a), Collect(contribution, front), last);
    }
  }

  lemma MatchesConcat(keys: Keys, q: Query, now: Time, a: seq<string>, b: seq<string>)
    ensures Matches(keys, q, now, a + b) == Matches(keys, q, now, a) + Matches(keys, q, now, b)
  {
    CollectConcat(key => MatchOf(keys, q, now, key), a, b);
  }

  /** Looks one key up and filters what it finds. */
  method CheckKey(keys: Keys, q: Query, now: Time, key: string) returns (found: seq<Memory>)
    ensures found == MatchOf(keys, q, now, key)
  {
    if Contains(key, ":index:") || HasSuffix(key, ":latest") { return []; }
    if !Live(keys, key, now) || !keys[key].Text? { return []; }
    if !keys[key].value.Record? { return []; }
    var m := keys[key].value.memory;
    if !Contains(m.content, q.text) { return []; }
    if |q.namespaces| > 0 && m.namespace !in q.namespaces { return []; }
    return [m];
  }

  /** The number of results at which the search stops. */
  function Room(limit: int): nat {
    if limit >= 1 then limit else 1
  }

  lemma TakeAll<T>(a: seq<T>, b: seq<T>, n: nat)
    requires |a| == n
    ensures Take(a + b, n) == a
  {
  }

  /** One page: results grow until the page or the room for results ends. */
  method ScanPage(keys: Keys, q: Query, limit: int, now: Time, page: seq<string>, found: seq<Memory>)
    returns (results: seq<Memory>)
    requires |found| < Room(limit)
    ensures results == Take(found + Matches(keys, q, now, page), Room(limit))
  {
    results := found;
    for i := 0 to |page|
      invariant results == found + Matches(keys, q, now, page[..i])
      invariant |results| < Room(limit)
    {
      var more := CheckKey(keys, q, now, page[i]);
      MatchesSplit(keys, q, now, page, i);
      results := results + more;
      if more != [] && |results| >= limit {
        TakeAll(results, Matches(keys, q, now, page[i + 1..]), Room(limit));
        return;
      }
    }
    assert page[..|page|] == page;
  }

  lemma MatchesSplit(keys: Keys, q: Query, now: Time, page: seq<string>, i: nat)
    requires i < |page|
    ensures Matches(keys, q, now, page[..i + 1]) == Matches(keys, q, now, page[..i]) + MatchOf(keys, q, now, page[i])
    ensures Matches(keys, q, now, page) == Matches(keys, q, now, page[..i + 1]) + Matches(keys, q, now, page[i + 1..])
  {
    assert page[..i + 1][..i] == page[..i];
    assert page == page[..i + 1] + page[i + 1..];
    MatchesConcat(keys, q, now, page[..i + 1], page[i + 1..]);
  }

  /** What a search returns: the first `limit` matches of everything scanned. */
  function Answer(keys: Keys, q: Query, limit: int, now: Time, pages: seq<seq<string>>): seq<Memory>
    requires pages != []
  {
    if limit >= 1 then Take(Matches(keys, q, now, Concat(pages)), limit)
    else Take(Matches(keys, q, now, pages[0]), 1)
  }

  /** Stopping after n pages is right once the room is used up, or the pages are, or one page was enough. */
  lemma StopAfter(keys: Keys, q: Query, limit: int, now: Time, pages: seq<seq<string>>, n: nat, results: seq<Memory>)
    requires 0 < n <= |pages|
    requires results == Take(Matches(keys, q, now, Concat(pages[..n])), Room(limit))
    requires n == |pages| || |results| >= limit
    requires limit <= 0 ==> n == 1
    ensures results == Answer(keys, q, limit, now, pages)
  {
    if limit <= 0 {
      assert pages[..1][..0] == [];
      assert Concat(pages[..1]) == pages[0];
    } else {
      ConcatSplit(pages, n);
      MatchesConcat(keys, q, now, Concat(pages[..n]), Concat(pages[n..]));
      if n == |pages| {
        assert pages[..n] == pages;
      }
    }
  }

  /**
   * `pages` are the key lists the server's cursor walks through, the last one with cursor 0.
   * Results stop at the limit; a limit that is not positive reads one page and returns at most one.
   */
  method Search(keys: Keys, q: Query, limit: int, now: Time, pages: seq<seq<string>>)
    returns (results: seq<Memory>)
    requires pages != []
    ensures results == Answer(keys, q, limit, now, pages)
  {
    results := [];
    var cursor := 0;
    while true
      invariant 0 <= cursor < |pages| && (limit <= 0 ==> cursor == 0)
      invariant results == Matches(keys, q, now, Concat(pages[..cursor]))
      invariant |results| < Room(limit)
      decreases |pages| - cursor
    {
      results := ScanPage(keys, q, limit, now, pages[cursor], results);
      cursor := cursor + 1;
      ConcatStep(keys, q, now, pages, cursor);
      if cursor == |pages| || |results| >= limit {
        StopAfter(keys, q, limit, now, pages, cursor, results);
        return;
      }
    }
  }

  lemma ConcatStep(keys: Keys, q: Query, now: Time, pages: seq<seq<string>>, n: nat)
    requires 0 < n <= |pages|
    ensures Matches(keys, q, now, Concat(pages[..n]))
         == Matches(keys, q, now, Concat(pages[..n - 1])) + Matches(keys, q, now, pages[n - 1])
  {
    assert pages[..n][..n - 1] == pages[..n - 1];
    MatchesConcat(keys, q, now, Concat(pages[..n - 1]), pages[n - 1]);
  }

  lemma {:induction false} ConcatSplit(pages: seq<seq<string>>, n: nat)
    requires n <= |pages|
    ensures Concat(pages) == Concat(pages[..n]) + Concat(pages[n..])
  {
    if n == |pages| {
      assert pages[..n] == pages;
    } else {
      var front := pages[..|pages| - 1];
      ConcatSplit(front, n);
      assert front[..n] == pages[..n];
      assert pages[n..][..|pages[n..]| - 1] == front[n..];
    }
  }

  /** A memory is among the matches exactly when some scanned key contributes it. */
  lemma {:induction false} MatchesAreListed(keys: Keys, q: Query, now: Time, scanned: seq<string>, m: Memory)
    ensures m in Matches(keys, q, now, scanned) <==> exists key <- scanned :: MatchOf(keys, q, now, key) == [m]
  {
    if scanned != [] {
      var front, last := scanned[..|scanned| - 1], scanned[|scanned| - 1];
      MatchesAreListed(keys, q, now, front, m);
      assert scanned == front + [last];
      assert |MatchOf(keys, q, now, last)| <= 1;
    }
  }

  /** An answer shorter than the limit has missed no scanned match. */
  lemma ShortAnswerIsComplete(keys: Keys, q: Query, limit: int, now: Time, pages: seq<seq<string>>,
                              key: string, m: Memory)
    requires pages != [] && limit >= 1
    requires key in Concat(pages) && MatchOf(keys, q, now, key) == [m]
    ensures |Answer(keys, q, limit, now, pages)| < limit ==> m in Answer(keys, q, limit, now, pages)
  {
    MatchesAreListed(keys, q, now, Concat(pages), m);
  }

  // ------------------------------------------------------------------ records the search cannot see

  /** Where a record key has colons: at place 7 of the prefix and around the two names. */
  lemma ColonsOfRecord(namespace: string, did: string, id: Uuid, j: nat)
    requires j < |RecordKey(namespace, did, id)| && RecordKey(namespace, did, id)[j] == ':'
    ensures j == 7 || 15 <= j < 17 + |namespace| + 1 + |did|
    ensures RecordKey(namespace, did, id)[8] == 'w'
  {
  }

  lemma IndexMarkInRecord(namespace: string, did: string, id: Uuid, i: nat)
    requires OccursAt(RecordKey(namespace, did, id), ":index:", i)
    ensures var name := ":" + namespace + ":" + did + ":";
            i >= 15 && OccursAt(name, ":index:", i - 15)
  {
    var name := ":" + namespace + ":" + did + ":";
    var key := RecordKey(namespace, did, id);
    assert key == "acumius:working" + name + id;
    var part := key[i..i + 7];
    assert part[0] == key[i] && part[1] == key[i + 1] && part[6] == key[i + 6];
    ColonsOfRecord(namespace, did, id, i);
    ColonsOfRecord(namespace, did, id, i + 6);
    assert name[i - 15..i - 8] == part;
  }

  lemma RecordIsNotLatest(namespace: string, did: string, id: Uuid)
    ensures !HasSuffix(RecordKey(namespace, did, id), ":latest")
  {
    var key := RecordKey(namespace, did, id);
    KeysEndInId(namespace, did, id);
    assert key[|key| - 7..][0] == key[|key| - 36..][29];
    assert id[29] in id;
  }

  lemma IndexMarkCarriesOver(namespace: string, did: string, id: Uuid, i: nat)
    requires OccursAt(":" + namespace + ":" + did + ":", ":index:", i)
    ensures OccursAt(RecordKey(namespace, did, id), ":index:", i + 15)
  {
  }

  /**
   * A stored record is taken for bookkeeping, and so never found by any search, exactly when its
   * namespace and DID spell ":index:" between the surrounding colons.
   */
  lemma RecordSkippedIff(namespace: string, did: string, id: Uuid)
    ensures Skipped(RecordKey(namespace, did, id)) <==> Contains(":" + namespace + ":" + did + ":", ":index:")
  {
    var name, key := ":" + namespace + ":" + did + ":", RecordKey(namespace, did, id);
    RecordIsNotLatest(namespace, did, id);
    if Contains(key, ":index:") {
      var i :| 0 <= i <= |key| && OccursAt(key, ":index:", i);
      IndexMarkInRecord(namespace, did, id, i);
    } else if Contains(name, ":index:") {
      var i :| 0 <= i <= |name| && OccursAt(name, ":index:", i);
      IndexMarkCarriesOver(namespace, did, id, i);
    }
  }

  /** Whatever the DID: a namespace called "index" hides all its memories from the search. */
  lemma IndexNamespaceIsSkipped(did: string, id: Uuid)
    ensures Skipped(RecordKey("index", did, id))
  {
    var name := ":" + "index" + ":" + did + ":";
    assert name[0..7] == ":index:";
    assert OccursAt(name, ":index:", 0);
    RecordSkippedIff("index", did, id);
  }

  /**
   * From store to search: after any run, a memory that its id currently holds is in every answer
   * shorter than the limit whose scan met its key, provided it fits the query and its names do
   * not spell the index mark.
   */
  lemma StoredIsFound(ttl: int, steps: seq<Step>, now: Time, id: Uuid, q: Query, limit: int, pages: seq<seq<string>>)
    requires ClockOrder(steps, now) && pages != [] && limit >= 1
    requires Get(Run(ttl, steps), id, now).Success?
    requires var m := Get(Run(ttl, steps), id, now).value;
             && RecordKey(m.namespace, m.agentDid, id) in Concat(pages)
             && Fits(q, m)
             && !Contains(":" + m.namespace + ":" + m.agentDid + ":", ":index:")
    ensures var answer := Answer(Run(ttl, steps), q, limit, now, pages);
            |answer| < limit ==> Get(Run(ttl, steps), id, now).value in answer
  {
    var keys, m := Run(ttl, steps), Get(Run(ttl, steps), id, now).value;
    RunShowsLeases(ttl, steps, now, id);
    GetShown(keys, id, LeaseOf(ttl, steps, id), now);
    RecordSkippedIff(m.namespace, m.agentDid, id);
    ShortAnswerIsComplete(keys, q, limit, now, pages, RecordKey(m.namespace, m.agentDid, id), m);
  }
}
