/** The searcher's own steps: fuse, sort, filter and cut out a page. */
module HybridSearch {
  import opened Prelude
  import opened MemoryTypes
  import opened RankFusion

  // ------------------------------------------------------------------ fusion

  /** The map holds the rank of every listed id and of no other. */
  ghost predicate IsRankMap(list: seq<ScoredMemory>, ranks: map<Uuid, nat>) {
    forall id :: (id in ranks <==> Rank(list, id) > 0) && (id in ranks ==> ranks[id] == Rank(list, id))
  }

  method RanksOf(list: seq<ScoredMemory>) returns (ranks: map<Uuid, nat>)
    ensures IsRankMap(list, ranks)
  {
    ranks := map[];
    for i := 0 to |list|
      invariant IsRankMap(list[..i], ranks)
    {
      assert list[..i + 1][..i] == list[..i];
      ranks := ranks[list[i].memory.id := i + 1];
    }
    assert list[..|list|] == list;
  }

  method FindFirst(list: seq<ScoredMemory>, id: Uuid) returns (m: Option<Memory>)
    ensures m == Find(list, id)
  {
    m := None;
    for i := 0 to |list|
      invariant Find(list, id) == Find(list[i..], id)
    {
      if list[i].memory.id == id {
        return Some(list[i].memory);
      }
      assert list[i..][1..] == list[i + 1..];
    }
  }

  /** Inserts an entry behind all entries of at least its score. */
  method InsertByScore(sorted: seq<ScoredMemory>, x: ScoredMemory) returns (more: seq<ScoredMemory>)
    requires SortedByScore(sorted)
    ensures SortedByScore(more) && multiset(more) == multiset(sorted) + multiset{x}
  {
    var p := 0;
    while p < |sorted| && sorted[p].rrfScore >= x.rrfScore
      invariant 0 <= p <= |sorted|
      invariant forall j | 0 <= j < p :: sorted[j].rrfScore >= x.rrfScore
    {
      p := p + 1;
    }
    assert sorted == sorted[..p] + sorted[p..];
    InsertKeepsOrder(sorted[..p], x, sorted[p..]);
    more := sorted[..p] + [x] + sorted[p..];
  }

  /** `sort.Slice` by descending score: some permutation of the entries in score order. */
  method SortByScore(list: seq<ScoredMemory>) returns (sorted: seq<ScoredMemory>)
    ensures SortedByScore(sorted) && multiset(sorted) == multiset(list)
  {
    sorted := [];
    for i := 0 to |list|
      invariant SortedByScore(sorted) && multiset(sorted) == multiset(list[..i])
    {
      assert list[..i + 1] == list[..i] + [list[i]];
      sorted := InsertByScore(sorted, list[i]);
    }
    assert list[..|list|] == list;
  }

  lemma CountAtMostOnce(a: seq<ScoredMemory>, p: nat)
    requires DistinctIds(a) && p < |a|
    ensures multiset(a)[a[p]] == 1
  {
    assert a == a[..p] + [a[p]] + a[p + 1..];
    assert a[p] !in a[..p] && a[p] !in a[p + 1..];
  }

  lemma CountAtLeastTwice(b: seq<ScoredMemory>, i: nat, j: nat)
    requires i < j < |b| && b[i] == b[j]
    ensures multiset(b)[b[i]] >= 2
  {
    assert b == b[..j] + b[j..];
    assert b[..j][i] == b[i] && b[j..][0] == b[i];
    assert b[i] in multiset(b[..j]) && b[i] in multiset(b[j..]);
  }

  lemma PermutedIds(a: seq<ScoredMemory>, b: seq<ScoredMemory>)
    requires multiset(a) == multiset(b) && DistinctIds(a)
    ensures Ids(a) == Ids(b) && DistinctIds(b)
    ensures forall x :: x in a <==> x in b
  {
    assert forall x :: (x in a <==> x in multiset(a)) && (x in b <==> x in multiset(b));
    forall i, j | 0 <= i < j < |b|
      ensures b[i].memory.id != b[j].memory.id
    {
      assert b[i] in a && b[j] in a;
      var p :| 0 <= p < |a| && a[p] == b[i];
      var q :| 0 <= q < |a| && a[q] == b[j];
      if p == q {
        CountAtMostOnce(a, p);
        CountAtLeastTwice(b, i, j);
      }
    }
    assert forall i | 0 <= i < |a| :: a[i] in b;
    assert forall i | 0 <= i < |b| :: b[i] in a;
  }

  /** The unsorted result: one entry for each id already visited. */
  ghost predicate MergedSoFar(semantic: seq<ScoredMemory>, keyword: seq<ScoredMemory>,
                              visited: set<Uuid>, merged: seq<ScoredMemory>)
  {
    && visited <= Ids(semantic) + Ids(keyword)
    && Ids(merged) == visited
    && DistinctIds(merged)
    && CarriesFusedScores(semantic, keyword, merged)
  }

  lemma MergeOne(semantic: seq<ScoredMemory>, keyword: seq<ScoredMemory>,
                 visited: set<Uuid>, merged: seq<ScoredMemory>, id: Uuid, entry: ScoredMemory)
    requires MergedSoFar(semantic, keyword, visited, merged)
    requires id in Ids(semantic) + Ids(keyword) && id !in visited
    requires entry == FusedEntry(semantic, keyword, id)
    ensures MergedSoFar(semantic, keyword, visited + {id}, merged + [entry])
  {
    var more := merged + [entry];
    assert forall i | 0 <= i < |merged| :: merged[i].memory.id in Ids(merged);
    assert more[|merged|].memory.id == id;
    assert forall i | 0 <= i < |merged| :: more[i] == merged[i];
    assert Ids(more) == visited + {id};
  }

  lemma SortedMergeIsFusion(semantic: seq<ScoredMemory>, keyword: seq<ScoredMemory>,
                            merged: seq<ScoredMemory>, sorted: seq<ScoredMemory>)
    requires MergedSoFar(semantic, keyword, Ids(semantic) + Ids(keyword), merged)
    requires SortedByScore(sorted) && multiset(sorted) == multiset(merged)
    ensures IsFusion(semantic, keyword, sorted)
  {
    PermutedIds(merged, sorted);
    assert forall i | 0 <= i < |sorted| :: sorted[i] in merged;
  }

  /** The merged entry of one id: its summed contributions and its first copy. */
  method FuseOne(semantic: seq<ScoredMemory>, keyword: seq<ScoredMemory>,
                 semanticRanks: map<Uuid, nat>, keywordRanks: map<Uuid, nat>, id: Uuid)
    returns (entry: ScoredMemory)
    requires IsRankMap(semantic, semanticRanks) && IsRankMap(keyword, keywordRanks)
    requires id in Ids(semantic) + Ids(keyword)
    ensures entry == FusedEntry(semantic, keyword, id)
  {
    var score := 0.0;
    if id in semanticRanks {
      score := score + 1.0 / (K + semanticRanks[id] as real);
    }
    if id in keywordRanks {
      score := score + 1.0 / (K + keywordRanks[id] as real);
    }
    assert score == Score(semantic, keyword, id);
    FindListed(semantic, id);
    FindListed(keyword, id);
    var mem := FindFirst(semantic, id);
    if mem.None? || mem.value.id == NIL_UUID {
      var other := FindFirst(keyword, id);
      if other.Some? {
        mem := other;
      }
    }
    entry := ScoredMemory(mem.value, 0.0, 0.0, score);
  }

  /** The ids are visited in an arbitrary order, as Go's map iteration does. */
  method ReciprocalRankFusion(semantic: seq<ScoredMemory>, keyword: seq<ScoredMemory>)
    returns (fused: seq<ScoredMemory>)
    ensures IsFusion(semantic, keyword, fused)
  {
    var semanticRanks := RanksOf(semantic);
    var keywordRanks := RanksOf(keyword);
    var remaining := Ids(semantic) + Ids(keyword);
    var merged: seq<ScoredMemory> := [];
    ghost var visited: set<Uuid> := {};
    while remaining != {}
      invariant visited + remaining == Ids(semantic) + Ids(keyword) && visited !! remaining
      invariant MergedSoFar(semantic, keyword, visited, merged)
      decreases remaining
    {
      var id :| id in remaining;
      remaining := remaining - {id};
      var entry := FuseOne(semantic, keyword, semanticRanks, keywordRanks, id);
      MergeOne(semantic, keyword, visited, merged, id, entry);
      merged := merged + [entry];
      visited := visited + {id};
    }
    fused := SortByScore(merged);
    SortedMergeIsFusion(semantic, keyword, merged, fused);
  }

  // ------------------------------------------------------------------ filters

  datatype FilterSet = FilterSet(
    tags: seq<string>,
    confidenceMin: real,
    confidenceMax: real,
    createdAfter: Option<Time>,
    createdBefore: Option<Time>,
    hasAttestation: bool)

  predicate SharesTag(wanted: seq<string>, tags: seq<string>) {
    exists i | 0 <= i < |wanted| :: wanted[i] in tags
  }

  /** A filter that is not set lets everything pass. */
  predicate Passes(m: Memory, f: FilterSet) {
    && (f.tags != [] ==> SharesTag(f.tags, m.metadata.tags))
    && (f.confidenceMin > 0.0 ==> m.metadata.confidence >= f.confidenceMin)
    && (f.confidenceMax > 0.0 ==> m.metadata.confidence <= f.confidenceMax)
    && (f.createdAfter.Some? ==> m.createdAt >= f.createdAfter.value)
    && (f.createdBefore.Some? ==> m.createdAt <= f.createdBefore.value)
    && (f.hasAttestation ==> m.metadata.attestations != [])
  }

  /** The positions of the passing entries, in order. */
  function PassingPositions(list: seq<ScoredMemory>, f: FilterSet): (positions: seq<nat>)
    ensures forall k | 0 <= k < |positions| :: positions[k] < |list| && Passes(list[positions[k]].memory, f)
    ensures forall k, l | 0 <= k < l < |positions| :: positions[k] < positions[l]
    ensures forall i | 0 <= i < |list| && Passes(list[i].memory, f) :: i in positions
  {
    if list == [] then []
    else
      var last := |list| - 1;
      PassingPositions(list[..last], f) + if Passes(list[last].memory, f) then [last] else []
  }

  /** The order-preserving subsequence of the passing entries. */
  function Filtered(list: seq<ScoredMemory>, f: FilterSet): (out: seq<ScoredMemory>)
    ensures |out| <= |list|
  {
    if list == [] then []
    else
      var last := |list| - 1;
      Filtered(list[..last], f) + if Passes(list[last].memory, f) then [list[last]] else []
  }

  /** The filtered list picks exactly the passing positions, each once, left to right. */
  lemma {:induction false} FilteredPicksPassing(list: seq<ScoredMemory>, f: FilterSet)
    ensures var positions := PassingPositions(list, f);
            && |Filtered(list, f)| == |positions|
            && forall k | 0 <= k < |positions| :: Filtered(list, f)[k] == list[positions[k]]
  {
    if list != [] {
      FilteredPicksPassing(list[..|list| - 1], f);
    }
  }

  lemma FilteredMembers(list: seq<ScoredMemory>, f: FilterSet, x: ScoredMemory)
    ensures x in Filtered(list, f) <==> x in list && Passes(x.memory, f)
  {
    FilteredPicksPassing(list, f);
    var positions := PassingPositions(list, f);
    if x in list && Passes(x.memory, f) {
      var i :| 0 <= i < |list| && list[i] == x;
      var k :| 0 <= k < |positions| && positions[k] == i;
      assert Filtered(list, f)[k] == x;
    }
  }

  method ApplyFilters(list: seq<ScoredMemory>, f: FilterSet) returns (filtered: seq<ScoredMemory>)
    ensures filtered == Filtered(list, f)
  {
    filtered := [];
    for i := 0 to |list|
      invariant filtered == Filtered(list[..i], f)
    {
      assert list[..i + 1][..i] == list[..i];
      var m := list[i].memory;
      if |f.tags| > 0 {
        var hasTag := false;
        for j := 0 to |f.tags|
          invariant hasTag <==> exists k | 0 <= k < j :: f.tags[k] in m.metadata.tags
        {
          if f.tags[j] in m.metadata.tags {
            hasTag := true;
            break;
          }
        }
        if !hasTag { continue; }
      }
      if f.confidenceMin > 0.0 && m.metadata.confidence < f.confidenceMin { continue; }
      if f.confidenceMax > 0.0 && m.metadata.confidence > f.confidenceMax { continue; }
      if f.createdAfter.Some? && m.createdAt < f.createdAfter.value { continue; }
      if f.createdBefore.Some? && m.createdAt > f.createdBefore.value { continue; }
      if f.hasAttestation && |m.metadata.attestations| == 0 { continue; }
      filtered := filtered + [list[i]];
    }
    assert list[..|list|] == list;
  }

  // ------------------------------------------------------------------ paging

  function PageStart(total: nat, offset: int): int {
    if offset > total then total else offset
  }

  function PageEnd(total: nat, offset: int, limit: int): int {
    if offset + limit < total then offset + limit else total
  }

  /**
   * The database refuses a negative LIMIT before anything is sliced; for every other limit the
   * slice is in bounds exactly when the offset is not negative.
   */
  lemma PageBoundsValid(total: nat, offset: int, limit: nat)
    ensures 0 <= PageStart(total, offset) <= PageEnd(total, offset, limit) <= total <==> offset >= 0
  {
  }

  function Page<T>(list: seq<T>, offset: nat, limit: nat): (page: seq<T>)
    ensures |page| <= limit
  {
    list[PageStart(|list|, offset)..PageEnd(|list|, offset, limit)]
  }

  /** The pages at `offset`, `offset + limit`, .. one after the other. */
  function PagesFrom<T>(list: seq<T>, offset: nat, limit: nat): seq<T>
    requires limit >= 1
    decreases |list| - offset
  {
    if offset >= |list| then [] else Page(list, offset, limit) + PagesFrom(list, offset + limit, limit)
  }

  lemma {:induction false} PagesCoverTail<T>(list: seq<T>, offset: nat, limit: nat)
    requires limit >= 1 && offset <= |list|
    ensures PagesFrom(list, offset, limit) == list[offset..]
    decreases |list| - offset
  {
    if offset + limit < |list| {
      PagesCoverTail(list, offset + limit, limit);
      assert list[offset..] == list[offset..offset + limit] + list[offset + limit..];
    } else if offset < |list| {
      assert PagesFrom(list, offset + limit, limit) == [];
    }
  }

  /** The pages of one list, one after the other, are that list. */
  lemma PagesTile<T>(list: seq<T>, limit: nat)
    requires limit >= 1
    ensures PagesFrom(list, 0, limit) == list
  {
    PagesCoverTail(list, 0, limit);
  }

  function Memories(list: seq<ScoredMemory>): (out: seq<Memory>)
    ensures |out| == |list| && forall i | 0 <= i < |list| :: out[i] == list[i].memory
  {
    seq(|list|, i requires 0 <= i < |list| => list[i].memory)
  }

  lemma FusionSize(semantic: seq<ScoredMemory>, keyword: seq<ScoredMemory>, fused: seq<ScoredMemory>)
    requires IsFusion(semantic, keyword, fused)
    ensures |fused| <= |semantic| + |keyword|
  {
    CountDistinct(fused, |fused|);
    CountDistinct(semantic, |semantic|);
    CountDistinct(keyword, |keyword|);
    assert fused[..|fused|] == fused && semantic[..|semantic|] == semantic && keyword[..|keyword|] == keyword;
  }

  /** What one execution of the search pages through: the entries of a fusion that pass the filter. */
  ghost predicate IsListed(semantic: seq<ScoredMemory>, keyword: seq<ScoredMemory>, f: FilterSet,
                           list: seq<ScoredMemory>)
  {
    exists fused :: IsFusion(semantic, keyword, fused) && list == Filtered(fused, f)
  }

  /** A page of such a list, and the size of the whole list. */
  ghost predicate IsSearchResult(semantic: seq<ScoredMemory>, keyword: seq<ScoredMemory>, f: FilterSet,
                                 offset: nat, limit: nat, results: seq<Memory>, total: nat)
  {
    exists list ::
      && IsListed(semantic, keyword, f, list)
      && results == Memories(Page(list, offset, limit))
      && total == |list|
  }

  method CopyMemories(list: seq<ScoredMemory>) returns (out: seq<Memory>)
    ensures out == Memories(list)
  {
    out := [];
    for i := 0 to |list|
      invariant |out| == i && forall j | 0 <= j < i :: out[j] == list[j].memory
    {
      out := out + [list[i].memory];
    }
  }

  /** A negative limit is an error of the database, a negative offset a slice out of bounds. */
  datatype SearchOutcome = Found(results: seq<Memory>, total: nat) | LimitRefused | OutOfBounds

  /**
   * The search over the two ranked lists the database returned, each capped at three times the
   * limit: for every limit and offset a page with its total, a refusal, or a panic.
   */
  method Search(semantic: seq<ScoredMemory>, keyword: seq<ScoredMemory>, f: FilterSet, offset: int, limit: int)
    returns (outcome: SearchOutcome)
    requires limit >= 0 ==> |semantic| <= 3 * limit && |keyword| <= 3 * limit
    ensures outcome.LimitRefused? <==> limit < 0
    ensures outcome.OutOfBounds? <==> limit >= 0 && offset < 0
    ensures outcome.Found? ==>
              && IsSearchResult(semantic, keyword, f, offset, limit, outcome.results, outcome.total)
              && outcome.total <= 6 * limit
  {
    if limit < 0 { return LimitRefused; }
    var merged := ReciprocalRankFusion(semantic, keyword);
    var filtered := ApplyFilters(merged, f);
    FusionSize(semantic, keyword, merged);
    assert IsListed(semantic, keyword, f, filtered);
    var total := |filtered|;
    var start := offset;
    var end := if start + limit < total then start + limit else total;
    if start > total {
      start := total;
    }
    if start < 0 { return OutOfBounds; }
    var results := CopyMemories(filtered[start..end]);
    return Found(results, total);
  }
}
