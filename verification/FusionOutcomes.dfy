/**
 * What the fused search comes to, said of positions in the two lists: the score of every result,
 * which of two results comes first, whose copy of a memory is returned, and what filters and
 * pages let through.
 */
module FusionOutcomes {
  import opened Prelude
  import opened RankFusion
  import opened HybridSearch

  // ------------------------------------------------------------------ scores by position

  /** The id is the list's entry number i, counted from 0. */
  predicate StandsAt(list: seq<ScoredMemory>, id: Uuid, i: nat) {
    i < |list| && list[i].memory.id == id
  }

  predicate NotIn(list: seq<ScoredMemory>, id: Uuid) {
    forall i | 0 <= i < |list| :: list[i].memory.id != id
  }

  lemma RankOfPosition(list: seq<ScoredMemory>, id: Uuid, i: nat)
    requires DistinctIds(list) && StandsAt(list, id, i)
    ensures Rank(list, id) == i + 1
  {
    RankFacts(list, id);
    assert id in Ids(list);
  }

  lemma RankOfAbsent(list: seq<ScoredMemory>, id: Uuid)
    requires NotIn(list, id)
    ensures Rank(list, id) == 0
  {
    RankFacts(list, id);
  }

  /** What one list gives an id: by its position, or nothing. */
  lemma ListContribution(list: seq<ScoredMemory>, id: Uuid, i: nat)
    requires DistinctIds(list)
    ensures StandsAt(list, id, i) ==> Contribution(Rank(list, id)) == 1.0 / (61 + i) as real
    ensures NotIn(list, id) ==> Contribution(Rank(list, id)) == 0.0
  {
    if StandsAt(list, id, i) { RankOfPosition(list, id, i); }
    if NotIn(list, id) { RankOfAbsent(list, id); }
  }

  lemma EntryScore(semantic: seq<ScoredMemory>, keyword: seq<ScoredMemory>, out: seq<ScoredMemory>, p: nat)
    requires IsFusion(semantic, keyword, out) && p < |out|
    ensures out[p].rrfScore == Contribution(Rank(semantic, out[p].memory.id)) + Contribution(Rank(keyword, out[p].memory.id))
  {
  }

  /**
   * Every result's score, from the positions of its id: 1 / (61 + i) for each list that has it at
   * position i.
   */
  lemma ScoreByPosition(semantic: seq<ScoredMemory>, keyword: seq<ScoredMemory>, out: seq<ScoredMemory>, p: nat,
                        i: nat, j: nat)
    requires DistinctIds(semantic) && DistinctIds(keyword) && IsFusion(semantic, keyword, out) && p < |out|
    ensures var id := out[p].memory.id;
            && (StandsAt(semantic, id, i) && StandsAt(keyword, id, j) ==>
                  out[p].rrfScore == 1.0 / (61 + i) as real + 1.0 / (61 + j) as real)
            && (StandsAt(semantic, id, i) && NotIn(keyword, id) ==> out[p].rrfScore == 1.0 / (61 + i) as real)
            && (NotIn(semantic, id) && StandsAt(keyword, id, j) ==> out[p].rrfScore == 1.0 / (61 + j) as real)
  {
    EntryScore(semantic, keyword, out, p);
    ListContribution(semantic, out[p].memory.id, i);
    ListContribution(keyword, out[p].memory.id, j);
  }

  lemma Reciprocals(i: nat, j: nat)
    requires i < j
    ensures 1.0 / (61 + i) as real > 1.0 / (61 + j) as real
  {
    var x, y := (61 + i) as real, (61 + j) as real;
    assert 1.0 / x - 1.0 / y == (y - x) / (x * y);
  }

  /** The hit of the one list alone is better placed there than the hit of the other list alone is in it. */
  lemma BetterPlacedFirst(semantic: seq<ScoredMemory>, keyword: seq<ScoredMemory>, out: seq<ScoredMemory>,
                          p: nat, q: nat, i: nat, j: nat)
    requires DistinctIds(semantic) && DistinctIds(keyword) && IsFusion(semantic, keyword, out)
    requires p < |out| && q < |out|
    requires StandsAt(semantic, out[p].memory.id, i) && NotIn(keyword, out[p].memory.id)
    requires StandsAt(keyword, out[q].memory.id, j) && NotIn(semantic, out[q].memory.id)
    ensures i < j ==> p < q
    ensures j < i ==> q < p
    ensures i == j <==> out[p].rrfScore == out[q].rrfScore
  {
    ScoreByPosition(semantic, keyword, out, p, i, j);
    ScoreByPosition(semantic, keyword, out, q, i, j);
    if i < j {
      Reciprocals(i, j);
    } else if j < i {
      Reciprocals(j, i);
    }
  }

  /** The output holds each id of either list once, by descending score. */
  lemma OutputShape(semantic: seq<ScoredMemory>, keyword: seq<ScoredMemory>, out: seq<ScoredMemory>, id: Uuid)
    requires IsFusion(semantic, keyword, out)
    ensures NotIn(out, id) <==> NotIn(semantic, id) && NotIn(keyword, id)
    ensures forall p, q | 0 <= p < q < |out| ::
              out[p].memory.id != out[q].memory.id && out[p].rrfScore >= out[q].rrfScore
  {
    assert NotIn(out, id) <==> id !in Ids(out);
    assert NotIn(semantic, id) <==> id !in Ids(semantic);
    assert NotIn(keyword, id) <==> id !in Ids(keyword);
  }

  lemma {:induction false} FindByPosition(list: seq<ScoredMemory>, id: Uuid, i: nat)
    requires DistinctIds(list) && StandsAt(list, id, i)
    ensures Find(list, id) == Some(list[i].memory)
  {
    if i > 0 {
      assert list[0].memory.id != id;
      FindByPosition(list[1..], id, i - 1);
    }
  }

  /** The semantic copy of a memory is returned if there is one, but for the nil id the keyword copy. */
  lemma CopyReturned(semantic: seq<ScoredMemory>, keyword: seq<ScoredMemory>, out: seq<ScoredMemory>, p: nat,
                     i: nat, j: nat)
    requires DistinctIds(semantic) && DistinctIds(keyword) && IsFusion(semantic, keyword, out) && p < |out|
    ensures var id := out[p].memory.id;
            var nil := id == "00000000-0000-0000-0000-000000000000";
            && (StandsAt(semantic, id, i) && (NotIn(keyword, id) || !nil) ==> out[p].memory == semantic[i].memory)
            && (StandsAt(keyword, id, j) && (NotIn(semantic, id) || nil) ==> out[p].memory == keyword[j].memory)
  {
    var id := out[p].memory.id;
    assert id in Ids(out);
    FindListed(semantic, id);
    FindListed(keyword, id);
    if StandsAt(semantic, id, i) { FindByPosition(semantic, id, i); }
    if StandsAt(keyword, id, j) { FindByPosition(keyword, id, j); }
  }

  // ------------------------------------------------------------------ filters and pages

  /**
   * An entry passes exactly if it has a wanted tag, a confidence between the bounds, a creation
   * time between the bounds and an attestation, each condition only if it is set.
   */
  lemma FilterOutcome(list: seq<ScoredMemory>, f: FilterSet, x: ScoredMemory)
    ensures var m := x.memory;
            x in Filtered(list, f) <==>
              && x in list
              && (f.tags == [] || exists tag <- f.tags :: tag in m.metadata.tags)
              && (f.confidenceMin <= 0.0 || m.metadata.confidence >= f.confidenceMin)
              && (f.confidenceMax <= 0.0 || m.metadata.confidence <= f.confidenceMax)
              && (f.createdAfter == None || m.createdAt >= f.createdAfter.value)
              && (f.createdBefore == None || m.createdAt <= f.createdBefore.value)
              && (!f.hasAttestation || m.metadata.attestations != [])
  {
    FilteredMembers(list, f, x);
  }

  /** Result k of a page is result offset + k of the list; a page ends with its limit or with the list. */
  lemma PageOutcome<T>(list: seq<T>, offset: nat, limit: nat)
    ensures |Page(list, offset, limit)| == (if offset >= |list| then 0
                                            else if |list| - offset < limit then |list| - offset else limit)
    ensures forall k | 0 <= k < |Page(list, offset, limit)| ::
              offset + k < |list| && Page(list, offset, limit)[k] == list[offset + k]
  {
  }
}
