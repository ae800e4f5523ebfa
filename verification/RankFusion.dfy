/**
 * Reciprocal rank fusion as a relation between two ranked lists and an output list. Map
 * iteration order and the order of ties are left open, so what is proved here holds for every
 * execution.
 */
module RankFusion {
  import opened Prelude
  import opened MemoryTypes

  datatype ScoredMemory = ScoredMemory(
    memory: Memory, semanticScore: real, keywordScore: real, rrfScore: real)

  const K := 60.0

  function Ids(list: seq<ScoredMemory>): set<Uuid> {
    set i | 0 <= i < |list| :: list[i].memory.id
  }

  /** The 1-based rank of an id, 0 when absent; the last occurrence counts. */
  function Rank(list: seq<ScoredMemory>, id: Uuid): (r: nat)
    ensures r <= |list|
  {
    if list == [] then 0
    else if list[|list| - 1].memory.id == id then |list|
    else Rank(list[..|list| - 1], id)
  }

  /** Only listed ids are ranked, and the id stands at its rank. */
  lemma {:induction false} RankFacts(list: seq<ScoredMemory>, id: Uuid)
    ensures Rank(list, id) > 0 <==> id in Ids(list)
    ensures Rank(list, id) > 0 ==> list[Rank(list, id) - 1].memory.id == id
  {
    if list != [] {
      var front := list[..|list| - 1];
      RankFacts(front, id);
      assert Ids(list) == Ids(front) + {list[|list| - 1].memory.id} by {
        assert forall i | 0 <= i < |front| :: list[i] == front[i];
      }
    }
  }

  /** The contribution of a rank; an id that is not ranked contributes nothing. */
  function Contribution(rank: nat): real {
    if rank == 0 then 0.0 else 1.0 / (K + rank as real)
  }

  function Score(semantic: seq<ScoredMemory>, keyword: seq<ScoredMemory>, id: Uuid): real {
    Contribution(Rank(semantic, id)) + Contribution(Rank(keyword, id))
  }

  /** The first memory with an id. */
  function Find(list: seq<ScoredMemory>, id: Uuid): (m: Option<Memory>)
    ensures m.Some? ==> m.value.id == id
  {
    if list == [] then None
    else if list[0].memory.id == id then Some(list[0].memory)
    else Find(list[1..], id)
  }

  lemma {:induction false} FindListed(list: seq<ScoredMemory>, id: Uuid)
    ensures Find(list, id).Some? <==> id in Ids(list)
    ensures Find(list, id).Some? ==> exists i | 0 <= i < |list| :: list[i].memory == Find(list, id).value
  {
    if list != [] && list[0].memory.id != id {
      var rest := list[1..];
      FindListed(rest, id);
      assert forall i | 0 <= i < |rest| :: rest[i] == list[i + 1];
      assert Ids(list) == {list[0].memory.id} + Ids(rest);
    }
  }

  /** The semantic copy wins, except that the nil id is looked up again among the keyword results. */
  function PickMemory(semantic: seq<ScoredMemory>, keyword: seq<ScoredMemory>, id: Uuid): (m: Memory)
    requires id in Ids(semantic) + Ids(keyword)
    ensures m.id == id
  {
    FindListed(semantic, id);
    FindListed(keyword, id);
    var fromSemantic, fromKeyword := Find(semantic, id), Find(keyword, id);
    if fromSemantic.Some? && (id != NIL_UUID || fromKeyword.None?) then fromSemantic.value
    else fromKeyword.value
  }

  predicate DistinctIds(list: seq<ScoredMemory>) {
    forall i, j | 0 <= i < j < |list| :: list[i].memory.id != list[j].memory.id
  }

  predicate SortedByScore(list: seq<ScoredMemory>) {
    forall i, j | 0 <= i < j < |list| :: list[i].rrfScore >= list[j].rrfScore
  }

  /** The entry the fusion makes for an id: its memory and its summed score. */
  function FusedEntry(semantic: seq<ScoredMemory>, keyword: seq<ScoredMemory>, id: Uuid): (x: ScoredMemory)
    requires id in Ids(semantic) + Ids(keyword)
    ensures x.memory.id == id
  {
    ScoredMemory(PickMemory(semantic, keyword, id), 0.0, 0.0, Score(semantic, keyword, id))
  }

  predicate CarriesFusedScores(semantic: seq<ScoredMemory>, keyword: seq<ScoredMemory>, out: seq<ScoredMemory>)
    requires Ids(out) <= Ids(semantic) + Ids(keyword)
  {
    forall i | 0 <= i < |out| ::
      var id := out[i].memory.id;
      assert id in Ids(out);
      out[i] == FusedEntry(semantic, keyword, id)
  }

  /** Everything the fusion promises of its output. */
  predicate IsFusion(semantic: seq<ScoredMemory>, keyword: seq<ScoredMemory>, out: seq<ScoredMemory>) {
    && Ids(out) == Ids(semantic) + Ids(keyword)
    && DistinctIds(out)
    && CarriesFusedScores(semantic, keyword, out)
    && SortedByScore(out)
  }

  /** Every entry is the row a table holds under its id. */
  predicate ComesFrom(list: seq<ScoredMemory>, table: map<Uuid, Memory>) {
    forall i | 0 <= i < |list| :: list[i].memory.id in table && list[i].memory == table[list[i].memory.id]
  }

  /** Two result lists read from one table fuse into rows of that table. */
  lemma FusionComesFromTable(semantic: seq<ScoredMemory>, keyword: seq<ScoredMemory>,
                             out: seq<ScoredMemory>, table: map<Uuid, Memory>)
    requires IsFusion(semantic, keyword, out)
    requires ComesFrom(semantic, table) && ComesFrom(keyword, table)
    ensures ComesFrom(out, table)
  {
    forall i | 0 <= i < |out|
      ensures out[i].memory.id in table && out[i].memory == table[out[i].memory.id]
    {
      var id := out[i].memory.id;
      assert id in Ids(out);
      FindListed(semantic, id);
      FindListed(keyword, id);
    }
  }

  // ------------------------------------------------------------------ determinism up to ties

  lemma IdsOfPrefix(list: seq<ScoredMemory>, n: nat)
    requires 0 < n <= |list|
    ensures Ids(list[..n]) == Ids(list[..n - 1]) + {list[n - 1].memory.id}
    ensures DistinctIds(list) ==> list[n - 1].memory.id !in Ids(list[..n - 1])
  {
  }

  lemma {:induction false} CountDistinct(list: seq<ScoredMemory>, n: nat)
    requires n <= |list|
    ensures |Ids(list[..n])| <= n
    ensures DistinctIds(list) ==> |Ids(list[..n])| == n
  {
    if n > 0 {
      CountDistinct(list, n - 1);
      IdsOfPrefix(list, n);
    }
  }

  /** Both lists give an id the same score. */
  predicate ScoresAgree(a: seq<ScoredMemory>, b: seq<ScoredMemory>) {
    forall p, q | 0 <= p < |a| && 0 <= q < |b| && a[p].memory.id == b[q].memory.id :: a[p].rrfScore == b[q].rrfScore
  }

  lemma FusionScoresAgree(semantic: seq<ScoredMemory>, keyword: seq<ScoredMemory>,
                          a: seq<ScoredMemory>, b: seq<ScoredMemory>)
    requires IsFusion(semantic, keyword, a) && IsFusion(semantic, keyword, b)
    ensures ScoresAgree(a, b)
  {
  }

  /** An id that `a` scores above position i of `b` stands before that position in `b`. */
  lemma HigherIdFits(a: seq<ScoredMemory>, b: seq<ScoredMemory>, p: nat, i: nat)
    requires SortedByScore(b) && ScoresAgree(a, b) && Ids(a) <= Ids(b)
    requires p < |a| && i < |b| && a[p].rrfScore > b[i].rrfScore
    ensures a[p].memory.id in Ids(b[..i])
  {
    assert a[p].memory.id in Ids(a);
    var q :| 0 <= q < |b| && b[q].memory.id == a[p].memory.id;
    assert b[..i][q].memory.id == a[p].memory.id;
  }

  /** Too many ids outrank position i of `a` to fit above position i of `b`. */
  lemma NotAbove(a: seq<ScoredMemory>, b: seq<ScoredMemory>, i: nat)
    requires SortedByScore(a) && SortedByScore(b) && DistinctIds(a)
    requires ScoresAgree(a, b) && Ids(a) <= Ids(b)
    requires i < |a| && i < |b|
    ensures a[i].rrfScore <= b[i].rrfScore
  {
    if a[i].rrfScore > b[i].rrfScore {
      CountDistinct(a, i + 1);
      CountDistinct(b, i);
      forall id | id in Ids(a[..i + 1])
        ensures id in Ids(b[..i])
      {
        var p :| 0 <= p < i + 1 && a[..i + 1][p].memory.id == id;
        HigherIdFits(a, b, p, i);
      }
      SubsetSize(Ids(a[..i + 1]), Ids(b[..i]));
      assert false;
    }
  }

  /** Any two executions return as many results as there are ids, with the same score at every position. */
  lemma SameScores(semantic: seq<ScoredMemory>, keyword: seq<ScoredMemory>,
                   a: seq<ScoredMemory>, b: seq<ScoredMemory>)
    requires IsFusion(semantic, keyword, a) && IsFusion(semantic, keyword, b)
    ensures |a| == |b| == |Ids(semantic) + Ids(keyword)|
    ensures forall i | 0 <= i < |a| :: a[i].rrfScore == b[i].rrfScore
  {
    CountDistinct(a, |a|);
    CountDistinct(b, |b|);
    assert a[..|a|] == a && b[..|b|] == b;
    FusionScoresAgree(semantic, keyword, a, b);
    FusionScoresAgree(semantic, keyword, b, a);
    forall i | 0 <= i < |a|
      ensures a[i].rrfScore == b[i].rrfScore
    {
      NotAbove(a, b, i);
      NotAbove(b, a, i);
    }
  }

  /** An id whose score nobody shares sits at the same position in every execution. */
  lemma UntiedPositionsAgree(semantic: seq<ScoredMemory>, keyword: seq<ScoredMemory>,
                             a: seq<ScoredMemory>, b: seq<ScoredMemory>, i: nat)
    requires IsFusion(semantic, keyword, a) && IsFusion(semantic, keyword, b) && i < |a|
    requires forall j | 0 <= j < |a| && j != i :: a[j].rrfScore != a[i].rrfScore
    ensures i < |b| && b[i] == a[i]
  {
    SameScores(semantic, keyword, a, b);
    assert b[i].memory.id in Ids(b);
    var p :| 0 <= p < |a| && a[p].memory.id == b[i].memory.id;
    assert a[p] == b[i];
  }

  // ------------------------------------------------------------------ ranking bounds

  /** a comes before b in the output. */
  predicate Precedes(out: seq<ScoredMemory>, a: Uuid, b: Uuid) {
    forall i, j | 0 <= i < |out| && 0 <= j < |out| && out[i].memory.id == a && out[j].memory.id == b :: i < j
  }

  /** Two ids of different scores come out in the same order in every execution. */
  lemma HigherScorePrecedes(semantic: seq<ScoredMemory>, keyword: seq<ScoredMemory>,
                            out: seq<ScoredMemory>, a: Uuid, b: Uuid)
    requires IsFusion(semantic, keyword, out)
    requires Score(semantic, keyword, a) > Score(semantic, keyword, b)
    ensures Precedes(out, a, b)
  {
  }

  lemma ContributionAntitone(r: nat, s: nat)
    requires 0 < r < s || (s == 0 && r > 0)
    ensures Contribution(r) > Contribution(s)
  {
    var x, y := K + r as real, K + s as real;
    if s > 0 {
      assert 1.0 / x - 1.0 / y == (y - x) / (x * y);
    }
  }

  /** Wherever the list ranks b, it ranks a above it. */
  predicate RanksAbove(list: seq<ScoredMemory>, a: Uuid, b: Uuid) {
    Rank(list, b) > 0 ==> 0 < Rank(list, a) < Rank(list, b)
  }

  /** An id ranked above another by every list that knows the other comes out first. */
  lemma UnanimityWins(semantic: seq<ScoredMemory>, keyword: seq<ScoredMemory>,
                      out: seq<ScoredMemory>, a: Uuid, b: Uuid)
    requires IsFusion(semantic, keyword, out) && b in Ids(out)
    requires RanksAbove(semantic, a, b) && RanksAbove(keyword, a, b)
    ensures a in Ids(out) && Precedes(out, a, b)
  {
    RankFacts(semantic, a);
    RankFacts(semantic, b);
    RankFacts(keyword, a);
    RankFacts(keyword, b);
    var r, s := Rank(semantic, a), Rank(semantic, b);
    var r', s' := Rank(keyword, a), Rank(keyword, b);
    if s > 0 { ContributionAntitone(r, s); }
    if s' > 0 { ContributionAntitone(r', s'); }
    if s == 0 && r > 0 { ContributionAntitone(r, s); }
    if s' == 0 && r' > 0 { ContributionAntitone(r', s'); }
    HigherScorePrecedes(semantic, keyword, out, a, b);
  }

  lemma FractionAbove(p: real, q: real)
    requires q > 0.0
    ensures p / q > 1.0 / 61.0 <==> 61.0 * p > q
  {
  }

  /** Two ranks together beat the best possible single rank exactly when (r-1)(s-1) < 61 squared. */
  lemma TwoRanksBeatRankOne(r: nat, s: nat)
    requires r > 0 && s > 0
    ensures Contribution(r) + Contribution(s) > Contribution(1) <==> (r - 1) * (s - 1) < 61 * 61
  {
    var x, y := K + r as real, K + s as real;
    assert Contribution(r) + Contribution(s) == (x + y) / (x * y) by {
      assert 1.0 / x == y / (x * y) && 1.0 / y == x / (x * y);
    }
    FractionAbove(x + y, x * y);
    assert 61.0 * (x + y) - x * y == ((61 * 61 - (r - 1) * (s - 1)) as real);
  }

  lemma ProductBound(u: nat, v: nat)
    requires u + v <= 121
    ensures u * v < 61 * 61
  {
  }

  /** The id is ranked by exactly one of the two lists. */
  predicate SingleHit(semantic: seq<ScoredMemory>, keyword: seq<ScoredMemory>, id: Uuid) {
    (Rank(semantic, id) > 0) != (Rank(keyword, id) > 0)
  }

  predicate DoubleHit(semantic: seq<ScoredMemory>, keyword: seq<ScoredMemory>, id: Uuid) {
    Rank(semantic, id) > 0 && Rank(keyword, id) > 0
  }

  lemma SingleHitScore(semantic: seq<ScoredMemory>, keyword: seq<ScoredMemory>, id: Uuid)
    requires SingleHit(semantic, keyword, id)
    ensures Score(semantic, keyword, id) <= Contribution(1)
  {
  }

  lemma DoubleHitScore(semantic: seq<ScoredMemory>, keyword: seq<ScoredMemory>, a: Uuid, b: Uuid)
    requires DoubleHit(semantic, keyword, a) && SingleHit(semantic, keyword, b)
    requires Rank(semantic, a) + Rank(keyword, a) <= 123
    ensures Score(semantic, keyword, a) > Score(semantic, keyword, b)
  {
    ProductBound(Rank(semantic, a) - 1, Rank(keyword, a) - 1);
    TwoRanksBeatRankOne(Rank(semantic, a), Rank(keyword, a));
    SingleHitScore(semantic, keyword, b);
  }

  /** Any id in both lists with ranks r + s <= 123 comes out before every id in one list only. */
  lemma DoubleHitPrecedesSingle(semantic: seq<ScoredMemory>, keyword: seq<ScoredMemory>,
                                out: seq<ScoredMemory>, a: Uuid, b: Uuid)
    requires IsFusion(semantic, keyword, out)
    requires DoubleHit(semantic, keyword, a) && SingleHit(semantic, keyword, b)
    requires Rank(semantic, a) + Rank(keyword, a) <= 123
    ensures Precedes(out, a, b)
  {
    DoubleHitScore(semantic, keyword, a, b);
    HigherScorePrecedes(semantic, keyword, out, a, b);
  }

  // ------------------------------------------------------------------ a fusion exists

  /** A sorted result for some of the ids. */
  ghost predicate IsPartialFusion(semantic: seq<ScoredMemory>, keyword: seq<ScoredMemory>, ids: set<Uuid>,
                                  out: seq<ScoredMemory>)
  {
    && ids <= Ids(semantic) + Ids(keyword)
    && Ids(out) == ids && DistinctIds(out) && CarriesFusedScores(semantic, keyword, out) && SortedByScore(out)
  }

  /** Where an entry of this score goes: behind all entries of at least the score. */
  function Place(list: seq<ScoredMemory>, score: real): (p: nat)
    requires SortedByScore(list)
    ensures p <= |list|
    ensures forall j | 0 <= j < p :: list[j].rrfScore >= score
    ensures forall j | p <= j < |list| :: list[j].rrfScore < score
  {
    if list == [] || list[|list| - 1].rrfScore >= score then |list| else Place(list[..|list| - 1], score)
  }

  lemma InsertKeepsOrder(front: seq<ScoredMemory>, x: ScoredMemory, back: seq<ScoredMemory>)
    requires SortedByScore(front + back)
    requires forall j | 0 <= j < |front| :: front[j].rrfScore >= x.rrfScore
    requires back != [] ==> back[0].rrfScore < x.rrfScore
    ensures SortedByScore(front + [x] + back)
  {
    var whole, more := front + back, front + [x] + back;
    assert forall i | 0 <= i < |front| :: more[i] == whole[i];
    assert forall i | |front| < i < |more| :: more[i] == whole[i - 1];
    assert forall i | 0 <= i < |back| :: back[i] == whole[|front| + i] && back[i].rrfScore <= back[0].rrfScore;
    assert more[|front|] == x;
  }

  lemma InsertedEntries(front: seq<ScoredMemory>, x: ScoredMemory, back: seq<ScoredMemory>)
    ensures Ids(front + [x] + back) == Ids(front + back) + {x.memory.id}
    ensures DistinctIds(front + back) && x.memory.id !in Ids(front + back) ==> DistinctIds(front + [x] + back)
  {
    var whole, more := front + back, front + [x] + back;
    assert forall i | 0 <= i < |front| :: more[i] == whole[i];
    assert forall i | |front| <= i < |whole| :: more[i + 1] == whole[i];
    assert more[|front|] == x;
    assert forall i | |front| < i < |more| :: more[i] == whole[i - 1];
  }

  lemma InsertCarries(semantic: seq<ScoredMemory>, keyword: seq<ScoredMemory>,
                      front: seq<ScoredMemory>, id: Uuid, back: seq<ScoredMemory>)
    requires Ids(front + back) <= Ids(semantic) + Ids(keyword)
    requires CarriesFusedScores(semantic, keyword, front + back) && id in Ids(semantic) + Ids(keyword)
    requires Ids(front + [FusedEntry(semantic, keyword, id)] + back) <= Ids(semantic) + Ids(keyword)
    ensures CarriesFusedScores(semantic, keyword, front + [FusedEntry(semantic, keyword, id)] + back)
  {
    var x := FusedEntry(semantic, keyword, id);
    var whole, more := front + back, front + [x] + back;
    forall i | 0 <= i < |more| ensures more[i] == x || exists j | 0 <= j < |whole| :: more[i] == whole[j] {
      if i < |front| {
        assert more[i] == whole[i];
      } else if i > |front| {
        assert more[i] == whole[i - 1];
      }
    }
  }

  lemma InsertOne(semantic: seq<ScoredMemory>, keyword: seq<ScoredMemory>, ids: set<Uuid>,
                  front: seq<ScoredMemory>, id: Uuid, back: seq<ScoredMemory>)
    requires IsPartialFusion(semantic, keyword, ids, front + back)
    requires id in Ids(semantic) + Ids(keyword) && id !in ids
    requires forall j | 0 <= j < |front| :: front[j].rrfScore >= Score(semantic, keyword, id)
    requires back != [] ==> back[0].rrfScore < Score(semantic, keyword, id)
    ensures IsPartialFusion(semantic, keyword, ids + {id}, front + [FusedEntry(semantic, keyword, id)] + back)
  {
    var x := FusedEntry(semantic, keyword, id);
    InsertedEntries(front, x, back);
    InsertKeepsOrder(front, x, back);
    InsertCarries(semantic, keyword, front, id, back);
  }

  lemma {:induction false} BuildFusion(semantic: seq<ScoredMemory>, keyword: seq<ScoredMemory>, ids: set<Uuid>)
    returns (out: seq<ScoredMemory>)
    requires ids <= Ids(semantic) + Ids(keyword)
    ensures IsPartialFusion(semantic, keyword, ids, out)
  {
    if ids == {} {
      out := [];
    } else {
      var id :| id in ids;
      var rest := BuildFusion(semantic, keyword, ids - {id});
      var p := Place(rest, Score(semantic, keyword, id));
      assert rest == rest[..p] + rest[p..];
      InsertOne(semantic, keyword, ids - {id}, rest[..p], id, rest[p..]);
      out := rest[..p] + [FusedEntry(semantic, keyword, id)] + rest[p..];
      assert ids - {id} + {id} == ids;
    }
  }

  /** Every pair of lists has a fusion. */
  lemma FusionExists(semantic: seq<ScoredMemory>, keyword: seq<ScoredMemory>) returns (out: seq<ScoredMemory>)
    ensures IsFusion(semantic, keyword, out)
  {
    out := BuildFusion(semantic, keyword, Ids(semantic) + Ids(keyword));
  }

  // ------------------------------------------------------------------ the exact limit

  /** With lists capped at `cap`, every two-list hit precedes every one-list hit in every output. */
  ghost predicate DoubleHitsFirst(cap: nat) {
    forall semantic, keyword, out, a, b |
      && |semantic| <= cap && |keyword| <= cap && DistinctIds(semantic) && DistinctIds(keyword)
      && IsFusion(semantic, keyword, out)
      && DoubleHit(semantic, keyword, a) && SingleHit(semantic, keyword, b) ::
      Precedes(out, a, b)
  }

  function Sample(n: nat): ScoredMemory
    requires n < 64
  {
    ScoredMemory(
      Memory(NumberedUuid(n), Semantic, "", "", "", [], Metadata("", 0.0, [], [], []), None, None, None, 0, 0),
      0.0, 0.0, 0.0)
  }

  /** Sixty-three hits: the given one first, then numbers 1 to 62. */
  function SampleList(first: nat): (list: seq<ScoredMemory>)
    requires first == 0 || first == 63
    ensures |list| == 63 && list[0] == Sample(first)
    ensures forall i | 0 < i < 63 :: list[i] == Sample(i)
  {
    seq(63, i requires 0 <= i < 63 => if i == 0 then Sample(first) else Sample(i))
  }

  lemma SampleListDistinct(first: nat)
    requires first == 0 || first == 63
    ensures DistinctIds(SampleList(first))
  {
    var list := SampleList(first);
    forall i, j | 0 <= i < j < |list|
      ensures list[i].memory.id != list[j].memory.id
    {
      NumberedUuidsDiffer(if i == 0 then first else i, j);
    }
  }

  lemma RankOfEntry(list: seq<ScoredMemory>, i: nat)
    requires DistinctIds(list) && i < |list|
    ensures Rank(list, list[i].memory.id) == i + 1
  {
  }

  /** Number 62 is ranked last by both sample lists, number 0 first by one and not by the other. */
  lemma SampleRanks()
    ensures var semantic, keyword := SampleList(0), SampleList(63);
            && Rank(semantic, NumberedUuid(62)) == 63 && Rank(keyword, NumberedUuid(62)) == 63
            && Rank(semantic, NumberedUuid(0)) == 1 && Rank(keyword, NumberedUuid(0)) == 0
  {
    var semantic, keyword := SampleList(0), SampleList(63);
    SampleListDistinct(0);
    SampleListDistinct(63);
    RankOfEntry(semantic, 62);
    RankOfEntry(keyword, 62);
    RankOfEntry(semantic, 0);
    forall i | 0 <= i < 63 ensures keyword[i].memory.id != NumberedUuid(0) {
      NumberedUuidsDiffer(if i == 0 then 63 else i, 0);
    }
    RankFacts(keyword, NumberedUuid(0));
  }

  /** At 63 entries a list, every execution puts a hit ranked last by both behind one ranked first by one. */
  lemma LongListsLose(cap: nat)
    requires cap >= 63
    ensures !DoubleHitsFirst(cap)
  {
    var semantic, keyword := SampleList(0), SampleList(63);
    var a, b := NumberedUuid(62), NumberedUuid(0);
    SampleListDistinct(0);
    SampleListDistinct(63);
    SampleRanks();
    var out := FusionExists(semantic, keyword);
    HigherScorePrecedes(semantic, keyword, out, b, a);
    BothPlaced(semantic, keyword, out, a, b);
    assert DoubleHit(semantic, keyword, a) && SingleHit(semantic, keyword, b);
  }

  /** Of two ids in an output, not both precede the other. */
  lemma BothPlaced(semantic: seq<ScoredMemory>, keyword: seq<ScoredMemory>, out: seq<ScoredMemory>, a: Uuid, b: Uuid)
    requires IsFusion(semantic, keyword, out)
    requires Rank(semantic, a) > 0 && Rank(semantic, b) > 0
    requires Precedes(out, b, a)
    ensures !Precedes(out, a, b)
  {
    RankFacts(semantic, a);
    RankFacts(semantic, b);
    assert a in Ids(out) && b in Ids(out);
    var i :| 0 <= i < |out| && out[i].memory.id == a;
    var j :| 0 <= j < |out| && out[j].memory.id == b;
    assert j < i;
  }

  /**
   * The searcher caps each list at three times the limit: all two-list hits come first in every
   * output, for all inputs, exactly when the limit is at most 20.
   */
  lemma DoubleHitsFirstUpToLimit20(limit: nat)
    ensures DoubleHitsFirst(3 * limit) <==> limit <= 20
  {
    if limit > 20 {
      LongListsLose(3 * limit);
    } else {
      forall semantic, keyword, out, a, b |
        && |semantic| <= 3 * limit && |keyword| <= 3 * limit && DistinctIds(semantic) && DistinctIds(keyword)
        && IsFusion(semantic, keyword, out)
        && DoubleHit(semantic, keyword, a) && SingleHit(semantic, keyword, b)
        ensures Precedes(out, a, b)
      {
        DoubleHitPrecedesSingle(semantic, keyword, out, a, b);
      }
    }
  }
}
