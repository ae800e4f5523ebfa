/**
 * Paging through a search. Every page request fuses the two ranked lists anew, so consecutive
 * pages may be cut from outputs that break ties differently. When a walk through the pages still
 * returns every result once is stated exactly.
 */
module SearchPaging {
  import opened Prelude
  import opened RankFusion
  import opened HybridSearch

  // ------------------------------------------------------------------ one request

  /** Two lists of the same entries, each by descending score, perhaps with ties in different orders. */
  ghost predicate SameUpToTies(a: seq<ScoredMemory>, b: seq<ScoredMemory>) {
    && DistinctIds(a) && DistinctIds(b) && SortedByScore(a) && SortedByScore(b)
    && Ids(a) == Ids(b) && ScoresAgree(a, b)
  }

  lemma FilteredIsSorted(list: seq<ScoredMemory>, f: FilterSet)
    requires DistinctIds(list) && SortedByScore(list)
    ensures DistinctIds(Filtered(list, f)) && SortedByScore(Filtered(list, f))
  {
    FilteredPicksPassing(list, f);
  }

  lemma FusionMembers(semantic: seq<ScoredMemory>, keyword: seq<ScoredMemory>, a: seq<ScoredMemory>,
                      b: seq<ScoredMemory>, x: ScoredMemory)
    requires IsFusion(semantic, keyword, a) && IsFusion(semantic, keyword, b) && x in a
    ensures x in b
  {
    assert x.memory.id in Ids(a);
    var j :| 0 <= j < |b| && b[j].memory.id == x.memory.id;
    assert b[j] == x;
  }

  lemma MembersOfListed(semantic: seq<ScoredMemory>, keyword: seq<ScoredMemory>, f: FilterSet, a: seq<ScoredMemory>,
                        b: seq<ScoredMemory>)
    requires IsListed(semantic, keyword, f, a) && IsListed(semantic, keyword, f, b)
    ensures forall x <- a :: x in b
  {
    var fa :| IsFusion(semantic, keyword, fa) && a == Filtered(fa, f);
    var fb :| IsFusion(semantic, keyword, fb) && b == Filtered(fb, f);
    forall x | x in a ensures x in b {
      FilteredMembers(fa, f, x);
      FusionMembers(semantic, keyword, fa, fb, x);
      FilteredMembers(fb, f, x);
    }
  }

  lemma SameMembersSameIds(a: seq<ScoredMemory>, b: seq<ScoredMemory>)
    requires forall x <- a :: x in b
    ensures Ids(a) <= Ids(b)
  {
    forall id | id in Ids(a) ensures id in Ids(b) {
      var i :| 0 <= i < |a| && a[i].memory.id == id;
      assert a[i] in b;
    }
  }

  lemma ListedIsSorted(semantic: seq<ScoredMemory>, keyword: seq<ScoredMemory>, f: FilterSet, a: seq<ScoredMemory>)
    requires IsListed(semantic, keyword, f, a)
    ensures DistinctIds(a) && SortedByScore(a)
  {
    var fa :| IsFusion(semantic, keyword, fa) && a == Filtered(fa, f);
    FilteredIsSorted(fa, f);
  }

  /** All executions over the same two lists and filter page through the same entries. */
  lemma ListedUpToTies(semantic: seq<ScoredMemory>, keyword: seq<ScoredMemory>, f: FilterSet, a: seq<ScoredMemory>,
                       b: seq<ScoredMemory>)
    requires IsListed(semantic, keyword, f, a) && IsListed(semantic, keyword, f, b)
    ensures SameUpToTies(a, b)
  {
    ListedIsSorted(semantic, keyword, f, a);
    ListedIsSorted(semantic, keyword, f, b);
    MembersOfListed(semantic, keyword, f, a, b);
    MembersOfListed(semantic, keyword, f, b, a);
    SameMembersSameIds(a, b);
    SameMembersSameIds(b, a);
    forall p, q | 0 <= p < |a| && 0 <= q < |b| && a[p].memory.id == b[q].memory.id
      ensures a[p].rrfScore == b[q].rrfScore
    {
      assert a[p] in b;
      var r :| 0 <= r < |b| && b[r] == a[p];
      assert r == q;
    }
  }

  lemma SameLengthAndScores(a: seq<ScoredMemory>, b: seq<ScoredMemory>)
    requires SameUpToTies(a, b)
    ensures |a| == |b|
    ensures forall i | 0 <= i < |a| :: a[i].rrfScore == b[i].rrfScore
  {
    CountDistinct(a, |a|);
    CountDistinct(b, |b|);
    assert a[..|a|] == a && b[..|b|] == b;
    assert ScoresAgree(b, a);
    forall i | 0 <= i < |a| ensures a[i].rrfScore == b[i].rrfScore {
      NotAbove(a, b, i);
      NotAbove(b, a, i);
    }
  }

  // ------------------------------------------------------------------ a walk through the pages

  /** Where page k starts: as many results further on as a page holds. */
  function Offset(k: nat, limit: nat): nat {
    if k == 0 then 0 else Offset(k - 1, limit) + limit
  }

  lemma {:induction false} OffsetIsProduct(k: nat, limit: nat)
    ensures Offset(k, limit) == k * limit
  {
    if k > 0 {
      OffsetIsProduct(k - 1, limit);
    }
  }

  /** No tie straddles position p. */
  predicate Parted(list: seq<ScoredMemory>, p: nat) {
    0 < p < |list| ==> list[p - 1].rrfScore > list[p].rrfScore
  }

  predicate PartedBefore(list: seq<ScoredMemory>, page: nat, limit: nat) {
    Parted(list, Offset(page, limit))
  }

  /** No tie straddles a page boundary. */
  ghost predicate PagesParted(list: seq<ScoredMemory>, limit: nat) {
    forall k: nat :: PartedBefore(list, k, limit)
  }

  function Upto(list: seq<ScoredMemory>, p: nat): seq<ScoredMemory> {
    if p < |list| then list[..p] else list
  }

  lemma AboveCut(a: seq<ScoredMemory>, b: seq<ScoredMemory>, p: nat, q: nat)
    requires SortedByScore(a) && Parted(a, p) && q < p < |a| == |b| && a[p].rrfScore == b[p].rrfScore
    ensures a[q].rrfScore > b[p].rrfScore
  {
    assert a[q].rrfScore >= a[p - 1].rrfScore;
  }

  /** Where no tie straddles it, a cut has the same ids before it in every execution. */
  lemma CutAgrees(a: seq<ScoredMemory>, b: seq<ScoredMemory>, p: nat)
    requires SameUpToTies(a, b) && Parted(a, p)
    ensures Ids(Upto(a, p)) <= Ids(Upto(b, p))
  {
    SameLengthAndScores(a, b);
    if 0 < p < |a| {
      forall id | id in Ids(a[..p]) ensures id in Ids(b[..p]) {
        var q :| 0 <= q < p && a[..p][q].memory.id == id;
        AboveCut(a, b, p, q);
        HigherIdFits(a, b, q, p);
      }
    }
  }

  /** Page k is cut from the k-th execution. */
  function Walked(walk: seq<seq<ScoredMemory>>, limit: nat): seq<ScoredMemory> {
    if walk == [] then []
    else
      var k := |walk| - 1;
      Walked(walk[..k], limit) + Page(walk[k], Offset(k, limit), limit)
  }

  /** Every page of the walk comes from an execution over the same lists and filter. */
  ghost predicate IsWalk(semantic: seq<ScoredMemory>, keyword: seq<ScoredMemory>, f: FilterSet,
                         walk: seq<seq<ScoredMemory>>)
  {
    forall k | 0 <= k < |walk| :: IsListed(semantic, keyword, f, walk[k])
  }

  /** Nothing is returned twice and nothing is missed. */
  predicate ReturnsOnce(walked: seq<ScoredMemory>, list: seq<ScoredMemory>) {
    DistinctIds(walked) && Ids(walked) == Ids(list)
  }

  lemma AppendIds(a: seq<ScoredMemory>, b: seq<ScoredMemory>)
    ensures Ids(a + b) == Ids(a) + Ids(b)
  {
    var c := a + b;
    assert forall i | 0 <= i < |a| :: c[i] == a[i];
    assert forall j | 0 <= j < |b| :: c[|a| + j] == b[j];
  }

  lemma AppendDistinct(a: seq<ScoredMemory>, b: seq<ScoredMemory>)
    requires DistinctIds(a) && DistinctIds(b) && Ids(a) !! Ids(b)
    ensures DistinctIds(a + b)
  {
    var c := a + b;
    forall i, j | 0 <= i < j < |c| ensures c[i].memory.id != c[j].memory.id {
      if i < |a| <= j {
        assert c[i].memory.id in Ids(a) && c[j] == b[j - |a|];
      }
    }
  }

  lemma DistinctParts(a: seq<ScoredMemory>, b: seq<ScoredMemory>)
    requires DistinctIds(a + b)
    ensures DistinctIds(a) && DistinctIds(b) && Ids(a) !! Ids(b)
  {
    var c := a + b;
    forall i, j | 0 <= i < j < |a| ensures a[i].memory.id != a[j].memory.id {
      assert c[i] == a[i] && c[j] == a[j];
    }
    forall i, j | 0 <= i < j < |b| ensures b[i].memory.id != b[j].memory.id {
      assert c[|a| + i] == b[i] && c[|a| + j] == b[j];
    }
    forall i, j | 0 <= i < |a| && 0 <= j < |b| ensures a[i].memory.id != b[j].memory.id {
      assert c[i] == a[i] && c[|a| + j] == b[j];
    }
  }

  lemma PageExtends(list: seq<ScoredMemory>, offset: nat, limit: nat)
    ensures Upto(list, offset + limit) == Upto(list, offset) + Page(list, offset, limit)
  {
  }

  lemma DistinctPrefix(list: seq<ScoredMemory>, p: nat)
    requires DistinctIds(list)
    ensures DistinctIds(Upto(list, p))
  {
  }

  lemma CutsAgree(a: seq<ScoredMemory>, b: seq<ScoredMemory>, p: nat)
    requires SameUpToTies(a, b) && Parted(a, p)
    ensures Ids(Upto(a, p)) == Ids(Upto(b, p))
  {
    SameLengthAndScores(a, b);
    CutAgrees(a, b, p);
    CutAgrees(b, a, p);
  }

  lemma NextPage(front: seq<ScoredMemory>, last: seq<ScoredMemory>, list: seq<ScoredMemory>, offset: nat, limit: nat)
    requires SameUpToTies(list, last) && Parted(list, offset) && Parted(list, offset + limit)
    requires DistinctIds(front) && Ids(front) == Ids(Upto(list, offset))
    ensures var walked := front + Page(last, offset, limit);
            DistinctIds(walked) && Ids(walked) == Ids(Upto(list, offset + limit))
  {
    var page := Page(last, offset, limit);
    CutsAgree(list, last, offset);
    CutsAgree(list, last, offset + limit);
    PageExtends(last, offset, limit);
    DistinctPrefix(last, offset + limit);
    DistinctParts(Upto(last, offset), page);
    AppendDistinct(front, page);
    AppendIds(Upto(last, offset), page);
    AppendIds(front, page);
  }

  /** The walk so far has returned, once each, what one list holds before the next page. */
  predicate ReturnedUpto(walk: seq<seq<ScoredMemory>>, limit: nat, list: seq<ScoredMemory>, offset: nat) {
    DistinctIds(Walked(walk, limit)) && Ids(Walked(walk, limit)) == Ids(Upto(list, offset))
  }

  lemma WalkOneMore(walk: seq<seq<ScoredMemory>>, limit: nat, list: seq<ScoredMemory>, offset: nat)
    requires walk != [] && offset == Offset(|walk| - 1, limit) && ReturnedUpto(walk[..|walk| - 1], limit, list, offset)
    requires SameUpToTies(list, walk[|walk| - 1]) && Parted(list, offset) && Parted(list, offset + limit)
    ensures ReturnedUpto(walk, limit, list, offset + limit)
  {
    NextPage(Walked(walk[..|walk| - 1], limit), walk[|walk| - 1], list, offset, limit);
  }

  lemma WalkNothing(limit: nat, list: seq<ScoredMemory>)
    ensures ReturnedUpto([], limit, list, 0)
  {
    assert Upto(list, 0) == [];
  }

  ghost predicate AllUpToTies(list: seq<ScoredMemory>, walk: seq<seq<ScoredMemory>>) {
    walk != [] ==> SameUpToTies(list, walk[|walk| - 1]) && AllUpToTies(list, walk[..|walk| - 1])
  }

  lemma {:induction false} WalkUpToTies(semantic: seq<ScoredMemory>, keyword: seq<ScoredMemory>, f: FilterSet,
                                        list: seq<ScoredMemory>, walk: seq<seq<ScoredMemory>>)
    requires IsListed(semantic, keyword, f, list) && IsWalk(semantic, keyword, f, walk)
    ensures AllUpToTies(list, walk)
  {
    if walk != [] {
      ListedUpToTies(semantic, keyword, f, list, walk[|walk| - 1]);
      WalkUpToTies(semantic, keyword, f, list, walk[..|walk| - 1]);
    }
  }

  lemma {:induction false} WalkSoFar(walk: seq<seq<ScoredMemory>>, limit: nat, list: seq<ScoredMemory>)
    requires PagesParted(list, limit) && AllUpToTies(list, walk)
    ensures ReturnedUpto(walk, limit, list, Offset(|walk|, limit))
  {
    if walk == [] {
      WalkNothing(limit, list);
    } else {
      var k := |walk| - 1;
      WalkSoFar(walk[..k], limit, list);
      assert PartedBefore(list, k, limit) && PartedBefore(list, k + 1, limit);
      WalkOneMore(walk, limit, list, Offset(k, limit));
    }
  }

  // ------------------------------------------------------------------ what a straddling tie does

  /** The list with positions i and j exchanged. */
  function Swapped(list: seq<ScoredMemory>, i: nat, j: nat): (out: seq<ScoredMemory>)
    requires i < |list| && j < |list|
    ensures |out| == |list| && out[i] == list[j] && out[j] == list[i]
    ensures forall k | 0 <= k < |list| && k != i && k != j :: out[k] == list[k]
  {
    list[i := list[j]][j := list[i]]
  }

  /** Tied entries may come out in either order. */
  lemma SwapIsFusion(semantic: seq<ScoredMemory>, keyword: seq<ScoredMemory>, fused: seq<ScoredMemory>, i: nat, j: nat)
    requires IsFusion(semantic, keyword, fused) && i < j < |fused| && fused[i].rrfScore == fused[j].rrfScore
    ensures IsFusion(semantic, keyword, Swapped(fused, i, j))
  {
    SwapKeepsIds(fused, i, j);
    SwapKeepsOrder(fused, i, j);
  }

  lemma SwapKeepsIds(list: seq<ScoredMemory>, i: nat, j: nat)
    requires i < j < |list| && DistinctIds(list)
    ensures Ids(Swapped(list, i, j)) == Ids(list) && DistinctIds(Swapped(list, i, j))
  {
    var out := Swapped(list, i, j);
    forall k | 0 <= k < |list| ensures list[k].memory.id in Ids(out) && out[k].memory.id in Ids(list) {
      var l := if k == i then j else if k == j then i else k;
      assert out[l] == list[k] && list[l] == out[k];
    }
  }

  lemma SwapKeepsOrder(list: seq<ScoredMemory>, i: nat, j: nat)
    requires i < j < |list| && SortedByScore(list) && list[i].rrfScore == list[j].rrfScore
    ensures SortedByScore(Swapped(list, i, j))
  {
    var out := Swapped(list, i, j);
    assert forall k | 0 <= k < |list| :: out[k].rrfScore == list[k].rrfScore;
  }

  lemma {:induction false} SamePassPattern(a: seq<ScoredMemory>, b: seq<ScoredMemory>, f: FilterSet)
    requires |a| == |b| && forall i | 0 <= i < |a| :: Passes(a[i].memory, f) == Passes(b[i].memory, f)
    ensures PassingPositions(a, f) == PassingPositions(b, f)
  {
    if a != [] {
      SamePassPattern(a[..|a| - 1], b[..|b| - 1], f);
    }
  }

  lemma SwapKeepsPassing(list: seq<ScoredMemory>, f: FilterSet, i: nat, j: nat)
    requires i < |list| && j < |list| && Passes(list[i].memory, f) && Passes(list[j].memory, f)
    ensures PassingPositions(Swapped(list, i, j), f) == PassingPositions(list, f)
  {
    SamePassPattern(Swapped(list, i, j), list, f);
  }

  /** The list holds what stands at the positions. */
  predicate Picks(list: seq<ScoredMemory>, positions: seq<nat>, picked: seq<ScoredMemory>) {
    && |picked| == |positions|
    && forall n | 0 <= n < |positions| :: positions[n] < |list| && picked[n] == list[positions[n]]
  }

  /** Picking positions commutes with exchanging two of the picked entries. */
  lemma SwapPicked(list: seq<ScoredMemory>, positions: seq<nat>, picked: seq<ScoredMemory>, k: nat, l: nat,
                   picked': seq<ScoredMemory>)
    requires Picks(list, positions, picked) && k < |positions| && l < |positions|
    requires forall m, n | 0 <= m < n < |positions| :: positions[m] < positions[n]
    requires Picks(Swapped(list, positions[k], positions[l]), positions, picked')
    ensures picked' == Swapped(picked, k, l)
  {
    forall n | 0 <= n < |positions| ensures picked'[n] == Swapped(picked, k, l)[n] {
      if n != k && n != l {
        assert positions[n] != positions[k] && positions[n] != positions[l];
      }
    }
  }

  lemma FilteredPicks(list: seq<ScoredMemory>, f: FilterSet)
    ensures Picks(list, PassingPositions(list, f), Filtered(list, f))
  {
    FilteredPicksPassing(list, f);
  }

  /** Exchanging two passing entries exchanges them in the filtered list. */
  lemma SwapFiltered(list: seq<ScoredMemory>, f: FilterSet, k: nat, l: nat)
    requires |Filtered(list, f)| == |PassingPositions(list, f)|
    requires k < |Filtered(list, f)| && l < |Filtered(list, f)|
    ensures Filtered(Swapped(list, PassingPositions(list, f)[k], PassingPositions(list, f)[l]), f)
         == Swapped(Filtered(list, f), k, l)
  {
    var positions := PassingPositions(list, f);
    var out := Swapped(list, positions[k], positions[l]);
    SwapKeepsPassing(list, f, positions[k], positions[l]);
    FilteredPicks(list, f);
    FilteredPicks(out, f);
    SwapPicked(list, positions, Filtered(list, f), k, l, Filtered(out, f));
  }

  /** So a listing with a tie has another one in which the tied entries have changed places. */
  lemma TieSwaps(semantic: seq<ScoredMemory>, keyword: seq<ScoredMemory>, f: FilterSet, list: seq<ScoredMemory>, p: nat)
    requires IsListed(semantic, keyword, f, list) && 0 < p < |list| && list[p - 1].rrfScore == list[p].rrfScore
    ensures IsListed(semantic, keyword, f, Swapped(list, p - 1, p))
  {
    var fused :| IsFusion(semantic, keyword, fused) && list == Filtered(fused, f);
    FilteredPicksPassing(fused, f);
    var positions := PassingPositions(fused, f);
    SwapIsFusion(semantic, keyword, fused, positions[p - 1], positions[p]);
    SwapFiltered(fused, f, p - 1, p);
  }

  /** What two pages of a walk share is returned twice. */
  lemma {:induction false} SharedIsRepeated(walk: seq<seq<ScoredMemory>>, limit: nat, i: nat, j: nat, id: Uuid)
    requires i < j < |walk|
    requires id in Ids(Page(walk[i], Offset(i, limit), limit)) && id in Ids(Page(walk[j], Offset(j, limit), limit))
    ensures !DistinctIds(Walked(walk, limit))
  {
    var k := |walk| - 1;
    var front, last := walk[..k], Page(walk[k], Offset(k, limit), limit);
    if DistinctIds(Walked(walk, limit)) {
      DistinctParts(Walked(front, limit), last);
      if j < k {
        SharedIsRepeated(front, limit, i, j, id);
      } else {
        PageIsWalked(front, limit, i, id);
      }
    }
  }

  lemma {:induction false} PageIsWalked(walk: seq<seq<ScoredMemory>>, limit: nat, i: nat, id: Uuid)
    requires i < |walk| && id in Ids(Page(walk[i], Offset(i, limit), limit))
    ensures id in Ids(Walked(walk, limit))
  {
    var k := |walk| - 1;
    AppendIds(Walked(walk[..k], limit), Page(walk[k], Offset(k, limit), limit));
    if i < k {
      PageIsWalked(walk[..k], limit, i, id);
    }
  }

  /** The page before p in one listing and the page after it in the other both return the entry before p. */
  lemma TieRepeats(list: seq<ScoredMemory>, offset: nat, limit: nat)
    requires limit >= 1 && offset + limit < |list|
    ensures var p := offset + limit;
            var id := list[p - 1].memory.id;
            id in Ids(Page(list, offset, limit)) && id in Ids(Page(Swapped(list, p - 1, p), p, limit))
  {
    var p := offset + limit;
    assert Page(list, offset, limit)[limit - 1] == list[p - 1];
    assert Page(Swapped(list, p - 1, p), p, limit)[0] == list[p - 1];
  }

  lemma {:induction false} BoundaryInside(page: nat, n: nat, limit: nat)
    requires 0 < Offset(page, limit) < Offset(n, limit)
    ensures 0 < page < n
  {
    if page > 0 && n > 0 && Offset(page - 1, limit) > 0 {
      BoundaryInside(page - 1, n - 1, limit);
    }
  }

  /** The walk that cuts one page from the list with the tied entries exchanged. */
  function SwappedWalk(list: seq<ScoredMemory>, page: nat, p: nat, n: nat): (walk: seq<seq<ScoredMemory>>)
    requires 0 < p < |list| && page < n
    ensures |walk| == n
    ensures forall i | 0 <= i < n :: walk[i] == if i == page then Swapped(list, p - 1, p) else list
  {
    seq(n, i => if i == page then Swapped(list, p - 1, p) else list)
  }

  lemma TiedPagesRepeat(walk: seq<seq<ScoredMemory>>, list: seq<ScoredMemory>, page: nat, limit: nat, p: nat)
    requires limit >= 1 && page + 1 < |walk| && p == Offset(page, limit) + limit && p < |list|
    requires walk[page] == list && walk[page + 1] == Swapped(list, p - 1, p)
    ensures !DistinctIds(Walked(walk, limit))
  {
    TieRepeats(list, Offset(page, limit), limit);
    assert Offset(page + 1, limit) == p;
    SharedIsRepeated(walk, limit, page, page + 1, list[p - 1].memory.id);
  }

  lemma SwappedWalkIsWalk(semantic: seq<ScoredMemory>, keyword: seq<ScoredMemory>, f: FilterSet,
                          list: seq<ScoredMemory>, page: nat, p: nat, n: nat)
    requires IsListed(semantic, keyword, f, list) && page < n && 0 < p < |list| && !Parted(list, p)
    ensures IsWalk(semantic, keyword, f, SwappedWalk(list, page, p, n))
  {
    ListedIsSorted(semantic, keyword, f, list);
    TieSwaps(semantic, keyword, f, list, p);
  }

  /** Some walk of n pages returns an entry twice. */
  lemma TiedWalk(semantic: seq<ScoredMemory>, keyword: seq<ScoredMemory>, f: FilterSet, list: seq<ScoredMemory>,
                 limit: nat, n: nat, page: nat) returns (walk: seq<seq<ScoredMemory>>)
    requires limit >= 1 && IsListed(semantic, keyword, f, list) && |list| <= Offset(n, limit)
    requires !PartedBefore(list, page, limit)
    ensures |walk| == n && IsWalk(semantic, keyword, f, walk) && !DistinctIds(Walked(walk, limit))
  {
    BoundaryInside(page, n, limit);
    walk := SwappedWalk(list, page, Offset(page, limit), n);
    SwappedWalkIsWalk(semantic, keyword, f, list, page, Offset(page, limit), n);
    TiedPagesRepeat(walk, list, page - 1, limit, Offset(page, limit));
  }

  /** Every walk of n pages, whichever way each of its executions breaks ties, returns each result once. */
  ghost predicate AllWalksReturnOnce(semantic: seq<ScoredMemory>, keyword: seq<ScoredMemory>, f: FilterSet,
                                     list: seq<ScoredMemory>, limit: nat, n: nat)
  {
    forall walk | IsWalk(semantic, keyword, f, walk) && |walk| == n :: ReturnsOnce(Walked(walk, limit), list)
  }

  /**
   * Enough pages to cover the results return each of them exactly once, whatever the executions
   * behind the pages, if and only if no tie straddles a page boundary. One execution's list is
   * enough to see it.
   */
  lemma WalksReturnOnceIff(semantic: seq<ScoredMemory>, keyword: seq<ScoredMemory>, f: FilterSet,
                           list: seq<ScoredMemory>, limit: nat, n: nat)
    requires limit >= 1 && IsListed(semantic, keyword, f, list) && |list| <= n * limit
    ensures AllWalksReturnOnce(semantic, keyword, f, list, limit, n) <==> PagesParted(list, limit)
  {
    OffsetIsProduct(n, limit);
    if PagesParted(list, limit) {
      forall walk | IsWalk(semantic, keyword, f, walk) && |walk| == n
        ensures ReturnsOnce(Walked(walk, limit), list)
      {
        WalkUpToTies(semantic, keyword, f, list, walk);
        WalkSoFar(walk, limit, list);
      }
    } else {
      var page: nat :| !PartedBefore(list, page, limit);
      var walk := TiedWalk(semantic, keyword, f, list, limit, n, page);
    }
  }

  const NO_FILTER := FilterSet([], 0.0, 0.0, None, None, false)

  lemma {:induction false} NothingFilteredOut(list: seq<ScoredMemory>)
    ensures Filtered(list, NO_FILTER) == list
  {
    if list != [] {
      NothingFilteredOut(list[..|list| - 1]);
    }
  }

  /** Two lists of one hit each fuse in either order. */
  lemma EitherOrder(a: ScoredMemory, b: ScoredMemory)
    requires a.memory.id != b.memory.id
    ensures Ids([a]) + Ids([b]) == {a.memory.id, b.memory.id}
    ensures var x, y := FusedEntry([a], [b], a.memory.id), FusedEntry([a], [b], b.memory.id);
            && x.memory == a.memory && y.memory == b.memory
            && IsFusion([a], [b], [x, y]) && IsFusion([a], [b], [y, x])
  {
    assert [a][0] == a && [b][0] == b;
    FindListed([a], b.memory.id);
    FindListed([b], a.memory.id);
    var x, y := FusedEntry([a], [b], a.memory.id), FusedEntry([a], [b], b.memory.id);
    assert Rank([a][..0], b.memory.id) == 0 && Rank([b][..0], a.memory.id) == 0;
    assert x.rrfScore == Contribution(1) && y.rrfScore == Contribution(1);
    assert [x, y][0] == x && [x, y][1] == y && [y, x][0] == y && [y, x][1] == x;
  }

  lemma OneResult(fused: seq<ScoredMemory>, offset: nat)
    requires offset < |fused|
    ensures Memories(Page(Filtered(fused, NO_FILTER), offset, 1)) == [fused[offset].memory]
    ensures |Filtered(fused, NO_FILTER)| == |fused|
  {
    NothingFilteredOut(fused);
    assert Page(fused, offset, 1) == [fused[offset]];
  }

  lemma OnePage(semantic: seq<ScoredMemory>, keyword: seq<ScoredMemory>, fused: seq<ScoredMemory>, offset: nat)
    requires IsFusion(semantic, keyword, fused) && offset < |fused|
    ensures IsSearchResult(semantic, keyword, NO_FILTER, offset, 1, [fused[offset].memory], |fused|)
  {
    OneResult(fused, offset);
    assert IsListed(semantic, keyword, NO_FILTER, Filtered(fused, NO_FILTER));
  }

  /** Page 0 of the one order and page 1 of the other. */
  lemma PagesOfEitherOrder(a: ScoredMemory, b: ScoredMemory)
    requires a.memory.id != b.memory.id
    ensures IsSearchResult([a], [b], NO_FILTER, 0, 1, [a.memory], 2)
    ensures IsSearchResult([a], [b], NO_FILTER, 1, 1, [a.memory], 2)
  {
    EitherOrder(a, b);
    var x, y := FusedEntry([a], [b], a.memory.id), FusedEntry([a], [b], b.memory.id);
    OnePage([a], [b], [x, y], 0);
    OnePage([a], [b], [y, x], 1);
  }

  /** Two pages of one result each, over two lists of one hit each: both may return the first memory. */
  lemma BothPagesReturnTheSame()
    ensures var semantic, keyword := [Sample(0)], [Sample(1)];
            && IsSearchResult(semantic, keyword, NO_FILTER, 0, 1, [Sample(0).memory], 2)
            && IsSearchResult(semantic, keyword, NO_FILTER, 1, 1, [Sample(0).memory], 2)
  {
    NumberedUuidsDiffer(0, 1);
    PagesOfEitherOrder(Sample(0), Sample(1));
  }
}
