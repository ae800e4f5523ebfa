/**
 * The "latest" sorted set: members ranked by score and then by name, trimmed to the best n after
 * every addition. When trimming as one goes agrees with trimming once at the end is stated exactly.
 */
module LatestIndex {
  import opened Prelude

  type Scores = map<string, int>

  /** Byte-wise lexicographic order, as the sorted set breaks ties between equal scores. */
  predicate LexLess(a: string, b: string) {
    if b == "" then false
    else if a == "" then true
    else if a[0] != b[0] then a[0] < b[0]
    else LexLess(a[1..], b[1..])
  }

  lemma {:induction false} LexTransitive(a: string, b: string, c: string)
    requires LexLess(a, b) && LexLess(b, c)
    ensures LexLess(a, c)
  {
    if a != "" && a[0] == b[0] && b[0] == c[0] {
      LexTransitive(a[1..], b[1..], c[1..]);
    }
  }

  lemma {:induction false} LexTotal(a: string, b: string)
    ensures LexLess(a, b) || LexLess(b, a) || a == b
    ensures !(LexLess(a, b) && LexLess(b, a)) && !LexLess(a, a)
  {
    if a != "" {
      LexTotal(a[1..], a[1..]);
      if b != "" && a[0] == b[0] {
        LexTotal(a[1..], b[1..]);
        assert a == [a[0]] + a[1..] && b == [b[0]] + b[1..];
      }
    }
  }

  /** Member x at score r ranks above member y at score s. */
  predicate Outranks(r: int, x: string, s: int, y: string) {
    r > s || (r == s && LexLess(y, x))
  }

  function Above(z: Scores, x: string): set<string>
    requires x in z
  {
    set y | y in z && Outranks(z[y], y, z[x], x)
  }

  /** The n best members: those with fewer than n others above them. */
  function Best(z: Scores, n: nat): Scores {
    map x | x in z && |Above(z, x)| < n :: z[x]
  }

  lemma AboveTransitive(z: Scores, x: string, y: string)
    requires x in z && y in z && y in Above(z, x)
    ensures Above(z, y) <= Above(z, x) && y !in Above(z, y)
    ensures |Above(z, y)| < |Above(z, x)|
  {
    LexTotal(y, y);
    forall w | w in Above(z, y) ensures w in Above(z, x) {
      if z[w] == z[y] == z[x] { LexTransitive(x, y, w); }
    }
    SubsetSize(Above(z, y) + {y}, Above(z, x));
  }

  /** Any non-empty group of members has a lowest one. */
  lemma {:induction false} Lowest(z: Scores, group: set<string>) returns (low: string)
    requires group != {} && group <= z.Keys
    ensures low in group && group - {low} <= Above(z, low)
  {
    var x :| x in group;
    if group == {x} {
      low := x;
    } else {
      var rest := group - {x};
      var candidate := Lowest(z, rest);
      LexTotal(x, candidate);
      if Outranks(z[x], x, z[candidate], candidate) {
        low := candidate;
      } else {
        low := x;
        forall y | y in rest ensures y in Above(z, x) {
          if y != candidate {
            assert y in rest - {candidate};
            if z[y] == z[candidate] == z[x] { LexTransitive(x, candidate, y); }
          }
        }
      }
    }
  }

  /** A member with at least n members above it has n of the best members above it. */
  lemma {:induction false} BestAreAbove(z: Scores, n: nat, x: string)
    requires x in z && |Above(z, x)| >= n
    ensures |Above(z, x) * Best(z, n).Keys| >= n
    decreases |Above(z, x)|
  {
    var group := Above(z, x);
    if group != {} && n > 0 {
      var low := Lowest(z, group);
      AboveTransitive(z, x, low);
      SubsetSize(group, Above(z, low) + {low});
      if |group| == n {
        forall y | y in group ensures y in Best(z, n) {
          AboveTransitive(z, x, y);
        }
        assert group * Best(z, n).Keys == group;
      } else {
        BestAreAbove(z, n, low);
        SubsetSize(Above(z, low) * Best(z, n).Keys, group * Best(z, n).Keys);
      }
    }
  }

  /** Exactly n members survive, or all of them when there are no more than n. */
  lemma BestSize(z: Scores, n: nat)
    ensures |Best(z, n)| == if |z| <= n then |z| else n
    ensures |z| <= n ==> Best(z, n) == z
  {
    var best := Best(z, n).Keys;
    if z.Keys != {} {
      var low := Lowest(z, z.Keys);
      LexTotal(low, low);
      assert Above(z, low) == z.Keys - {low};
      if |z| <= n {
        forall x | x in z ensures x in best {
          if x != low { AboveTransitive(z, low, x); }
        }
        assert best == z.Keys;
      } else {
        BestAreAbove(z, n, low);
        SubsetSize(Above(z, low) * best, best);
        AtMost(z, n);
      }
    }
  }

  lemma AtMost(z: Scores, n: nat)
    ensures |Best(z, n).Keys| <= n
  {
    var best := Best(z, n).Keys;
    if best != {} {
      var low := Lowest(z, best);
      SubsetSize(best, Above(z, low) + {low});
    }
  }

  // ------------------------------------------------------------------ streaming

  /** If x is among the best, no trimmed member ranks above the score x now gets. */
  predicate NoTrimmedOvertakes(z: Scores, n: nat, x: string, score: int) {
    x in Best(z, n) ==> forall y <- z :: y !in Best(z, n) ==> !Outranks(z[y], y, score, x)
  }

  /** Members that make the final cut were never trimmed before. */
  lemma SurvivorsWereKept(z: Scores, n: nat, x: string, score: int, y: string)
    requires NoTrimmedOvertakes(z, n, x, score)
    requires y in Best(z[x := score], n) && y != x
    ensures y in Best(z, n)
  {
    if y !in Best(z, n) {
      LexTotal(x, y);
      if x in Above(z, y) {
        AboveTransitive(z, y, x);
        SubsetSize(Above(z, y) - {x}, Above(z[x := score], y));
      } else {
        SubsetSize(Above(z, y), Above(z[x := score], y));
      }
    }
  }

  lemma TrimmingIsHarmless(z: Scores, n: nat, x: string, score: int)
    requires NoTrimmedOvertakes(z, n, x, score)
    ensures Best(Best(z, n)[x := score], n) == Best(z[x := score], n)
  {
    var all, kept := z[x := score], Best(z, n)[x := score];
    forall y | y in Best(all, n) ensures y in Best(kept, n) {
      if y != x { SurvivorsWereKept(z, n, x, score, y); }
      SubsetSize(Above(kept, y), Above(all, y));
    }
    forall y | y in Best(kept, n) ensures y in Best(all, n) {
      if |Above(all, y)| >= n {
        BestAreAbove(all, n, y);
        forall w | w in Above(all, y) * Best(all, n).Keys ensures w in Above(kept, y) {
          if w != x { SurvivorsWereKept(z, n, x, score, w); }
        }
        SubsetSize(Above(all, y) * Best(all, n).Keys, Above(kept, y));
      }
    }
  }

  lemma TrimmingLoses(z: Scores, n: nat, x: string, score: int)
    requires !NoTrimmedOvertakes(z, n, x, score)
    ensures Best(Best(z, n)[x := score], n) != Best(z[x := score], n)
  {
    var all, kept := z[x := score], Best(z, n)[x := score];
    var y :| y in z && y !in Best(z, n) && Outranks(z[y], y, score, x);
    BestSize(z, n);
    assert kept.Keys == Best(z, n).Keys;
    BestSize(kept, n);
    if x in Best(all, n) {
      AboveTransitive(all, x, y);
      assert y in Best(all, n);
    }
  }

  /**
   * Trimming before an addition gives the same set as trimming only after it exactly when the
   * addition does not push a member of the set below one that was trimmed.
   */
  lemma TrimThenAdd(z: Scores, n: nat, x: string, score: int)
    ensures Best(Best(z, n)[x := score], n) == Best(z[x := score], n) <==> NoTrimmedOvertakes(z, n, x, score)
  {
    if NoTrimmedOvertakes(z, n, x, score) {
      TrimmingIsHarmless(z, n, x, score);
    } else {
      TrimmingLoses(z, n, x, score);
    }
  }

  /** A member that keeps its score, or gains, is never overtaken by a trimmed one. */
  lemma NotLoweredNotOvertaken(z: Scores, n: nat, x: string, score: int)
    requires x in z ==> z[x] <= score
    ensures NoTrimmedOvertakes(z, n, x, score)
  {
    if x in Best(z, n) {
      forall y | y in z && y !in Best(z, n) ensures !Outranks(z[y], y, score, x) {
        LexTotal(x, y);
        if y in Above(z, x) { AboveTransitive(z, x, y); }
      }
    }
  }
}
