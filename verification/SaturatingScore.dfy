/** The saturating arithmetic behind every reputation score. */
module SaturatingScore {

  const MIN_SCORE := 0
  const MAX_SCORE := 1000

  predicate InRange(x: int) {
    MIN_SCORE <= x <= MAX_SCORE
  }

  function Min(x: int, y: int): int {
    if x < y then x else y
  }

  function Max(x: int, y: int): int {
    if x < y then y else x
  }

  function Clamp(x: int): int {
    Min(MAX_SCORE, Max(MIN_SCORE, x))
  }

  function Sum(deltas: seq<int>): int {
    if deltas == [] then 0 else Sum(deltas[..|deltas| - 1]) + deltas[|deltas| - 1]
  }

  /** The score after applying the changes one by one, saturating after each of them. */
  function ApplyAll(x: int, deltas: seq<int>): int {
    if deltas == [] then x
    else Clamp(ApplyAll(x, deltas[..|deltas| - 1]) + deltas[|deltas| - 1])
  }

  /** A run of changes may be split anywhere. */
  lemma {:induction false} ApplyConcat(x: int, a: seq<int>, b: seq<int>)
    ensures ApplyAll(x, a + b) == ApplyAll(ApplyAll(x, a), b)
  {
    if b == [] {
      assert a + b == a;
    } else {
      var front := b[..|b| - 1];
      ApplyConcat(x, a, front);
      assert (a + b)[..|a + b| - 1] == a + front;
    }
  }

  /**
   * y is x moved by the sum of the changes and cut off at two bounds. The bounds are the images
   * of 0 and 1000 under the same changes, so they depend on the changes alone.
   */
  predicate ClampedShift(x: int, y: int, deltas: seq<int>) {
    var lo, hi := ApplyAll(MIN_SCORE, deltas), ApplyAll(MAX_SCORE, deltas);
    MIN_SCORE <= lo <= hi <= MAX_SCORE && y == Min(hi, Max(lo, x + Sum(deltas)))
  }

  /** Clamp normal form: any number of saturating changes is one shift between two bounds. */
  lemma {:induction false} NormalForm(x: int, deltas: seq<int>)
    requires InRange(x)
    ensures ClampedShift(x, ApplyAll(x, deltas), deltas)
  {
    if deltas != [] {
      NormalForm(x, deltas[..|deltas| - 1]);
    }
  }

  /** Saturating changes keep the order of two start scores and never widen the gap between them. */
  lemma MonotoneAndNonExpansive(x: int, y: int, deltas: seq<int>)
    requires InRange(x) && InRange(y) && x <= y
    ensures 0 <= ApplyAll(y, deltas) - ApplyAll(x, deltas) <= y - x
  {
  }
}
