/** What `ORDER BY .. DESC LIMIT .. OFFSET ..` may return for a multiset of rows. */
module SqlWindow {
  import opened Prelude

  /** The rows in descending key order; equal keys come in any order. */
  ghost predicate IsOrdering<T(!new)>(rows: multiset<T>, key: T -> int, out: seq<T>) {
    multiset(out) == rows && forall i, j | 0 <= i < j < |out| :: key(out[i]) >= key(out[j])
  }

  /** The part of an ordering that LIMIT and OFFSET let through. */
  function Window<T>(ordered: seq<T>, limit: Option<nat>, offset: nat): seq<T> {
    var rest := if offset < |ordered| then ordered[offset..] else [];
    if limit.Some? && limit.value < |rest| then rest[..limit.value] else rest
  }

  ghost predicate IsWindow<T(!new)>(rows: multiset<T>, key: T -> int, limit: Option<nat>, offset: nat, out: seq<T>) {
    exists ordered :: IsOrdering(rows, key, ordered) && out == Window(ordered, limit, offset)
  }

  /**
   * A window's size, order and membership, whichever ordering it was cut from: its rows are the
   * rows number offset, offset + 1, .. of all rows in descending order.
   */
  lemma WindowFacts<T(!new)>(rows: multiset<T>, key: T -> int, limit: Option<nat>, offset: nat, out: seq<T>)
    requires IsWindow(rows, key, limit, offset, out)
    ensures var left := if offset < |rows| then |rows| - offset else 0;
            |out| == if limit.Some? && limit.value < left then limit.value else left
    ensures forall i, j | 0 <= i < j < |out| :: key(out[i]) >= key(out[j])
    ensures forall x <- out :: x in rows
    ensures exists ordered: seq<T> ::
              && multiset(ordered) == rows
              && (forall i, j | 0 <= i < j < |ordered| :: key(ordered[i]) >= key(ordered[j]))
              && forall i | 0 <= i < |out| :: offset + i < |ordered| && out[i] == ordered[offset + i]
  {
    var ordered :| IsOrdering(rows, key, ordered) && out == Window(ordered, limit, offset);
    assert |multiset(ordered)| == |ordered|;
    forall x | x in out ensures x in rows {
      assert x in multiset(ordered);
    }
  }
}
