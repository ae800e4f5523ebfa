/**
 * A concrete run on which the latest set loses its meaning: 1001 memories are stored, so one id is
 * trimmed, and then one of the others is stored again with an earlier creation time.
 */
module LatestOverflow {
  import opened Prelude
  import opened MemoryTypes
  import opened WorkingKeys
  import opened LatestIndex
  import opened WorkingStore

  /** Working memory number n, created at the given second. */
  function Sample(n: nat, second: int): Memory
    requires n < 4096
  {
    Memory(NumberedUuid(n), Working, "notes", "did:acumius:a", "{}", [], Metadata("", 0.0, [], [], []),
           None, None, None, second * NANOS_PER_SECOND, 0)
  }

  const LATEST := LatestKey("notes", "did:acumius:a")

  /** Memories 0 to n - 1, each created one second after the one before. */
  function Stores(n: nat): seq<Step>
    requires n <= 4096
  {
    if n == 0 then [] else Stores(n - 1) + [Step(PutOp(Sample(n - 1, n - 1)), 0)]
  }

  lemma SampleAdds(n: nat, second: int)
    requires n < 4096
    ensures AddsTo(DEFAULT_TTL, Step(PutOp(Sample(n, second)), 0), LATEST)
    ensures UnixSeconds(Sample(n, second).createdAt) == second
  {
  }

  /** The members after n stores: memory i at second i. */
  predicate HoldsFirst(z: Scores, n: nat)
    requires n <= 4096
  {
    && |z| == n
    && (forall x <- z :: 0 <= z[x] < n && x == NumberedUuid(z[x]))
    && (n > 0 ==> NumberedUuid(n - 1) in z && z[NumberedUuid(n - 1)] == n - 1)
  }

  lemma NextIsNew(z: Scores, n: nat)
    requires n < 4096 && HoldsFirst(z, n)
    ensures NumberedUuid(n) !in z
  {
    if NumberedUuid(n) in z {
      NumberedUuidsDiffer(z[NumberedUuid(n)], n);
    }
  }

  lemma OneMore(z: Scores, x: string, score: int)
    requires x !in z
    ensures |z[x := score]| == |z| + 1
  {
    assert z[x := score].Keys == z.Keys + {x};
  }

  lemma HoldsNext(z: Scores, n: nat)
    requires n < 4096 && HoldsFirst(z, n)
    ensures HoldsFirst(z[NumberedUuid(n) := n], n + 1)
  {
    NextIsNew(z, n);
    OneMore(z, NumberedUuid(n), n);
  }

  lemma {:induction false} StoresAdded(n: nat)
    requires n <= 4096
    ensures HoldsFirst(Added(DEFAULT_TTL, Stores(n), LATEST), n)
    ensures CreationNotLowered(DEFAULT_TTL, Stores(n), LATEST)
  {
    if n > 0 {
      StoresAdded(n - 1);
      SampleAdds(n - 1, n - 1);
      assert Stores(n)[..|Stores(n)| - 1] == Stores(n - 1);
      HoldsNext(Added(DEFAULT_TTL, Stores(n - 1), LATEST), n - 1);
    }
  }

  lemma {:induction false} StoresInOrder(n: nat)
    requires n <= 4096
    ensures ClockOrder(Stores(n), 0)
  {
    if n > 0 {
      StoresInOrder(n - 1);
      assert Stores(n)[..|Stores(n)| - 1] == Stores(n - 1);
    }
  }

  /** All 1001 stores, then memory 1000 again, dated one second before the epoch. */
  function OverflowRun(): seq<Step> {
    Stores(1001) + [Step(PutOp(Sample(1000, -1)), 0)]
  }

  /** A trim that drops anything leaves some member outside. */
  lemma SomeTrimmed(z: Scores, n: nat)
    requires |z| > n
    ensures exists y <- z :: y !in Best(z, n)
  {
    BestSize(z, n);
    var best := Best(z, n).Keys;
    assert best <= z.Keys && |z.Keys - best| == |z.Keys| - |best|;
    var y :| y in z.Keys - best;
    assert y in z;
  }

  lemma NewestIsFirst(z: Scores, n: nat)
    requires n < 4096 && HoldsFirst(z, n + 1)
    ensures NumberedUuid(n) in z && Above(z, NumberedUuid(n)) == {}
  {
    LexTotal(NumberedUuid(n), NumberedUuid(n));
  }

  /** The newest of more members than the trim keeps, dated before them all, falls below a trimmed one. */
  lemma LastIsOvertaken(z: Scores, n: nat)
    requires 0 < n < 4096 && HoldsFirst(z, n + 1)
    ensures !NoTrimmedOvertakes(z, n, NumberedUuid(n), -1)
  {
    NewestIsFirst(z, n);
    SomeTrimmed(z, n);
    var y :| y in z && y !in Best(z, n);
    assert Outranks(z[y], y, -1, NumberedUuid(n));
  }

  /** After this run the latest set is not the 1000 best of the 1001 memories added. */
  lemma OverflowRunIsInexact()
    ensures !LatestExact(DEFAULT_TTL, OverflowRun(), LATEST)
  {
    var front, run := Stores(1001), OverflowRun();
    StoresAdded(1001);
    StoresInOrder(1001);
    SampleAdds(1000, -1);
    assert run[..|run| - 1] == front;
    LatestIsBestOfAll(DEFAULT_TTL, front, 0, "notes", "did:acumius:a");
    LatestExactStep(DEFAULT_TTL, run, "notes", "did:acumius:a");
    LastIsOvertaken(Added(DEFAULT_TTL, front, LATEST), LATEST_SIZE);
  }
}
