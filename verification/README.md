# Verified model of the Acumius core

Acumius gives agents a shared memory, a trust layer that scores them, and policies that say who
may do what. This project models the parts of it that keep state and proves what they promise
over every input, every run and every reachable state:

- **Trust ledger** (`SaturatingScore`, `TrustTables`, `LedgerRuns`, `TrustLedger`,
  `TrustOutcomes`): the agents,
  verifications, attestations and reputation-event tables. Three writers move one saturating
  score and a fourth recomputes it from row counts.
- **Hybrid search** (`RankFusion`, `HybridSearch`, `FusionOutcomes`, `SearchPaging`): reciprocal rank fusion of two
  ranked lists, metadata filters and paging, for every map iteration order and every order of ties.
- **Working memory** (`WorkingKeys`, `LatestIndex`, `WorkingStore`, `LatestOverflow`,
  `WorkingSearch`, `WorkingRecords`, `WorkingOutcomes`): records, id index and trimmed "latest" sets in one flat key
  space with expiry.
- **Policies** (`PolicyDecision`, `PolicyCache`, `PolicyService`, `PolicyOutcomes`): the deny-overrides decision and
  a read-through cache that expires after five minutes.
- **Platform** (`SqlWindow`, `MemoryTable`, `MemoryOutcomes`, `Platform`, `PlatformRuns`, `PlatformPartition`,
  `PlatformProjections`, `PlatformRevocation`): the soft-delete memories table, the storage router with its trust gate,
  and the right to be forgotten.
- **Audit log** (`AuditQuery`): the compiler from filters to SQL with numbered placeholders.

Each store is a class whose methods have the branches and the order of writes of the Go code,
proved equal to a function on the old state. Runs are sequences of those functions (or, where
the database leaves an order open, relations), and the main results are lemmas about all runs.
The `Outcomes` modules say
what the functions come to in terms of rows, texts, positions and seconds, without the functions'
own vocabulary. A transaction is one atomic step. Instants and durations are whole nanoseconds; `now` is a
parameter of every step, and fresh ids, faults and database answers are parameters too.

Where the documentation and the code disagree, the model follows the code:

- The policy document's evaluation flow says the first matching rule wins; the evaluator lets a
  deny override every allow. The two agree exactly when no rule denies or no matching allow stands
  before the first matching deny (`FirstMatchAgreesIff`); `FirstMatchDiffers` is a list of two
  rules on which they do not.
- The policy and architecture documents promise cache invalidation when a policy changes; the
  handler that saves policies never invalidates. `SaveLeavesCacheStale` says, from the saved policy
  and the rows before it, which saves leave a cached list stale; `BoundedStaleness` says how old a
  used list can get, and `DenyIgnoredFor299Seconds` is a run with a wrongly allowed request.
- The trust document's event table lists score changes that nothing in the code applies.

Facts about the code that the proofs bring out:

- Names that read the same when joined by a colon share their record keys (for one id only,
  `RecordKeysEqual`) and their latest keys (`LatestKeysEqual`); keys of different kinds never
  coincide.
- A working record whose names spell `:index:` is invisible to search (`RecordSkippedIff`), so
  every record in a namespace called `index` is (`IndexNamespaceIsSkipped`).
- An update to other names leaves the old record behind. It stays live, and is found by searches,
  until its own expiry, past a delete of its id as well (`MovedRecordOutlivesDelete`; over whole
  runs, `RunHoldsRecords` and `RetrievedOrLeftBehind`).
- Trimming the latest set at each store keeps the 1000 best of everything added exactly as long as
  no store dates a member below one already trimmed (`LatestIsBestOfAllIff`); a run of 1002 stores
  shows the failure (`OverflowRunIsInexact`).
- Two-list hits come first in every output exactly for limits up to 20
  (`DoubleHitsFirstUpToLimit20`).
- One id lies in both backends exactly when some write put it into one while the other held it
  (`InBothIffCollision`), and the router lets that happen (`TwoStoresCollide`).
- Deleting a tombstoned row succeeds again and renews its time. `Forget` leaves working memory to
  its own expiry (`ForgetIsExact`).
- Every page request fuses anew, and ties come out in any order. A walk through the pages returns
  each result once, whatever the executions, exactly when no tie straddles a page boundary
  (`WalksReturnOnceIff`); two lists of one hit each, read one result at a time, may return the same
  memory on both pages (`BothPagesReturnTheSame`).
- With a trust port no store that a forgotten agent signs is ever accepted (`ForgottenNeverSigns`).
  Its unsigned stores are accepted again once it has gained 100 points (`ForgottenUnsignedStore`),
  or once its score has been recalculated, because the rows still count
  (`RecalculationUndoesForget`). Forgetting an agent that is not registered changes nothing
  (`ForgetUnknownChangesNothing`).
- A signature binds the agent and the content, but not the id, type or namespace
  (`SignatureBindsContentOnly`), since the router verifies it for the nil UUID.
- `internal/api/router.go:52` builds its router without a trust port. Such a router checks no
  signature, so a forgotten agent's signed store succeeds there (`ForgottenStillStoresUntrusted`).

## Model

| member | source | states |
|---|---|---|
| SaturatingScore.NormalForm | internal/trust/reputation.go:79-86 | any number of saturating changes is one shift of the start score between two bounds that depend on the changes alone |
| SaturatingScore.MonotoneAndNonExpansive | internal/trust/reputation.go:79-86 | saturating changes keep the order of two start scores and never widen their gap |
| TrustTables.CalculateReputation | internal/trust/reputation.go:23-42 | the step-by-step score is the rounded, clamped formula, always in 0..1000 |
| TrustTables.ReputationMonotone | internal/trust/reputation.go:20-42 | better factors never lower the score, through rounding and clamping |
| TrustTables.RecalculateIdempotent | internal/trust/reputation.go:102-168 | recalculation ignores the stored score, and doing it twice is doing it once |
| TrustTables.DaysInactive | internal/trust/reputation.go:120-124 | the whole days that fit between last activity and now, never negative |
| LedgerRuns.ReachableWellFormed | migrations/000002_trust_layer.up.sql:25-31 | in every reachable state scores are in 0..1000, verifier and target differ and are registered, so the ignored lookup error cannot occur |
| LedgerRuns.StepMovesByDelta | internal/trust/verification.go:118-158 | each one- or two-sided clamp moves an agent by exactly its saturated change, with its activity time and nothing else in its row |
| LedgerRuns.RunNormalForm | internal/trust/reputation.go:79-98 | the score after any run is one clamped shift of the score before it |
| LedgerRuns.RunsKeepOrderAndGap | internal/trust/attestation.go:83-98 | two ledgers that differ in one score stay so over any run, in the same order and no further apart |
| LedgerRuns.Conservation | internal/trust/attestation.go:64-98 | score = 500 + 50 a completed verification + 25 an attestation + logged changes + what saturation cut off each change, in every run |
| LedgerRuns.UnclippedWithinBounds | internal/trust/reputation.go:81-86 | for an agent whose changes never leave 0..1000 saturation cuts nothing off |
| LedgerRuns.AccountingsCompared | internal/trust/reputation.go:102-168 | the recalculated score differs from the incremental one by the completion bonus, idle days, clipped points and unformulated events, and by nothing else |
| LedgerRuns.AccountingsAgree | internal/trust/reputation.go:102-168 | for an unclipped agent with penalty events only, recalculation gives clamp(score + 200 - days inactive) |
| LedgerRuns.SettledAtMostOnce | internal/trust/verification.go:95-113 | over every run a pending verification takes at most one verdict, its status records that verdict, and its parties never change |
| LedgerRuns.SettledForever | internal/trust/verification.go:95-97 | a settled verification never changes and takes no further verdict |
| LedgerRuns.VerdictPaysOnce | internal/trust/verification.go:118-158 | an accepted verdict pays exactly one agent, a refused one changes nothing |
| TrustOutcomes.AttestationIsSaved | internal/trust/attestation.go:43-99 | for a memory id spelled with or without hyphens, in either case, a registered agent and a signature: one row, and 25 points up to 1000 |
| TrustOutcomes.OwnIdsAreAttested | internal/trust/attestation.go:43-99 | so every UUID text the platform writes can be attested |
| TrustOutcomes.AttestationIsRefused | internal/trust/attestation.go:43-80 | refused without a change for an unknown agent, no signature, an id without 32 digits, or one with any other character |
| TrustOutcomes.RegistrationOutcome | internal/trust/registry.go:24-53 | succeeds exactly for a new DID with a key; a score of zero becomes 500 and a zero time the present; no other row changes |
| TrustOutcomes.UpdateOutcome | internal/trust/registry.go:78-98 | score and activity as given, everything else as before |
| TrustOutcomes.EventOutcome | internal/trust/reputation.go:53-99 | one event row and one score kept between 0 and 1000, or nothing for an unknown agent |
| TrustOutcomes.CreationOutcome | internal/trust/verification.go:41-68 | a pending row exactly between two different registered agents |
| TrustOutcomes.ReputationOutcome | internal/trust/reputation.go:23-42 | 500 + 200 times the completion rate + the weighted counts, rounded to the nearest whole number, between 0 and 1000 |
| TrustOutcomes.RecalculationOutcome | internal/trust/reputation.go:102-168 | 700 + 50, 25, -100 and -150 for each row of the four kinds - whole idle days, between 0 and 1000, counted on the rows themselves |
| TrustOutcomes.ScoresStayBetweenBounds | internal/trust/reputation.go:79-86 | in every run whose given scores lie between 0 and 1000 all scores do |
| RankFusion.FusionComesFromTable | internal/memory/search.go:214-228 | fused entries are the table rows of their ids when both lists are |
| RankFusion.SameScores | internal/memory/search.go:203-238 | any two executions return one entry for each id of either list and the same score at every position |
| RankFusion.FusionExists | internal/memory/search.go:182-241 | every two lists have an output, so statements about all outputs are about something |
| RankFusion.UntiedPositionsAgree | internal/memory/search.go:236-238 | an id with a score of its own has the same position in every execution |
| RankFusion.HigherScorePrecedes | internal/memory/search.go:236-238 | ids of different scores come out in the same order in every execution |
| RankFusion.UnanimityWins | internal/memory/search.go:183-212 | an id ranked above another by every list that knows the other comes out first |
| RankFusion.TwoRanksBeatRankOne | internal/memory/search.go:183-212 | two ranks r, s outscore a single first place exactly when (r-1)(s-1) < 3721 |
| RankFusion.DoubleHitPrecedesSingle | internal/memory/search.go:183-212 | an id in both lists with r + s <= 123 precedes every id in one list |
| RankFusion.DoubleHitsFirstUpToLimit20 | internal/memory/search.go:106-157 | with lists capped at three times the limit, in every output every two-list hit stands before every one-list hit, for all inputs exactly when the limit is at most 20 |
| FusionOutcomes.ScoreByPosition | internal/memory/search.go:183-212 | a result has 1/(61 + i) for each list that holds its id at position i, and nothing else |
| FusionOutcomes.BetterPlacedFirst | internal/memory/search.go:183-238 | of two hits of one list each, the one placed better in its list comes first, and equal places tie exactly |
| FusionOutcomes.OutputShape | internal/memory/search.go:203-238 | the output holds each id of either list once, by descending score |
| FusionOutcomes.CopyReturned | internal/memory/search.go:214-228 | the semantic copy of a memory is returned if there is one, but the keyword copy for the nil id |
| FusionOutcomes.FilterOutcome | internal/memory/search.go:243-284 | an entry passes exactly if it meets every filter that is set |
| FusionOutcomes.PageOutcome | internal/memory/search.go:59-70 | result k of a page is result offset + k of the list, up to the limit or the end |
| HybridSearch.SortByScore | internal/memory/search.go:236-238 | some permutation in non-increasing score order |
| HybridSearch.ReciprocalRankFusion | internal/memory/search.go:182-241 | one entry for each id of the union, with its summed score and its memory, sorted, in whatever order ids are visited |
| HybridSearch.ApplyFilters | internal/memory/search.go:243-284 | the subsequence of entries that pass every filter that is set |
| HybridSearch.FilteredPicksPassing | internal/memory/search.go:243-284 | the filtered list is the passing positions, each once, in order |
| HybridSearch.PageBoundsValid | internal/memory/search.go:59-68 | for every limit the queries accept, the slice is in bounds exactly when the offset is not negative |
| HybridSearch.PagesTile | internal/memory/search.go:59-70 | pages at 0, L, 2L, .. of one list put together are that list |
| HybridSearch.Search | internal/memory/search.go:56-77 | a page of the filtered fusion and its total, at most six times the limit; a negative limit is refused by the queries, a negative offset runs out of bounds |
| SearchPaging.ListedUpToTies | internal/memory/search.go:49-57 | all executions over the same two lists and filter page through the same entries, in the same order but for ties |
| SearchPaging.WalksReturnOnceIff | internal/memory/search.go:49-70 | pages 0 to n - 1, each cut from an execution of its own, return every filtered result exactly once in every walk if and only if no tie straddles a page boundary |
| SearchPaging.BothPagesReturnTheSame | internal/memory/search.go:49-70 | two lists of one hit each, limit 1: page 0 and page 1 may both return the first memory |
| WorkingKeys.RecordIsNotIndex | internal/memory/valkey_store.go:32-65 | no record key is an index key, for all namespaces and DIDs |
| WorkingKeys.LatestIsNeither | internal/memory/valkey_store.go:37-39 | no latest key is a record or index key |
| WorkingKeys.RecordKeysEqual | internal/memory/valkey_store.go:32-34 | record keys coincide exactly for one id under the same joined names |
| WorkingKeys.LatestKeysEqual | internal/memory/valkey_store.go:37-39 | latest keys coincide exactly for the same joined names |
| LatestIndex.BestSize | internal/memory/valkey_store.go:77-78 | the trim leaves all members or exactly the cap |
| LatestIndex.TrimThenAdd | internal/memory/valkey_store.go:71-78 | trimming before an addition changes nothing exactly when the addition does not put a member of the set below a trimmed one |
| LatestIndex.NotLoweredNotOvertaken | internal/memory/valkey_store.go:71-78 | a member that is new, keeps its score or gains is never put below a trimmed one |
| WorkingStore.ReachableSorted | internal/memory/valkey_store.go:71-78 | in every run a latest key holds a sorted set, so ZADD never fails on its kind |
| WorkingStore.PutIsAllOrNothing | internal/memory/valkey_store.go:42-81 | a store succeeds exactly for working memories with a positive expiry, and a refused one changes no key |
| WorkingStore.RetrieveRefinesLeases | internal/memory/valkey_store.go:84-109 | after every run Retrieve answers what one expiring slot for each id would |
| WorkingStore.LeaseIsLastWord | internal/memory/valkey_store.go:179-205 | the slot holds the last accepted memory (minus embedding) exactly while no delete follows it |
| WorkingStore.NeverPastValidUntil | internal/memory/valkey_store.go:54-57 | no memory is served at or after its ValidUntil |
| WorkingStore.InterruptedPut | internal/memory/valkey_store.go:59-69 | a store cut off between its writes shows the old or the new memory, and which one |
| WorkingStore.LatestIsBestOfAllIff | internal/memory/valkey_store.go:71-78 | over every run the latest set is, after every step, the 1000 best of everything ever added under its key exactly when no store puts a member below a trimmed one |
| WorkingStore.LatestIsBestOfAll | internal/memory/valkey_store.go:71-78 | in particular in every run in which no id comes back with an earlier creation second |
| LatestOverflow.OverflowRunIsInexact | internal/memory/valkey_store.go:71-78 | 1001 stores under one key, the last one stored again with an earlier date: the latest set is not the 1000 best |
| WorkingSearch.Search | internal/memory/valkey_store.go:112-170 | the first Limit matches of all scanned pages; with no positive limit, at most one match of the first page |
| WorkingSearch.MatchesAreListed | internal/memory/valkey_store.go:127-151 | the matches are exactly what the scanned keys contribute |
| WorkingSearch.StoredIsFound | internal/memory/valkey_store.go:112-170 | after any run, a memory its id holds is in every short answer whose scan met its key, unless its names spell the index mark |
| WorkingSearch.ShortAnswerIsComplete | internal/memory/valkey_store.go:153-162 | an answer shorter than the limit missed no scanned match |
| WorkingSearch.RecordSkippedIff | internal/memory/valkey_store.go:128-131 | a record is taken for bookkeeping exactly when its names spell the index mark |
| WorkingSearch.IndexNamespaceIsSkipped | internal/memory/valkey_store.go:128-131 | every record of a namespace called index is taken for bookkeeping, whatever the DID |
| WorkingRecords.RunHoldsRecords | internal/memory/valkey_store.go:42-69 | over every run each record key holds exactly the last record put under it, unless a delete whose live index entry pointed there came later |
| WorkingRecords.RecordIsLastWord | internal/memory/valkey_store.go:179-205 | said without recursion: a key holds a record exactly when some accepted store had the last word under that key |
| WorkingRecords.ScannedRecord | internal/memory/valkey_store.go:127-151 | so after every run a scan of a record key yields that record, if it is live, fits the query and is not taken for bookkeeping |
| WorkingRecords.RetrievedOrLeftBehind | internal/memory/valkey_store.go:84-109 | a live record is what Retrieve answers exactly when the id's live lease has the same joined names; otherwise only searches find it |
| WorkingRecords.MovedRecordOutlivesDelete | internal/memory/valkey_store.go:179-205 | after a store, a renaming update and a delete attempt the old record is live, and found by searches, exactly when the joined names differ and its own expiry has not come |
| WorkingOutcomes.ServedForItsSeconds | internal/memory/valkey_store.go:42-109 | if the last step on an id stored a working memory with k whole seconds to live, every run serves it for exactly k seconds |
| WorkingOutcomes.ServedForADay | internal/memory/valkey_store.go:21-59 | with the default expiry and no ValidUntil that is 86400 seconds |
| WorkingOutcomes.DeletedIsNotFound | internal/memory/valkey_store.go:179-201 | an id deleted last, or never stored, is not found |
| WorkingOutcomes.StoreNeedsASecond | internal/memory/valkey_store.go:42-62 | in every run a store succeeds exactly for a working memory with a second or more to live, and a refused one changes no key |
| WorkingOutcomes.LexLessMeans | internal/memory/valkey_store.go:77-78 | ties are ordered by the first differing character |
| WorkingOutcomes.AddedOutcome | internal/memory/valkey_store.go:71-75 | an id was added exactly if a store put it under the key, with the second of the last such store's CreatedAt |
| WorkingOutcomes.LatestOutcome | internal/memory/valkey_store.go:71-78 | in every run without lowered dates the latest set holds 1000 of all added ids, or all, each above every dropped one |
| WorkingOutcomes.MatchOutcome | internal/memory/valkey_store.go:127-151 | a key contributes its live record exactly if it is no bookkeeping key, the text occurs in the content and the namespace is asked for |
| WorkingOutcomes.RecordMatchesPattern | internal/memory/valkey_store.go:113-116 | every record matches the pattern a search in its namespace scans for |
| WorkingOutcomes.BookkeepingIsSkipped | internal/memory/valkey_store.go:128-131 | the keys of the index and of the latest sets are skipped |
| WorkingOutcomes.ScanOrder | internal/memory/valkey_store.go:127-151 | matches come in scan order, one for each time a matching key is scanned |
| WorkingOutcomes.PagesInOrder | internal/memory/valkey_store.go:120-162 | pages are scanned one after the other |
| WorkingOutcomes.AnswerOutcome | internal/memory/valkey_store.go:153-162 | the answer is the first Limit matches; without a positive limit, at most the first of one page |
| PolicyDecision.StringMatches | internal/policy/evaluator.go:139-146 | a wildcard or a case-insensitive equal is in the list |
| PolicyDecision.Decide | internal/policy/evaluator.go:50-81 | deny overrides: names the first denying policy, else the last allowing one, else the default reason |
| PolicyDecision.DecisionIsUnique | internal/policy/evaluator.go:50-81 | that description fixes the decision and its reason |
| PolicyDecision.AllowedIff | internal/policy/evaluator.go:58-81 | allowed exactly when some rule allows and none denies |
| PolicyDecision.RegroupingIsHarmless | internal/policy/evaluator.go:58-81 | permuting, duplicating or regrouping rules does not change what is allowed |
| PolicyDecision.FirstMatchAgreesIff | internal/policy/evaluator.go:50-81 | the documented first-match flow gives the evaluator's answer exactly when no rule denies or no matching allow stands before the first matching deny |
| PolicyDecision.FirstMatchDiffers | internal/policy/evaluator.go:50-81 | a policy of two rules that the evaluator denies and the documented flow allows |
| PolicyDecision.CheckPII | internal/policy/evaluator.go:91-106 | the most severe action any rule asks for, whatever the order |
| PolicyDecision.MostSevereIsUnique | internal/policy/evaluator.go:91-106 | so the action depends on the set of rules alone |
| PolicyOutcomes.FoldOutcome | internal/policy/evaluator.go:132-146 | texts match if they are equal but for the case of ASCII letters |
| PolicyOutcomes.DecisionOutcome | internal/policy/evaluator.go:50-81 | names the first policy with a deny rule for the action, type and namespace, else the last with such an allow, else the default reason |
| PolicyOutcomes.PIIOutcome | internal/policy/evaluator.go:91-106 | block if some rule names the type and blocks, else redact if one redacts, else allow |
| PolicyOutcomes.ServedFor300Seconds | internal/policy/cache.go:26-62 | a cached list that is not empty is served for exactly 300 seconds |
| PolicyOutcomes.FetchedIsServedNext | internal/policy/evaluator.go:118-128 | a list read and cached in one instant is what the next evaluation is served |
| PolicyOutcomes.InvalidateOutcome | internal/policy/cache.go:70-77 | after an invalidation nothing is served for the agent, and other entries stay |
| PolicyOutcomes.ListedOutcome | internal/policy/postgres_store.go:23-54 | a list holds exactly the rows that name the agent, each once |
| PolicyOutcomes.SaveOutcome | internal/policy/postgres_store.go:57-78 | a new row for a registered agent, or new version, rules and time of update of a known one |
| PolicyOutcomes.ForgetOutcome | internal/gdpr/gdpr.go:34-38 | exactly the rows that name the agent are deleted |
| PolicyCache.BoundedStaleness | internal/policy/cache.go:26-68 | in every interleaving a list used at time t was held by the table within (t - 300s - write delay, t], in literal nanoseconds |
| PolicyCache.ForgottenIsDenied | internal/gdpr/gdpr.go:34-38 | 300s plus the write delay after Forget, without a save naming the agent, every evaluation is denied |
| PolicyCache.ForgetKeepsOthers | internal/gdpr/gdpr.go:34-38 | Forget leaves the lists any other agent's evaluation may use as they were |
| PolicyCache.FirstPolicySeen | internal/policy/evaluator.go:111-116 | for an agent that had no rows and has not been read for since, the next evaluation reads the table and uses its current list, whatever was saved meanwhile, since empty lists are never served from the cache |
| PolicyCache.UnchangedRowsStayCurrent | internal/policy/evaluator.go:109-130 | from its first policy on, an agent's evaluations use the current list as long as its own rows stay as they are, whatever is saved for others |
| PolicyCache.QuietRowsAreCurrent | internal/policy/cache.go:26-68 | once an agent's rows have been the same for 300s plus the write delay, its evaluations use the current list |
| PolicyCache.SaveKeepsOwners | internal/policy/postgres_store.go:63-68 | a save on a known id never changes the row's owner |
| PolicyCache.SaveLeavesCacheStale | internal/api/policy_handlers.go:36-42 | a current cached list survives a save, and goes stale exactly when the saved policy changes a row of the agent or adds one for it |
| PolicyCache.DenyIgnoredFor299Seconds | internal/api/policy_handlers.go:36-42 | a run in which every request is allowed 299 seconds after a saved deny that the table's own list applies |
| MemoryTable.ReadsSeeWrites | internal/memory/postgres_store.go:29-155 | what each write makes readable, and that no other row is touched |
| MemoryTable.TombstonesAreInvisible | internal/memory/postgres_store.go:164-215 | a tombstoned row is not retrieved, listed, exported or expired |
| MemoryOutcomes.WireOutcome | internal/memory/types.go:55-69 | through JSON only the embedding is lost, and absent content becomes null |
| MemoryOutcomes.ReadOutcome | internal/memory/postgres_store.go:124-155 | a row is read exactly while it is not deleted, with every column but the embedding |
| MemoryOutcomes.InsertOutcome | migrations/000003_memory_engine.up.sql:7-21 | an insert succeeds exactly for a new id, a persistent type, a vector of 1536 numbers or none, a known agent and a known source |
| MemoryOutcomes.UpdateOutcome | internal/memory/postgres_store.go:65-104 | an update rewrites exactly one live row, but for its time of creation |
| MemoryOutcomes.DeleteOutcome | internal/memory/postgres_store.go:106-122 | a delete dates any row there is |
| MemoryOutcomes.RectifyOutcome | internal/gdpr/gdpr.go:86-99 | a correction replaces content and time of update of a live row |
| MemoryOutcomes.ForgetRowsOutcome | internal/gdpr/gdpr.go:28-32 | a row is marked exactly if it is live and of the agent, whatever its type |
| MemoryOutcomes.ExportOutcome | internal/gdpr/gdpr.go:50-76 | an export has an entry exactly for each live row of the agent, with its columns |
| MemoryOutcomes.ExpireOutcome | internal/memory/postgres_store.go:222-230 | exactly the live rows whose ValidUntil is before the given time are marked and counted |
| MemoryOutcomes.ListingOutcome | internal/memory/postgres_store.go:164-205 | the newest live rows of the namespace and types after the offset, up to the limit |
| Platform.PayloadInjective | internal/trust/attestation.go:30-32 | a signed payload determines the UUID and the content |
| PlatformRuns.LatestStaysSorted | internal/memory/valkey_store.go:71-78 | in every reachable platform state the latest keys hold sorted sets |
| PlatformRuns.FailedStoreChangesNothing | internal/memory/router.go:37-92 | in every reachable state a failed verified store changes neither ledger nor stores |
| PlatformRuns.StoredIsRetrievable | internal/memory/router.go:66-91 | a successful one returns the requested memory dated now, is read back under its type, touches no other backend, and logs a memory_store event of 5 points |
| PlatformRuns.ReadsSeeRoutedWrites | internal/memory/router.go:94-120 | under one type a successful store or update is read back and a successful delete no longer is; the other backend, the ledger and the policies are left alone |
| PlatformRuns.GateOutcome | internal/memory/router.go:39-64 | refused: unknown agents, signatures that are not by a 32-byte key over the nil UUID, a colon and the content, and scores below 100 |
| PlatformRuns.TombstonesArePermanent | internal/memory/postgres_store.go:65-122 | over every run tombstones stay, their contents frozen |
| PlatformRuns.InsertsAreSuccesses | internal/memory/postgres_store.go:29-63 | rows are inserted exactly by successful stores of a persistent type |
| PlatformRuns.NothingIsLost | internal/memory/postgres_store.go:29-122 | over every run live rows plus tombstones are the rows inserted |
| PlatformRuns.ExpireCountsAddUp | internal/memory/postgres_store.go:222-230 | over every run the returned counts sum to the number of distinct rows expired |
| PlatformPartition.TypesStayApart | internal/memory/router.go:29-34 | over every run Postgres holds only persistent types and Valkey only working memories |
| PlatformPartition.ServedByItsBackend | internal/memory/router.go:117-120 | so in every reachable state a read under a type answers with a memory of that type's backend |
| PlatformPartition.InBothIffCollision | internal/memory/router.go:94-114 | over every run both backends hold an id at some moment exactly when a successful write put it into one while the other held it |
| PlatformPartition.TwoStoresCollide | internal/memory/router.go:94-102 | storing one id as working and then as episodic memory is accepted and puts it into both |
| PlatformProjections.LedgerProjection | internal/trust/port_adapter.go:77-79 | seen from the ledger, every platform run is a ledger run |
| PlatformProjections.PlatformConservation | internal/memory/router.go:86-89 | the conservation law holds through every platform run that neither forgets the agent nor overwrites its score |
| PlatformProjections.WriteNeedsEarnedHundred | internal/memory/router.go:39-91 | in every run that leaves the agent's score to its writers, a store through the gate succeeds exactly when the agent's rows, plus what saturation cut off, account for 100 points, its signature verifies and the backend takes the memory |
| PlatformProjections.UnclippedWriteNeedsEarnedHundred | internal/memory/router.go:39-91 | for an agent whose changes never leave 0..1000, exactly when its rows alone are worth 100 points |
| PlatformProjections.WorkingProjection | internal/memory/router.go:94-114 | seen from working memory, every platform run is a run of the working store |
| PlatformProjections.RouterRefinesLeases | internal/memory/router.go:117-120 | after every platform run the router's Retrieve answers what one expiring slot for each id holds |
| PlatformRevocation.ForgetIsExact | internal/gdpr/gdpr.go:28-44 | every live memory of the agent is marked whatever its type, its policies are deleted, its key is empty and its score 0; nothing else changes |
| PlatformRevocation.ForgottenIsUnreadable | internal/gdpr/gdpr.go:28-32 | right after Forget no read returns a persistent memory of the agent and its export is empty |
| PlatformRevocation.ForgetUnknownChangesNothing | internal/gdpr/gdpr.go:28-44 | in every reachable state, forgetting an agent that is not registered changes nothing |
| PlatformRevocation.ForgottenNeverSigns | internal/gdpr/gdpr.go:41-44 | after Forget of a registered agent, whatever follows, a router with a trust port refuses every store it signs for its signature; a router without one makes it a plain store |
| PlatformRevocation.UnknownSignsAfterRegistering | internal/trust/registry.go:24-53 | an agent unknown when it was forgotten can register and then sign successfully |
| PlatformRevocation.ForgottenStillStoresUntrusted | internal/api/router.go:52 | without a trust port a forgotten agent's store of a new persistent memory succeeds under any signature and is read back |
| PlatformRevocation.ForgottenUnsignedStore | internal/memory/router.go:39-64 | after Forget an unsigned store passes exactly when the agent's saturated gains since, from 0, reach 100 and the backend takes the memory |
| PlatformRevocation.RecalculationUndoesForget | internal/trust/reputation.go:102-168 | after Forget and one recalculation it passes exactly when the rows from before Forget are worth 100 points |
| PlatformRevocation.SignatureBindsContentOnly | internal/memory/router.go:48-54 | a signature once accepted makes no difference to any later store of the same content by the agent, whatever id, type, namespace and metadata, until the agent is forgotten |
| SqlWindow.WindowFacts | internal/audit/logger.go:136-146 | a LIMIT/OFFSET window is the rows number offset, offset + 1, .. of all rows in descending order, whichever order ties take |
| AuditQuery.Compile | internal/audit/logger.go:89-146 | placeholders are 1..n in argument order and both queries select exactly by the filter |
| AuditQuery.AnswersMeanTheFilter | internal/audit/logger.go:131-146 | on one snapshot the total counts the rows that meet every condition set, and the page is their descending window of min(Limit, max(0, Total - Offset)) rows |
| TrustLedger.Ledger.Register | internal/trust/registry.go:24-53 | rejects empty or known agents, fills zero fields with defaults, writes one row and nothing else |
| TrustLedger.Ledger.Update | internal/trust/registry.go:78-98 | writes score and activity of an existing agent as given, never the key |
| TrustLedger.Ledger.LogEvent | internal/trust/reputation.go:53-99 | one event row and one clamped score, or nothing for an unknown agent |
| TrustLedger.Ledger.Recalculate | internal/trust/reputation.go:102-168 | stores and returns the score of the row counts |
| TrustLedger.Ledger.SaveAttestation | internal/trust/attestation.go:43-99 | one attestation row and 25 points up to 1000, or an error (an id the UUID column does not read among them) and no change |
| TrustLedger.Ledger.SelectVerifier | internal/trust/verification.go:21-38 | another agent of the highest sufficient score, and none exactly when there is no candidate |
| TrustLedger.Ledger.CreateVerification | internal/trust/verification.go:41-68 | a pending row between two different registered agents, or an error and no change |
| TrustLedger.Ledger.SubmitVerificationResult | internal/trust/verification.go:73-161 | settles a pending row and pays one agent; anything else is refused without a change |
| TrustLedger.Ledger.Schedule | internal/api/trust_handlers.go:200-213 | succeeds exactly when the target is registered and a candidate exists, and then adds one pending row with a verifier of at least 500 |
| WorkingStore.ValkeyStore.constructor | internal/memory/valkey_store.go:21-29 | an empty store; a zero expiry means 24 hours |
| WorkingStore.ValkeyStore.Store | internal/memory/valkey_store.go:42-81 | the record, its index entry and the trimmed latest set, or an error |
| WorkingStore.ValkeyStore.Retrieve | internal/memory/valkey_store.go:84-109 | the record the index points to, while both live |
| WorkingStore.ValkeyStore.Delete | internal/memory/valkey_store.go:179-201 | removes the index entry and the record it points to |
| PolicyService.Evaluator.SavePolicy | internal/policy/postgres_store.go:57-78 | upsert as one step of the runs |
| PolicyService.Evaluator.ListPolicies | internal/policy/postgres_store.go:23-54 | every policy of the agent once |
| PolicyService.Evaluator.GetPolicies | internal/policy/evaluator.go:109-130 | served from the cache exactly while the entry is under 300 seconds old and not empty, else read from the table and written back, for every pattern of faults |
| PolicyService.Evaluator.Evaluate | internal/policy/evaluator.go:44-82 | the deny-overrides decision on the list used, denied when it cannot be read |
| PolicyService.Evaluator.CheckPIIFor | internal/policy/evaluator.go:85-107 | the most severe action on the list used, block when it cannot be read |
| MemoryTable.PostgresStore.Store | internal/memory/postgres_store.go:29-63 | one visible row, or an error when type, key or references do not fit |
| MemoryTable.PostgresStore.UpdateRow | internal/memory/postgres_store.go:65-104 | rewrites a visible row, keeping its creation time |
| MemoryTable.PostgresStore.DeleteRow | internal/memory/postgres_store.go:106-122 | marks the row, marked or not |
| MemoryTable.PostgresStore.Retrieve | internal/memory/postgres_store.go:124-155 | a visible row without its embedding |
| MemoryTable.PostgresStore.Expire | internal/memory/postgres_store.go:222-230 | marks the visible rows past their time and returns how many |
| MemoryTable.PostgresStore.RectifyRow | internal/gdpr/gdpr.go:86-99 | replaces the content of a visible row |
| MemoryTable.PostgresStore.Export | internal/gdpr/gdpr.go:50-76 | every visible row of the agent once, with its exported columns |
| Platform.Router.StoreMemory | internal/memory/router.go:95-102 | validates the type and writes to the backend of the type alone |
| Platform.Router.Update | internal/memory/router.go:105-108 | updates in the backend of the type |
| Platform.Router.Delete | internal/memory/router.go:111-114 | deletes in the backend of the type |
| Platform.Router.RetrieveMemory | internal/memory/router.go:117-120 | reads from the backend of the type |
| Platform.Router.StoreVerified | internal/memory/router.go:37-92 | gate, store, then a best-effort +5 event |
| Platform.Router.ForgetAgent | internal/gdpr/gdpr.go:21-47 | marks the agent's memories, deletes its policies, clears its key and score in one step |

## Left out

- HTTP handlers (but for scheduling a verification), middleware, configuration, MCP server and user interface: input and output around the modelled operations.
- Ed25519, base58, UUID generation, JSON and YAML: signature verification is an arbitrary predicate, a UUID is its 36-character text in lower-case hexadecimal digits, JSON loses the embedding and reads absent content as `null`, and content is taken as valid and compact.
- Interleavings inside one transaction and across the unlocked reads of `FetchFactorsAndRecalculate`: each is one atomic step. The policy cache is the exception; its late writes are modelled.
- SQL, vector distance, text rank and the SCAN cursor: ranked lists, row orders and key pages are arbitrary inputs. The text of SQL statements is not modelled, only clauses, placeholders and arguments.
- Database and connection failures, except the faults of the policy cache and table.
- Integer width: scores, limits and times are unbounded, so overflow of `Offset + Limit` or of the 32-bit score columns does not occur here.
- Floating point: fusion scores, confidences and the reputation formula are real numbers.
- Ids and times that nothing reads: keys of attestation and event rows, `DeletedAt` in the memory record, the fold of equal instants to microseconds in the database.
- `AgentRegistry.List`, `AttestationStore.Get` and `ListByMemory`, `VerificationStore.Get`, `Router.Search`, `Router.ListByNamespace`, `Redact`, `RedactPII`, `Ping`, and the Valkey `ListByNamespace` and `Expire`: lookups, concatenations and stubs that would add only easy members.
- Delegation and audit rules of policies, content validation, delegation, decay jobs and distillation: stored but not evaluated, settled by reading one branch, or not implemented.
- Asynchronous audit logging, and the decoding of NULL columns when audit rows are read.
- StringMatches: folds the case of ASCII letters only, where `EqualFold` folds all of Unicode.
- FailedStoreChangesNothing: does not cover a connection lost between the commands of a working-memory store; `InterruptedPut` says what is then visible.
- NeverPastValidUntil: reads the clock once for each store, so the delay between computing the expiry and the server applying it is not modelled.
- Export: returns the exported columns of each row, not their JSON rendering.
