# A verified model of the retrieval laboratory

This project models the algorithms and protocols inside Zenith's retrieval evaluation
(`backend/eval/`) and proves what their docstrings claim.  `dafny verify dfyconfig.toml` checks all
of it.

| file | what it models |
|---|---|
| `lock_budget.dfy` | the concurrent lock barrier, the lock-table sizing and the bracketed ladder |
| `coarse.dfy`, `dial.dfy` | coarse-to-fine retrieval in two stages, the rank count that replaces it, and the dial read off the ranks |
| `streaming.dfy`, `grouping.dfy`, `scale_run.dfy` | the virtual corpus, its streamed top-k, its group-major layout, and a whole rung put together |
| `dense_plan.dfy`, `dense_rows.dfy`, `sql.dfy`, `row_order.dfy`, `partition_rls.dfy` | row-level security, hash partitions, every arm of the rewritten dense query, what its answers are in the rows' own terms, what they do not depend on, and the partitions' own policies |
| `modulus.dfy` | the partition hash, widening, and its expectation over all placements |
| `drop_tables.dfy` | the batched teardown with its fallback |
| `manifest.dfy`, `toml.dfy`, `corpus.dfy` | the manifest rewriter, the reader of its TOML, and what one leaves for the other |
| `text.dfy`, `chunking.dfy`, `fusion.dfy`, `reach.dfy` | white space, sliding windows, reciprocal rank fusion, recall under narrowed reach |
| `label_shortlist.dfy`, `index_shape.dfy` | ranks in nested label pools, page geometry from a slope |
| `ranking.dfy`, `seqs.dfy`, `arith.dfy`, `strings.dfy`, `options.dfy` | what they share: the total order on scores and ids, filters, counts and order statistics, products and quotients |

Loops are methods with the loop the source has, each tied to a function of its inputs; the lemmas
are about that function.  The gate, the table catalogue and the partition catalogue are classes
whose methods change their fields.  Scores, weights, shares and similarities are exact reals where
the source has floats.  Everywhere a list is ordered by score the tie goes to the smaller id (or
the earlier index), which makes the order total; the source leaves most ties to the database.

## What the proofs turned up

- **The exact dial position can lie past the ladder rung** (`Dial.RoundingPicksARung`).
  `_required` compares a recall rounded to four decimals, the exact position does not: when 290 of
  the 310 ranks of thirty-one questions are within a rung it reports 0.9355 and holds the 0.9355
  target, while the exact position asks for a 291st.  Whether it can happen depends on the number
  of ranks and the target alone: never, for any questions and on any ladder, exactly when the
  largest count short of the target does not round up to it (`Dial.RungIsEnoughIff`).  Over 310
  ranks that fails for 0.9355 alone of the sweep's five targets; `coarse-scale.json` has such a row
  at one variant, rung 32 against an exact 33.  The other way round it cannot err
  (`PassedOverFallsShort`).
- **A corpus smaller than the depth is scored differently each time.**  `coarse.py` divides by
  `DEPTH`.  `coarse_scale.py` divides the real corpus's hits by the number of truth passages there
  are, so from three passages on (below that `_sweep` raises) the two agree at every position exactly
  when the corpus holds the depth (`Coarse.RecallsAgreeIff`, `ThreePassagesDiffer`).  A streamed rung
  always has `DEPTH` columns, and those no passage is left for name passage 0: its counts are the
  two-stage hits exactly when the corpus holds the depth, and above them by what is missing once
  that passage's group is open (`ScaleRun.RungAgreesIff`, `MeasureQuery`).
- **`record_checksums` loses facts** when an updated section has no line that is exactly `"""`: old
  facts are dropped and no new ones written (`Manifest.EachFactOnce`, `InlineWhyLosesFacts`,
  `Corpus.InlineIsNotRecorded`).
- **`record_checksums` reads prose as keys**: a line of `why` that begins like a fact is dropped
  under an updated id, and one that begins `id = ` changes whose facts follow
  (`Corpus.ProseIsDropped`, `FactsAreLost`).  Whatever its prose, a well-formed manifest still loads
  after recording; a document comes back as meant exactly when its entry is undisturbed, which can be
  seen in the entry and the updates (`Corpus.LoadAfterRecordIff`).
- **`k_required_for_95_percent` covers the whole part of 95%**, not 95%: it is enough for every list
  of n ranks exactly when twenty divides n, or n is one (`Shortlist.Covers95Iff`, `Covers95BySize`,
  `HalfCovered`).
- **A kept table can be dropped**: CASCADE takes a kept partition of a parent that is not kept
  (`DropTables.CascadeTakesAKeptPartition`, `KeptSurviveIff`).
- **The connection-bounded setting is not always the least**: with prepared transactions enough of
  the table belongs to them for one lock less to do (`LockBudget.ConnectionBounded`,
  `PreparedShareCarriesOne`).  The docstring of `_sizing` says the slots must exceed `demand * C`; equality is enough, as the code has it
  (`VerdictIsCapacity`).
- **`agrees` is not proof of the geometry.**  Three things can go wrong, each under its own
  exact condition.  The recovery is right for every pair from `c * (2c - 1)`
  lists for an odd `c` and `c * (2c - 2)` for an even one (`IndexShape.RecoversFromIff`).  An
  agreement is never a wrong figure from `c * c` on, and one list short of it the probe reports
  `c + 1` and agrees (`AgreementIsTrueIff`, `AgreesWithTheWrongFigure`).  And a pair whose centroids
  fill the same pages raises on `round(inf)` (`FlatOverflows`).
- **Fusion has room to spare**: an id found by both halves outranks every id found by one exactly
  while rankings are at most `k + 1` long; the code uses 50 against 61 (`Fusion.BothFirstIff`).

## Model

| member | source | states |
|---|---|---|
| `LockBudget.Gate.Arrive` | backend/eval/lock_budget.py:692-695 | one arrival counts once and sets the event when the last expected one is in |
| `LockBudget.StepKeepsInv` | backend/eval/lock_budget.py:698-720 | connecting, taking a lock, failing, arriving, waking and rolling back each keep the capacity bound, the gate's count equal to the workers arrived, and no clean finish before the event |
| `LockBudget.RunKeepsInv` | backend/eval/lock_budget.py:698-720 | every state of every interleaving satisfies that invariant |
| `LockBudget.NoEarlyRelease` | backend/eval/lock_budget.py:677-695 | no transaction lets go cleanly until every one has acquired or failed |
| `LockBudget.ArrivesOnce` | backend/eval/lock_budget.py:698-720 | a worker that has arrived never arrives again; the counter moves by exactly the arrivals |
| `LockBudget.CompletedCount` | backend/eval/lock_budget.py:687-695 | every completed run ends with each worker counted exactly once |
| `LockBudget.AllHeldAtOnce` | backend/eval/lock_budget.py:677-685 | there is one state of the run in which every transaction that ends cleanly holds every lock it was to take |
| `LockBudget.Progress` | backend/eval/lock_budget.py:677-720 | no reachable state deadlocks |
| `LockBudget.RunsAreBounded` | backend/eval/lock_budget.py:698-720 | no interleaving is longer than the work there was, so every run ends |
| `LockBudget.Completes` | backend/eval/lock_budget.py:740-747 | any run extends to one in which every worker has finished, adding no spurious failure |
| `LockBudget.EnoughNeverExhausts` | backend/eval/lock_budget.py:1051-1053 | with a slot for every lock anyone can want, no step of any interleaving finds the table full |
| `LockBudget.VerdictIsCapacity` | backend/eval/lock_budget.py:723-751 | a completed run with no other error is clean if and only if the table holds every demand at once |
| `LockBudget.PoolBounded` | backend/eval/lock_budget.py:1110 | the negated floor division is the least setting whose nominal slots cover demand times concurrency |
| `LockBudget.SizedSettingIsSafe` | backend/eval/lock_budget.py:1110-1128 | at that setting or above, no run of at most C transactions of at most d locks each exhausts the table |
| `LockBudget.SmallerSettingFails` | backend/eval/lock_budget.py:1110-1128 | at any smaller setting every completed run of C transactions of d locks has a failure, and such a run exists |
| `LockBudget.ConnectionBounded` | backend/eval/lock_budget.py:1130-1139 | the demand itself always suffices for all connections, and is least exactly when the prepared share cannot carry one lock per backend |
| `LockBudget.PreparedShareCarriesOne` | backend/eval/lock_budget.py:1130-1139 | a demand and a prepared share for which one lock less would do |
| `LockBudget.RungVerdict` | backend/eval/lock_budget.py:749-751 | whatever the interleaving was, a rung is clean exactly when it fits the table and no worker met another error |
| `LockBudget.Concurrency` | backend/eval/lock_budget.py:723-781 | from the rungs' ends alone: each rung is listed once, under its own verdict and in ladder order; no clean rung is above the highest clean one and no broken one below the lowest, and each is one; every clean rung fits; with no other error the bracket brackets |
| `Ranking.SortedUnique` | backend/eval/coarse_scale.py:207-214 | a bag of items has one sorted form, so every ordering route returns the same list |
| `Ranking.PartitionThenSort` | backend/eval/coarse_scale.py:207-214 | selecting the k largest in any order and then sorting them is the top k of all |
| `Ranking.TopMember` | backend/eval/coarse_scale.py:207-214 | an item is in the top k exactly when fewer than k items are better |
| `Ranking.Survives` | backend/eval/coarse_scale.py:64-69 | an item of the top k is in the top k of a narrowed list exactly when it survives the narrowing |
| `Ranking.TopMerge` | backend/eval/coarse_scale.py:217-237 | the top of two blocks is the top of their two tops |
| `Ranking.PlaceInvertsArgSort` | backend/eval/coarse_scale.py:294-298 | the rank array is the inverse permutation of the order |
| `Coarse.PickedIsRank` | backend/eval/coarse.py:241-242 | a group is opened exactly when its coarse rank is within the dial |
| `Coarse.FoundIsRank` | backend/eval/coarse_scale.py:64-76 | a true neighbour is found by the two stages exactly when its group ranks within the dial |
| `Coarse.PickedIsNearest` | backend/eval/coarse.py:241-242 | no group left closed is nearer than one that is opened, and as many are opened as asked for |
| `Coarse.StagesAreNearest` | backend/eval/coarse.py:239-253 | in the passages' own similarities: the truth is the nearest of all of them, at most the depth, and what the two stages find the nearest of those whose group is opened |
| `Coarse.TwoStageIsRankCount` | backend/eval/coarse_scale.py:64-76 | the hits the two-stage query scores equal the truth ranks within the dial, for every corpus, grouping and dial |
| `Coarse.RecallsAgreeIff` | backend/eval/coarse_scale.py:793-795 | from three passages on, the two files report the same recall of a corpus at every dial position exactly when it holds the depth |
| `Coarse.ThreePassagesDiffer` | backend/eval/coarse.py:253 | a corpus of three passages on which they differ |
| `Coarse.AllOpenFindsAll` | backend/eval/coarse.py:239-253 | with every group open the two stages find the whole truth |
| `Coarse.ReadsAgree` | backend/eval/coarse_scale.py:315-322 | the running sum of group sizes along the coarse order is the number of passages the two-stage query rescans |
| `Coarse.RankGroups` | backend/eval/coarse_scale.py:294-297 | the array filled along the order holds every group's rank |
| `ScaleRun.RanksByGroup` | backend/eval/coarse_scale.py:287-299 | the returned ranks are the truth passages' group ranks, looked up through the member groups and sorted, none lost |
| `ScaleRun.StreamIsTruth` | backend/eval/coarse_scale.py:845-861 | the streamed top is the exact truth of the whole virtual corpus, and index 0 in every column no passage is left for |
| `ScaleRun.MeasureQuery` | backend/eval/coarse_scale.py:847-869 | the ranks a question ends with count, at every dial position, the neighbours the two-stage query would find, and the columns no passage is left for once the group of passage 0 is open |
| `ScaleRun.MeasureRung` | backend/eval/coarse_scale.py:844-869 | so for every question of the rung |
| `ScaleRun.RungAgreesIff` | backend/eval/coarse_scale.py:845-846 | those are the two-stage hits at every dial position exactly when the corpus holds the depth |
| `ScaleRun.Rung` | backend/eval/coarse_scale.py:837-887 | a whole rung: an arm for each rung of the ladder that fits, each figure rounded from the two-stage query's hits (and the missing columns, on a corpus below the depth) and rescanned passages, question by question, and each exact position the least at which they reach the target |
| `ScaleRun.StrikeOut` | backend/eval/coarse_scale.py:850-866 | the streamed fold of a probe at one more than the depth, struck at the probe's index and sorted, begins with the depth nearest of the others |
| `ScaleRun.Probe` | backend/eval/coarse_scale.py:847-867 | the similarity a probe's density is taken from is that of its depth-th nearest other passage |
| `Dial.PerfectAtWorstRank` | backend/eval/coarse_scale.py:335 | a question loses nothing exactly when the dial reaches its last rank |
| `Dial.MeanIsPooled` | backend/eval/coarse_scale.py:350-355 | mean recall over questions is the share of the pooled ranks within the dial |
| `Dial.NeedIsLeast` | backend/eval/coarse_scale.py:358 | the slack never changes the answer: the count asked for is the least whose share is the target |
| `Dial.ExactOpenIsLeast` | backend/eval/coarse_scale.py:355-362 | the order statistic is the smallest position whose mean recall reaches the target; absent only when none does |
| `Dial.MeasureArm` | backend/eval/coarse_scale.py:321-333 | one rung's figures: mean recall, worst question, perfect questions, mean passages read and the two fractions, each rounded to the nearest from the questions' own counts and reads |
| `Dial.Sweep` | backend/eval/coarse_scale.py:314-372 | an arm per rung no longer than the group count, and the exact position of every target |
| `Dial.ArmsAreTheRungs` | backend/eval/coarse_scale.py:317-319 | the arms are the ladder's rungs that fit, in order |
| `Dial.ArmsMean` | backend/eval/coarse_scale.py:326-331 | every arm of a sweep is so: its worst is no question's rounded recall too high and some question's exactly, its perfect ones are those whose last rank is within the dial |
| `Dial.WorstAndPerfect` | backend/eval/coarse_scale.py:327-328 | all questions are perfect exactly when the worst is |
| `Dial.Required` | backend/eval/coarse_scale.py:374-389 | the first arm that holds the target, and none only when no arm does |
| `Dial.NearestIsNearest` | backend/eval/coarse_scale.py:326-331 | a rounded figure is within half a unit of the exact one, and even at a tie |
| `Dial.RoundingHonestIff` | backend/eval/coarse_scale.py:326 | rounded recalls hold a target as the recalls do exactly when the largest count short of it does not round up to it |
| `Dial.PassedOverFallsShort` | backend/eval/coarse_scale.py:378 | a rung that reports less than the target is short of the exact position |
| `Dial.RungIsEnoughIff` | backend/eval/coarse_scale.py:345-389 | for a number of questions of a number of ranks, the picked rung is never short of the exact position, whatever the ranks, on the code's ladder or on any, exactly under that condition on the product and the target |
| `Dial.OnlyOneTargetIsRoundedTo` | backend/eval/coarse_scale.py:173 | for thirty-one questions of ten ranks it is so for every target but 0.9355 |
| `Dial.RoundingHarmless` | backend/eval/coarse_scale.py:326 | when the pool is no finer than four decimals, the rounded recall decides as the exact one does |
| `Dial.RoundingPicksARung` | backend/eval/coarse_scale.py:374-389 | thirty-one questions of ten ranks for which the code's ladder picks its rung at 2 and the exact position is 3 |
| `Streaming.IndexNamesVariant` | backend/eval/coarse_scale.py:429-445 | a merged index names, in the whole, the same passage it named in its block: towards the neighbour in the place of its variant, five to a neighbour |
| `Streaming.IndexNamesGroup` | backend/eval/coarse_scale.py:447-452 | its group is a group of its own variant, whose slice contains it |
| `Streaming.SizesCountMembers` | backend/eval/coarse_scale.py:447-463 | the tiled group sizes count the members of every group of the virtual corpus |
| `Streaming.MergeStep` | backend/eval/coarse_scale.py:217-237 | folding a block's top into the running top is the top of everything seen with the block added |
| `Streaming.Stream` | backend/eval/coarse_scale.py:853-862 | the variant loop returns the top of the sentinels and the whole virtual corpus |
| `Streaming.VirtualIsAt` | backend/eval/coarse_scale.py:435-445 | position i of the virtual corpus is what indexing it at i computes |
| `Streaming.StreamIsGlobalTop` | backend/eval/coarse_scale.py:845-863 | streamed top-k is the global top-k with distinct indices, sentinels gone once there are enough rows |
| `Grouping.MarkStarts` | backend/eval/coarse_scale.py:274 | the marks are where the group changes |
| `Grouping.StartsAreGroupMajor` | backend/eval/coarse_scale.py:265-275 | the marks are a layout the virtual corpus can be built on |
| `Grouping.SliceIsGroup` | backend/eval/coarse_scale.py:278-284 | in sorted rows the slice between two marks is exactly the rows of one group, so a slice pools what GROUP BY pools |
| `Grouping.SlicesApart` | backend/eval/coarse_scale.py:278-284 | no two slices are of the same group |
| `Sql.LiteralRoundTrip` | backend/eval/dense_plan_time.py:172-180 | no value can end its own literal; the server reads it back whole |
| `DensePlan.VisibleHas` | backend/eval/dense_plan_time.py:350-358 | what a statement sees is exactly the joined pairs both policies admit |
| `DenseRows.VisibleMeans` | backend/eval/dense_plan_time.py:350-358 | a session the policies bind is shown the joined pairs of its own tenant whose chunk has no label or one the session holds |
| `DenseRows.ShippedIsNearest` | backend/eval/dense_plan_time.py:385-392 | the shipped query returns such passages of the query's model and version, scored one less their distance, nearest first, as many as wanted, and leaves out none that is nearer than one it returns |
| `DenseRows.ScopedIsNearest` | backend/eval/dense_two_functions.py:308-322 | the scoped query returns the nearest of the passages in the documents named |
| `DenseRows.EachChunkOnce` | backend/eval/dense_plan_time.py:385-392 | no chunk is returned twice: of the embeddings of one chunk the model and version pick one |
| `DensePlan.RewritesPreserveMeaning` | backend/eval/dense_plan_time.py:380-442 | the local, the GUC and the dynamic form return the shipped form's list for every session the policies bind, a NULL tenant included |
| `DensePlan.ForcedNeverDecides` | backend/eval/dense_plan_time.py:443-457 | asked for any other tenant, or NULL, the forced form is empty; asked for the session's own it is what the policies alone return |
| `DensePlan.NoTenantNoRows` | backend/eval/dense_plan_time.py:988-1004 | with no tenant in the session every statement returns nothing |
| `DensePlan.NoForeignRows` | backend/eval/dense_plan_time.py:913-956 | no statement, whatever its condition, returns a row of another tenant, counted against the policy-free assignment |
| `DensePlan.PruningPreservesMeaning` | backend/eval/dense_plan_time.py:634-683 | reading only the partition the tenant hashes to, on both relations, gives the list of reading all |
| `DensePlan.RouteRoutes` | backend/eval/dense_plan_time.py:686-712 | a load leaves every row in the partition its tenant hashes to |
| `DensePlan.ModulusInvisible` | backend/eval/dense_plan_time.py:634-712 | the same rows loaded at any modulus answer every statement as the unpartitioned pair does |
| `DensePlan.PushDown` | backend/eval/dense_plan_time.py:380-394 | filtering the relations and joining is joining and filtering |
| `RowOrder.SameRowsSameAnswer` | backend/eval/dense_plan_time.py:380-394 | any statement's answer, for any session, is decided by which rows there are, not by how they are stored |
| `RowOrder.ModulusInvisibleToAll` | backend/eval/dense_plan_time.py:634-712 | loaded at any modulus every session, the owner's too, gets the unpartitioned answer |
| `RowOrder.QualifierPrunes` | backend/eval/dense_plan_time.py:396-412 | the local's qualifier alone justifies reading one partition, for the owner as for everyone |
| `DensePlan.ForcedOnOwnerSide` | backend/eval/dense_plan_time.py:443-457 | where no policy binds, asking for a tenant answers as that tenant's session holding every label in use would be, and asking for NULL with nothing: the qualifier supplies the tenant half and not the label half |
| `DensePlan.OwnerSide` | backend/eval/dense_plan_time.py:1017-1030 | so do the local, the GUC and the dynamic form, each by its own qualifier, on the tenant of the owner's session |
| `DensePlan.ScopedOnOwnerSide` | backend/eval/dense_two_functions.py:364-377 | and the scoped form, within the scope |
| `DensePlan.Isolation` | backend/eval/dense_plan_time.py:913-961 | off the diagonal of the grid nothing comes back and no cell is reported; on it every tenant gets all of its own |
| `DensePlan.InStep` | backend/eval/dense_two_functions.py:671-721 | given a scope that names every document the session reaches, the bare scoped form is the unscoped form |
| `DensePlan.OrIsThePair` | backend/eval/dense_two_functions.py:327-363 | the guarded form is the unscoped form on NULL and the bare form otherwise; the bare form on NULL is empty |
| `DensePlan.ScopedRewrite` | backend/eval/dense_two_functions.py:306-377 | the scoped rewrite is the scoped shipped form; a forced other tenant gets nothing whatever the scope |
| `DensePlan.ScopeGrantsNothing` | backend/eval/dense_two_functions.py:787-820 | a scope is not an access grant: every row is admitted by the policies and in a named document |
| `DensePlan.ScopeHidesNothing` | backend/eval/dense_two_functions.py:345-363 | a passage of the unscoped list in a document of the scope is in the scoped list |
| `PartitionRls.Catalog.Build` | backend/eval/dense_plan_time.py:656-681 | the batched loop creates every remainder once, each partition with the flag and its own policy |
| `PartitionRls.EmbGuardIff` | backend/eval/dense_plan_time.py:637-643 | a partition of the embeddings shows what its parent would if and only if it has the flag and a policy |
| `PartitionRls.ChkGuardIff` | backend/eval/dense_plan_time.py:637-643 | a partition of the chunks does so if and only if the policy is the one with labels |
| `PartitionRls.NamingPartitionsGrantsNothing` | backend/eval/dense_plan_time.py:634-683 | after building and any load, reading partitions by name shows exactly what the policies admit of the unpartitioned relations |
| `Modulus.CombinedIsWrapping` | backend/eval/modulus_cost.py:221-234 | the by-hand conversion is the only value below 2^64 congruent to the wrapped sum |
| `Modulus.Load` | backend/eval/modulus_cost.py:797-812 | routing row by row leaves each partition the rows of its residue |
| `Modulus.MeasureWidening` | backend/eval/modulus_cost.py:859-948 | after any load the counted, predicted and authoritative routes agree, the share is at most 1 and the widening at least 1 |
| `Modulus.RatioMeans` | backend/eval/modulus_cost.py:938-947 | each ratio is the quotient, and absent of nothing |
| `Modulus.ReachedIsHeld` | backend/eval/modulus_cost.py:957-970 | the rows a query reaches are what the expectation averages, at the placement the hash gives |
| `Modulus.NestedModuli` | backend/eval/modulus_cost.py:141 | when one modulus divides another, a query reaches no more rows at the finer one and never fewer than it owns |
| `Modulus.PartitionsSumToCorpus` | backend/eval/modulus_cost.py:797-812 | the partitions' row counts add up to the corpus |
| `Modulus.PlacementsComplete` | backend/eval/modulus_cost.py:957-970 | the placements averaged over are all of them, each once |
| `Modulus.ExpectedHeld` | backend/eval/modulus_cost.py:957-970 | summed over every placement of the others, a partition holds its own rows each time and everybody else's one time in P |
| `Modulus.ClosedFormIsMean` | backend/eval/modulus_cost.py:957-970 | the closed form is the average over every placement |
| `Modulus.ReachedHasFloor` | backend/eval/modulus_cost.py:965-968 | no modulus takes a tenant below its own share |
| `Modulus.TheRule` | backend/eval/modulus_cost.py:1077-1082 | the share reached is at most (1 + eps) times the tenant's own exactly when P is at least (1 - s) / (eps s) |
| `DropTables.DropPage` | backend/eval/modulus_cost.py:619-646 | dropping a page removes exactly the page's tables: CASCADE stays inside the batch |
| `DropTables.Catalog.List` | backend/eval/modulus_cost.py:628-639 | a page has at most BATCH names, ordinary tables first; one with fewer holds everything that is left |
| `DropTables.Catalog.DropEach` | backend/eval/modulus_cost.py:649-654 | the fallback is one statement a table, counts each it drops and stops at the first that fails |
| `DropTables.Catalog.DropTables` | backend/eval/modulus_cost.py:603-654 | for every pattern of failures it ends, with an exact count, nothing safe touched, no statement naming over BATCH tables, and nothing left or a failed single drop; when nothing fails there is one statement for every sixteen tables; no statement removes more than it names while no kept table hangs from a parent not kept |
| `DropTables.FinishedLeavesSafe` | backend/eval/modulus_cost.py:603-654 | a finished teardown leaves exactly the safe tables |
| `DropTables.KeptSurviveIff` | backend/eval/modulus_cost.py:626 | when the teardown finishes, every kept table has survived exactly when none hung from a parent not kept |
| `Manifest.RecordLine` | backend/eval/__main__.py:75-98 | one turn of the loop emits and steps as the machine does |
| `Manifest.RecordChecksums` | backend/eval/__main__.py:70-98 | the loop's output is the machine's run over all lines |
| `Manifest.LastWriteWins` | backend/eval/__main__.py:70-98 | on any lines, two passes are one pass with the later facts winning |
| `Manifest.IdempotentAndCommuting` | backend/eval/__main__.py:80-88 | recording twice is recording once; disjoint updates commute and combine |
| `Manifest.OnlyFactsChange` | backend/eval/__main__.py:70-98 | every line that is not a fact of an updated document comes out as it was, in order and under the same id |
| `Manifest.RecordIsSectionwise` | backend/eval/__main__.py:70-98 | the state machine is, section by section, dropping old facts and placing new ones; other sections are untouched |
| `Manifest.FactsFollowWhy` | backend/eval/__main__.py:90-94 | the three facts stand right behind the first bare closing delimiter, the digest quoted, then the pages, then the bytes; the section's other lines stay before and behind |
| `Manifest.EachFactOnce` | backend/eval/__main__.py:90-96 | an updated section holds each fact exactly once if it has a bare closing delimiter, and none if it has not |
| `Manifest.InlineWhyLosesFacts` | backend/eval/__main__.py:87-96 | an updated section with an inline why loses its page count and gets none |
| `Corpus.TextRecorded` | backend/eval/__main__.py:75-98 | prose through the loop loses the fact lines under an updated id and leaves its last id in force |
| `Corpus.RecordRendered` | backend/eval/__main__.py:70-98 | recording rewrites a manifest entry by entry, whatever the prose: that prose, and the facts of the id in force at the delimiter; an entry without a delimiter loses its facts |
| `Corpus.LoadRendered` | backend/eval/corpus.py:49-74 | loading a well-formed manifest, whatever its prose and with its reasons in a block or on one line, gives its entries in order; it is an error when there is none, or when one lacks a required key |
| `Corpus.FactsTwiceAreRefused` | backend/eval/__main__.py:80-86 | facts twice in one entry make the manifest unreadable, whatever follows |
| `Corpus.LoadAfterRecord` | backend/eval/corpus.py:49-74 | after recording it still loads, with no duplicate key, and every document is what recording left of its entry |
| `Corpus.LoadAfterRecordIff` | backend/eval/__main__.py:80-96 | a document comes back as meant exactly when no prose line like a fact stands under an updated id and the last id brings the entry's own facts; with its reason on one line, exactly when it is not updated |
| `Corpus.PlainProseIsUndisturbed` | backend/eval/__main__.py:90-91 | prose without a line like an id or a fact is never disturbed |
| `Corpus.ProseIsDropped` | backend/eval/__main__.py:87-88 | any prose line like a fact: the recorded manifest loads, and the document has lost the line |
| `Corpus.FactsAreLost` | backend/eval/__main__.py:76-78 | any prose line that names another document: the recorded manifest loads, and the document has no facts |
| `Corpus.InlineIsNotRecorded` | backend/eval/__main__.py:90-96 | any reason on one line: the recorded manifest loads, and the document has no facts |
| `Toml.DecimalRoundTrip` | backend/eval/__main__.py:94 | a recorded page or byte count reads back as the number |
| `Corpus.IdRoundTrip` | backend/eval/__main__.py:76-78 | the id cut out of an id line is the entry's id |
| `Text.NormaliseNormalises` | backend/eval/text.py:53-64 | normalising keeps every word in order with single blanks between, and is idempotent |
| `Text.NormalisedCharacters` | backend/eval/text.py:53-64 | no white space of Python's, listed code point by code point, is left but single blanks, and any run of it between two words is one blank |
| `Chunking.ChunkPage` | backend/eval/pipeline.py:57-66 | the while loop ends and returns the windows its filter keeps |
| `Chunking.ChunkDocument` | backend/eval/pipeline.py:46-67 | the chunks of all pages in order, numbered from 1 |
| `Chunking.ChunksAre` | backend/eval/pipeline.py:54-66 | in numbers: no chunk of a page under 40 characters; else chunk i is the 1200 characters from the 1000 i-th on, for as long as more than 200 are left |
| `Chunking.NoneFiltered` | backend/eval/pipeline.py:60-62 | on a normalised page of 40 characters or more the filter never fires |
| `Chunking.PageRebuilds` | backend/eval/pipeline.py:55-66 | the first chunk and every later one without its overlap are the page, for every raw page |
| `Chunking.ChunksFollow` | backend/eval/pipeline.py:58-66 | every later chunk is longer than the overlap and shares exactly that with the chunk before |
| `Chunking.NothingSplit` | backend/eval/pipeline.py:35-66 | no stretch of up to 201 characters is split between chunks |
| `Chunking.ChunksOfPage` | backend/eval/pipeline.py:47-53 | no chunk spans pages: those that carry a page's number are exactly that page's, in order |
| `Chunking.DocumentReadsBack` | backend/eval/pipeline.py:46-67 | every normalised page of 40 characters or more can be read back from the document's chunks |
| `Fusion.Accumulate` | backend/eval/pipeline.py:188-190 | the inner loop adds each position's weight to the dictionary |
| `Fusion.Fuse` | backend/eval/pipeline.py:180-191 | the result is the tally sorted by score, ties in insertion order |
| `Fusion.TallyIs` | backend/eval/pipeline.py:187-190 | the dictionary holds exactly the ids found, each with the sum over the rankings |
| `Fusion.ShareIs` | backend/eval/pipeline.py:188-190 | a ranking without duplicates gives the id at rank i exactly 1 / (k + i) |
| `Fusion.FusedIsUnion` | backend/eval/pipeline.py:191 | the result is the union of the rankings, each id once |
| `Fusion.HigherFirst` | backend/eval/pipeline.py:191 | the higher sum of reciprocal ranks comes first |
| `Fusion.TiesInOrderSeen` | backend/eval/pipeline.py:187-191 | of two ids with the same sum the one seen first comes first |
| `Fusion.Dominance` | backend/eval/pipeline.py:180-191 | an id ahead of another in every ranking that has the other precedes it, for any rankings and k |
| `Fusion.BothBeatsOne` | backend/eval/measure.py:72-74 | in two rankings of at most k + 1 ids, an id found by both precedes one found by one |
| `Fusion.BothFirstIff` | backend/eval/pipeline.py:180-191 | that holds for all rankings of at most n ids exactly when n is at most k + 1 |
| `Fusion.OneFusesToItself` | backend/eval/pipeline.py:180-191 | a duplicate-free ranking fused alone comes back as it was |
| `Reach.CorpusReach` | backend/eval/measure.py:124-137 | the share of headline questions whose expected page is in the exact top 50 of what is visible, 0 of none |
| `Reach.KeepIsNearest` | backend/eval/measure.py:122 | what is kept is the nearest whole number to the share of the documents, the even one of two, at least one and at most all |
| `Reach.HitsMeans` | backend/eval/measure.py:52-53 | a search hits exactly when a chunk it found stands in an expected document on an expected page |
| `Reach.UnansweredIsNoHit` | backend/eval/measure.py:132-135 | questions none of whose places is a chunk's count for nothing at any share |
| `Reach.CountsMean` | backend/eval/measure.py:124-136 | factual and cross-document questions are counted, and as hits those whose search hits |
| `Reach.RateMeans` | backend/eval/measure.py:137 | the report is the quotient, and 0 of nothing |
| `Reach.FoundMeans` | backend/eval/measure.py:133-134 | a question's search finds chunks of documents it may read, and every such chunk unless fifty are as similar |
| `Reach.VisibleSize` | backend/eval/measure.py:129-131 | a question sees exactly the kept number of documents, or those it needs when they are more |
| `Reach.FirstOthersAreVisible` | backend/eval/measure.py:129-131 | of the documents a question does not need it sees the first ones |
| `Reach.VisibleNested` | backend/eval/measure.py:129-131 | a smaller share is a smaller reach and never without a needed document |
| `Reach.SurvivesNarrowing` | backend/eval/pipeline.py:169-177 | what the exact search finds in the larger reach and the smaller contains, it finds in the smaller |
| `Reach.NarrowingLosesNoHit` | backend/eval/measure.py:104-137 | under exact search the reported reach never falls as the share falls |
| `Reach.RankOfFirstHit` | backend/eval/measure.py:56-62 | the rank is that of the first result in an expected document on an expected page, and decides the hit at every k |
| `Shortlist.Synthesise` | backend/eval/label_shortlist.py:232-243 | the first fresh names, as many as asked for, all of them for a count below one, or an error with how many there were |
| `Shortlist.FreshIsDistinct` | backend/eval/label_shortlist.py:187-188 | no two chosen names case-fold together |
| `Shortlist.FreshIsNew` | backend/eval/label_shortlist.py:187-188 | no chosen name case-folds onto a taken one |
| `Shortlist.FreshIsFirst` | backend/eval/label_shortlist.py:232-238 | the chosen names are in the candidates' order, each the first that folds as it does |
| `Shortlist.FreshCovers` | backend/eval/label_shortlist.py:232-238 | nothing fresh is passed over |
| `Shortlist.NamesAreCounted` | backend/eval/label_shortlist.py:239-243 | exactly as many as asked for, unless there are fewer |
| `Shortlist.RankPool` | backend/eval/label_shortlist.py:432-434 | the array filled in place is every label's rank |
| `Shortlist.Arm` | backend/eval/label_shortlist.py:430-447 | every chosen label's rank, each document's best, the covered documents, their recalls summed, and the misses |
| `Shortlist.ArmMeans` | backend/eval/label_shortlist.py:430-447 | an arm's ranks are every document's in turn; its covered documents are those with every label among the first k; its recalls are summed document by document; its misses are the ranks past k |
| `Shortlist.BestIsBest` | backend/eval/label_shortlist.py:437 | a document's best rank is one of its labels' and none of them ranks better |
| `Shortlist.MissesAndCovered` | backend/eval/label_shortlist.py:438-447 | the misses are the ranks past the shortlist, and all documents are covered exactly when there is none |
| `Shortlist.ShortlistIsRank` | backend/eval/label_shortlist.py:407-408 | a label is among the first k exactly when its rank is at most k |
| `Shortlist.LargerPoolsOnlyHurt` | backend/eval/label_shortlist.py:683-688 | extending pools by a suffix never raises a recall at any k, over labels, best or averaged, never covers a document more and never lowers the k that 95% takes |
| `Shortlist.WholePoolKeepsAll` | backend/eval/label_shortlist.py:477 | a shortlist as long as the pool keeps everything |
| `Shortlist.RequiredIsLeast` | backend/eval/label_shortlist.py:471 | the figure is the least k covering the whole part of 95% of the ranks |
| `Shortlist.Covers95Iff` | backend/eval/label_shortlist.py:468-471 | it covers 95% of them exactly when the ranks at the floor and the ceiling of 95% are equal |
| `Shortlist.Covers95BySize` | backend/eval/label_shortlist.py:471 | it does so for every list of n ranks exactly when twenty divides n, or n is one |
| `IndexShape.Recovers` | backend/eval/index_shape.py:366-369 | on the assumed layout, far enough apart, the rounded inverse slope is the true figure and the probe agrees |
| `IndexShape.MeasureMeans` | backend/eval/index_shape.py:366-369 | for any pages: the figure is the nearest to the inverse of the slope beyond one, at least one; there is none exactly without such a slope; the probe agrees exactly when both points have the assumed layout |
| `IndexShape.RecoversFromIff` | backend/eval/index_shape.py:366-369 | it does so for every pair that far apart exactly when the distance is at least the gap |
| `IndexShape.OneShort` | backend/eval/index_shape.py:368 | one list short of the gap it goes wrong |
| `IndexShape.NoFalseAgreement` | backend/eval/index_shape.py:369 | with the list counts a square of the figure apart, what the probe agrees on is the figure |
| `IndexShape.AgreesWithTheWrongFigure` | backend/eval/index_shape.py:369 | one list short, it agrees on the next figure up |
| `IndexShape.AgreementIsTrueIff` | backend/eval/index_shape.py:349-350 | an agreement is the truth for every pair that far apart exactly from the square on |
| `IndexShape.FlatOverflows` | backend/eval/index_shape.py:366-368 | no slope, and the code raises, exactly when both counts fill the same centroid pages |

## Left out

- Database, HTTP, embedding service and PDF calls, `EXPLAIN` parsing, timings, reports, the CLI: foreign or environmental.
- HNSW, IVF and ParadeDB scoring: scans are exact, as in the reference arms.
- The order among equal scores and the rounding of floats: scores are exact reals and ties go to the smaller id, so a float sum that reorders two nearly equal scores is not captured.
- The lock table growing into unreserved shared memory: the nominal capacity is used.  `connect()` succeeds, since the pool has a slot for each worker; a cancelled worker is not modelled.
- The plan cache: what a plan returns is modelled, not which plan runs, so the probes after nine calls on one backend are the same statement again.
- `uuid_hash_extended` is an arbitrary function to signed 64-bit integers; `satisfies_hash_partition` is 64-bit arithmetic that wraps, as the docstring of `_remainder` describes it.
- The drop of `dense_plan_time.py`, which lists once, and sub-partitioned tables.
- Eigendecomposition, cosines, Zipf weights and group means as vectors: a similarity is any real function, and a group is the slice its mean would pool.
- Dial.Sweep: the percentiles beside the arms, and the figures repeated at each exact position, are not in it.
- Streaming.Stream: one query; `ScaleRun.MeasureRung` and `ScaleRun.Rung` do all of them.
- Shortlist.Arm: document recalls are summed, where the report divides by their number; medians, the named misses and the random control are not in it.
- Modulus.MeasureWidening: its ratios are exact, not rounded.
- DensePlan.Isolation: the grid only; the counts after switching tenants on one backend are the same statement again.
- The whole of TOML: the reader takes the fragment the manifest is written in, one key a line with `why` the only multi-line string, and refuses what is outside it: a backslash, or a triple quote not on its own line.  The values of `url`, `category` and `difficulty` stay in their written form, and the final strip of `why` is not applied.
- File reading and writing around the rewriter, `splitlines` and the rename over the manifest: a manifest is its sequence of lines.
- `_crossing` and the scores of `index_shape.py`, and the slope between two lock rungs: easy members.
