# A verified model of the leaderboard service

The service takes scored events over HTTP, remembers their ids so that replays are ignored, queues
them, and lets a pool of workers turn them into scores.  Each talent keeps its best score in a treap
ordered by (score descending, id ascending), from which the service lists the best talents and ranks
single ones.  This project models that path in Dafny and proves what it keeps and what it promises.

`dafny verify dfyconfig.toml` checks everything.

## What is modelled, and how

**The treap store** (`Keys`, `Treaps`, `Shapes`, `Heights`, `Leaderboard`, `TreapNodes`, `Traversals`,
`TreapStore`; `Sequences` cuts and joins).  `TreapNodes` and `TreapStore` are the store as it lives in memory: nodes linked by
pointers and rewritten in place by rotations, insertion and deletion; records that nodes and the id
map alias and that an update overwrites between the removal and the insertion of its node.  Every
such method is proved to compute a function on the tree its nodes represent, and never to share a
node.  What those functions keep is proved on values: an insertion is one split at the new key, a
deletion is one merge of the target's subtrees, both keep the search order, the heap order and the
hashed priorities; every run of updates keeps exactly one key per talent, its best.

**Ranks** (`Ranks`, `TieRanks`, `Balance`, `Snapshots`).  The exchange sort and the grouping behind
competition ranks, the lists that carry them, the snapshot that publishes them, and the count that
stands in when a talent is not published yet.  `Snapshots` is a transition system in which updates,
the two halves of a refresh and the steps of lookups and lists interleave; `BestRecords` says what is
kept of a sequence of updates, and `SnapshotRuns` what lookups and lists owe to the updates before them.  `FinalRanking` says what is
listed in the end, in terms of the accepted events alone.

**Numbers** (`Float64`, `Rounding`, `FixedPoint`, `Scoring`).  `float64` is modelled by its values and by
rounding to nearest, ties to even (sections 4.3.1 and 6 of IEEE 754-2019), down to subnormals and up
to overflow; nothing about rounding is assumed.  Integers are unbounded, so the 64-bit wrap-around of
the priority hash is written out and `FixedPoint` proves that fixed-point scores fit an `int64`.

**The deduper** (`DedupeSpec`, `Dedupe`).  A map and a singly linked list whose nodes are reused
through a pool, proved to behave as a duplicate-free sequence of ids with a bound.

**The pipeline** (`EventQueue`, `Ingest`, `Pipeline`, `PipelineLaws`, `PipelineRuns`, `QueueBound`,
`Idempotence`, `Duplicates`; `Gathering` counts over agents).  The queue, one request, one event and a
worker's loop as methods on the objects they change; and the whole pipeline as a transition system in
which any number of handlers, forwarders and workers take atomic steps in any order, with closing and
cancellation at any time.

## Where the code and its documentation differ

The model follows the code.

- *The fallback rank.*  `countHigherRanked` returns at the target without visiting its left subtree
  (treapstore.go:337-340), so `calculateRank` falls short of the position by the size of that subtree;
  it is right if and only if the target's node has no left child (`Ranks.RankAsWritten`), that is, where
  neighbours differ in priority, if the one ahead has the greater (`Ranks.CountedRankIsRightIff`).  Two updates
  suffice for a wrong rank (`Ranks.FallbackRankCanBeWrong`).  The walk that also goes left is exact
  (same lemmas).  Nor is the position what a refresh publishes: that is the competition rank, and the
  count equals it if and only if the left subtree is as large as the number of talents tied ahead
  (`Ranks.CountedIsPublishedIff`).
- *Balance.*  docs/DATA_STRUCTURES.md:494 says that score-based priorities ensure logarithmic height,
  and line 529 that higher scores come higher in the tree.  Where the hash does not wrap around, higher
  scores do come higher, and exactly this turns the tree into a list
  (`Balance.UnwrappedScoresMakeAList`; `Balance.ClimbMakesAList` is a run of any length); where it
  wraps, they need not (`Ranks.FallbackRankCanBeWrong` has the better talent below the other).  Whether
  a height bound holds is decided by the priorities of the present keys: it does for every history if
  and only if no key is topped by more than that many (`Heights.WorstHistoryIff`), and where the shape
  is forced that is the height itself (`Heights.HeightOfRunIff`).
- *Determinism.*  treapstore.go:164-166 derives priorities from the keys so that the tree is
  deterministic.  It is a function of the best scores if and only if between any two equal priorities,
  in leaderboard order, stands a greater one (`Leaderboard.HistoryIndependentIffSeparated`).
- *Eviction.*  options.go:8 and docs/DATA_STRUCTURES.md:408 say last in, first out; the code evicts the
  oldest id (`DedupeSpec.NewestAreRemembered`, `DedupeSpec.WindowExactly`).
- *Idempotence.*  docs/readme.md:68 promises that duplicates are ignored.  They are, for ever, if and
  only if the deduper has no bound; with one, they are until `maxSize` further ids were recorded
  (`Idempotence.IdempotentIffUnbounded`, `DedupeSpec.WindowAtLeast`).
- *Duplicates.*  docs/ARCHITECTURE.md:294 explains the answer "duplicate" as "already processed".  The
  mark is set before the event is queued, so with two requests at a time the other may still give up:
  the answer is right in the end if and only if requests are served one at a time
  (`Duplicates.MisledIff`).
- *Rollback.*  Taking back the mark of a refused event does not bring back the id that recording it
  evicted (`DedupeSpec.UnrecordUndoesRecordIff`, `Ingest.Service.HandlePostEvent`).
- *Capacity.*  The capacity check and the send are not one step, so the queue can exceed its capacity if
  and only if its buffer is larger and two requests are served at once.  The service makes them equal
  (`QueueBound.OvershootIff`, `Ingest.Service.Start`).

## Modelling notes

- Ids are sequences of Unicode code points; for valid UTF-8 this orders them as Go orders the bytes.
- The two zeros of `float64` are one value.
- Recursive calls whose result is assigned to a child, and the steps of a rotation, are small methods of
  their own (`InsertLeft`, `RelinkRight`, `PullUpLeft`, ...); the sequence of assignments is unchanged.
- `EvictFIFO` performs the same assignments as taking back the id at the head, so both call `Unlink`.
- The node pool may hand out any of its nodes or a new one.
- A tree node always has a record; a nil record is not modelled.
- A map is iterated by repeatedly choosing some remaining key.
- `strconv.FormatFloat` is a parameter (`formatted`).  In the pipeline events carry the id of their
  request, which validation has made non-empty.
- Cancellation of a request context is a parameter of the calls that look at it.

## Model

| member | source | states |
|---|---|---|
| Keys.LessTotal | internal/adapters/repository/treapstore.go:130-142 | the leaderboard order is irreflexive, asymmetric and total: two keys that neither precedes are the same (score, id) |
| Keys.LessTransitive | internal/adapters/repository/treapstore.go:130-142 | and transitive |
| Keys.LexLessIff | internal/adapters/repository/treapstore.go:141 | ids are compared at their first difference, where one ends or has the smaller character: "talent-1" before "talent-10" |
| Keys.LessIff | internal/adapters/repository/treapstore.go:130-142 | a key comes before another if and only if its score is higher, or equal with the id smaller at the first difference |
| Keys.ScoreToPriority | internal/adapters/repository/treapstore.go:164-189 | wrapping to 64 bits after every operation gives the magnitude of one wrap of the exact unbounded sum, at most 2^63, so it fits a uint64 even when the sum wraps to the least int64 |
| Keys.WrapIsInt64 | internal/adapters/repository/treapstore.go:164-189 | wrapping keeps a value modulo 2^64 and brings it into the range of an int64 |
| Keys.PolynomialOfJoin | internal/adapters/repository/treapstore.go:175-180 | the hash of a single character is its code point, and what follows an id shifts its hash by that power of 31 |
| Keys.KnownPriorities | internal/adapters/repository/treapstore.go:164-189 | three priorities as numbers, one of them behind a wrapped sum |
| Treaps.RotationsKeepOrder | internal/adapters/repository/treapstore.go:144-162 | neither rotation changes the leaderboard order |
| Treaps.InsertIsSplitInsert | internal/adapters/repository/treapstore.go:191-208 | on a heap, inserting at a leaf and rotating up equals descending to where the new priority wins and splitting the subtree there once at the key; the top priority becomes the maximum of the two |
| Treaps.DeleteRootIsMerge | internal/adapters/repository/treapstore.go:210-236 | rotating the root down until a child is missing leaves exactly the merge of its two subtrees, with no assumption on the tree |
| Treaps.DeleteIsMergeDelete | internal/adapters/repository/treapstore.go:210-236 | deletion of any key equals replacing the node that search finds by the merge of its subtrees |
| Treaps.InsertKeepsTreap | internal/adapters/repository/treapstore.go:191-208 | inserting an absent key keeps search order, heap order and hashed priorities, and puts the key at its position in the leaderboard, everything else staying in order |
| Treaps.DeleteKeepsTreap | internal/adapters/repository/treapstore.go:210-236 | deletion takes exactly the given key out of the leaderboard order, or changes nothing when it is absent, and restores the heap although the target passes below smaller priorities |
| Treaps.TopAfterInsert | internal/adapters/repository/treapstore.go:191-208 | a new key comes to the root only over a smaller priority: of a tie the older stays above |
| Treaps.TopAfterDelete | internal/adapters/repository/treapstore.go:210-236 | of a deleted root's children the one of greater priority takes its place, of a tie the right one |
| Shapes.TreapUnique | internal/adapters/repository/treapstore.go:164-189 | two heap-ordered trees with the same keys and priorities in order are the same tree when between equal priorities stands a greater one |
| Shapes.ShapeForcedIffSeparated | internal/adapters/repository/treapstore.go:164-236 | exactly one treap holds a sorted key sequence if and only if its priorities are separated in that sense; at least one always does |
| Shapes.PreOrderRebuilds | internal/adapters/repository/treapstore.go:191-208 | inserting the keys of any treap from the root downwards rebuilds exactly that treap, ties included |
| Shapes.DeleteUndoesInsertIff | internal/adapters/repository/treapstore.go:191-236 | deleting a key just inserted gives back the very same treap if and only if the insertion did not come between two tied keys one of which heads the other; the leaderboard order is restored in any case |
| Shapes.DeleteUndoesInsertWhenSeparated | internal/adapters/repository/treapstore.go:191-236 | it does whenever the priorities of the tree before the insertion are separated |
| Leaderboard.ImproveKeepsConsistent | internal/adapters/repository/treapstore.go:386-406 | an update leaves a treap over exactly one key per talent, the one with its best score |
| Leaderboard.ReplayKeepsConsistent | internal/adapters/repository/treapstore.go:386-406 | and so does every run of updates |
| Leaderboard.ReplayKeepsBest | internal/adapters/repository/treapstore.go:374-416 | after any run a talent is present if and only if it was updated, with a score it was given and no lower than any other |
| Leaderboard.BestIgnoresOrder | internal/adapters/repository/treapstore.go:374-416 | runs with the same updates in whatever order and multiplicity end with the same best scores |
| Leaderboard.EveryTreapIsReached | internal/adapters/repository/treapstore.go:191-208 | every treap over the keys of a reachable store is left behind by some run with the same best scores |
| Leaderboard.HistoryIndependentIffSeparated | internal/adapters/repository/treapstore.go:164-236 | the tree is determined by the best scores, whatever the history, if and only if the priorities of the present keys are separated |
| Leaderboard.HistoryShowsOnTies | internal/adapters/repository/treapstore.go:167-236 | two ids with equal hash and score, updated in either order, leave different trees, each with the first one at its root |
| Leaderboard.DeletionMayReshape | internal/adapters/repository/treapstore.go:191-236 | a concrete treap that inserting and deleting a key turns into another |
| Balance.PriorityFollowsScore | internal/adapters/repository/treapstore.go:164-189 | where the sum does not wrap and the ids' hashes do not outweigh the score difference, the better key has the greater priority |
| Balance.FollowingOrderMakesAList | internal/adapters/repository/treapstore.go:191-208 | when priorities fall along the leaderboard no node has a left child and the treap is as high as it has keys |
| Balance.ListIsHigh | internal/adapters/repository/treapstore.go:191-208 | conversely, a treap whose nodes have no left child is as high as it has keys, and priorities never rise along its order |
| Balance.ListIff | internal/adapters/repository/treapstore.go:164-208 | where the priorities force the shape, the tree is such a list if and only if priorities fall along the leaderboard |
| Balance.SomeHistoryMakesAListIff | internal/adapters/repository/treapstore.go:164-236 | in general some history with the same best scores leaves such a list if and only if priorities never rise along the leaderboard |
| Balance.UnwrappedScoresMakeAList | internal/adapters/repository/treapstore.go:164-208 | a store of talents with different scores small enough not to wrap is a list, against the promised balance |
| Balance.ClimbMakesAList | docs/DATA_STRUCTURES.md:494-529 | for every n up to 2.5 billion a concrete run of n updates after which the tree is n high |
| Heights.HeightBetween | internal/adapters/repository/treapstore.go:191-236 | in every treap a key is at least as deep as there are keys whose priority exceeds all from theirs to its own, and at most as deep as there are keys whose priority none of these exceeds |
| Heights.HeightIff | internal/adapters/repository/treapstore.go:164-236 | the height of a treap with separated priorities is at most h if and only if no key is topped in that way by more than h, itself included |
| Heights.HeightOfRunIff | internal/adapters/repository/treapstore.go:164-236 | the same for the tree any run leaves, read off the priorities of the present keys |
| Heights.WorstTreap | internal/adapters/repository/treapstore.go:164-236 | with no condition on the priorities: all treaps over sorted keys are at most h high if and only if no key is topped, ties included, by more than h |
| Heights.WorstHistoryIff | docs/DATA_STRUCTURES.md:494 | hence every history with the same best scores leaves a tree at most h high if and only if that holds of the present keys: the exact condition for any promised height |
| Float64.RoundIsMonotone | internal/adapters/repository/treapstore.go:80-96 | rounding to a double never reverses an order, across binades, signs and subnormals |
| Float64.RoundIsExact | internal/adapters/repository/treapstore.go:94-96 | integers below 2^53 in magnitude are doubles |
| Float64.FineError | internal/adapters/repository/treapstore.go:80-96 | a value of at most 2^(53-m) is rounded by at most half of 2^-m |
| Rounding.RoundIsNearest | internal/adapters/repository/treapstore.go:80-96 | rounding yields a representable double, and no representable double is nearer to the exact value |
| Rounding.RoundFixesDoubles | internal/adapters/repository/treapstore.go:80-96 | rounding leaves exactly the representable doubles alone, so rounding twice is rounding once |
| Rounding.TieGoesToEven | internal/adapters/repository/treapstore.go:80-96 | where another double is just as near, the result is the even one: a multiple of twice their gap |
| FixedPoint.FixedPointFitsInt64 | internal/adapters/repository/treapstore.go:61-92 | every double, infinities and NaN included, becomes a fixed-point score that fits an int64 |
| FixedPoint.ToFixedPointIsMonotone | internal/adapters/repository/treapstore.go:61-92 | a finite score that is not lower never gets a lower fixed-point score, through clamping, scaling, saturation and rounding |
| FixedPoint.ToFloatIsMonotone | internal/adapters/repository/treapstore.go:94-96 | a fixed-point score that is not lower is never shown lower |
| FixedPoint.RoundAwayIsNearest | internal/adapters/repository/treapstore.go:61-92 | rounding to a fixed-point score gives the nearest integer, of two the one further from zero |
| FixedPoint.FixedPointIsClose | internal/adapters/repository/treapstore.go:61-92 | up to a magnitude of 9007 points the fixed-point score is at most one unit, 10^-12 points, off |
| FixedPoint.FixedPointSaturates | internal/adapters/repository/treapstore.go:61-92 | NaN becomes 0, and infinities and what does not fit an int64 become its ends |
| FixedPoint.ShownIsNearest | internal/adapters/repository/treapstore.go:94-96 | a fixed-point score below 2^53 is shown as the double nearest to it |
| FixedPoint.RoundTrip | internal/adapters/repository/treapstore.go:61-96 | conversion to float64 and back is the identity up to a magnitude of 4096 * 10^12 + 5 in fixed point, 4096 points and a little |
| FixedPoint.RoundTripIff | internal/adapters/repository/treapstore.go:61-96 | all fixed-point scores up to a magnitude survive the round trip if and only if it is at most that one |
| FixedPoint.RoundTripFailsNext | internal/adapters/repository/treapstore.go:61-96 | some representable double is stored as the next score, and what that is shown as is stored one unit higher |
| FixedPoint.ToFloatIsStrict | internal/adapters/repository/treapstore.go:61-96 | in that range shown scores compare exactly as fixed-point scores do, so grouping by float merges no two different scores |
| Scoring.ScoreIsBounded | internal/domain/scoring/scoring.go:113-123 | whatever the metric and the weight the score is in [0, 100], or NaN exactly when the product is NaN |
| Scoring.ScoreIsProduct | internal/domain/scoring/scoring.go:113-123 | for finite metric and weight the score is the double nearest to their product while that is in [0, 100], exactly 100 above and exactly 0 below |
| Scoring.ScoreOfInfinite | internal/domain/scoring/scoring.go:113-123 | infinite operands give 100 or 0 as their signs say, and NaN where the product is none |
| Scoring.StoredScoreIsClose | internal/domain/scoring/scoring.go:113-123 | what is stored for a metric is within 0.52 units of the clipped product with the weight, and what that is shown as within 0.53 |
| Scoring.StoredScoreIsLossless | internal/domain/scoring/scoring.go:113-123 | every score that reaches the store is between 0 and 10^14 in fixed point, inside the lossless range |
| Scoring.StoredScoreIsMonotone | internal/domain/scoring/scoring.go:113-123 | under a positive weight, infinite or not, a higher metric is never stored as a lower score |
| Scoring.InMemoryScorer.WithSkillWeightsFromConfig | internal/domain/scoring/scoring.go:35-48 | the scorer ends with exactly the positive weights, in whatever order the map is iterated, and keeps its default unless the new one is positive |
| Scoring.InMemoryScorer.Score | internal/domain/scoring/scoring.go:102-129 | fails exactly when cancelled; else the score of the metric under the weight of the skill if it has one, and under the default weight if not |
| Ranks.CountHigherFallsShort | internal/adapters/repository/treapstore.go:317-350 | for any key, what the walk counts plus the size of the target's left subtree is the number of keys ahead; the walk that also goes left counts exactly those |
| Ranks.RankAsWritten | internal/adapters/repository/treapstore.go:300-350 | for a present key the rank as written is the position less the target's left subtree, lies between 1 and the number of talents, and is the position if and only if that subtree is empty |
| Ranks.FallbackRankCanBeWrong | internal/adapters/repository/treapstore.go:317-350 | two updates after which the second best of two talents gets rank 1 |
| Ranks.CountedRankIsRightIff | internal/adapters/repository/treapstore.go:300-350 | where neighbours on the leaderboard differ in priority, the fallback rank is the position if and only if the predecessor has the greater priority, or there is none |
| Ranks.CountedRanksWhenSeparated | internal/adapters/repository/treapstore.go:300-350 | where priorities are separated that decides every rank from the keys alone |
| Ranks.CompetitionRankIsExact | internal/adapters/repository/treapstore.go:579-620 | in the lossless range competition ranks by shown score are competition ranks by stored score |
| Ranks.AboveIsCompetitionRank | internal/adapters/repository/treapstore.go:579-620 | counting better entries along the leaderboard counts the better talents of the store |
| Ranks.PrefixRanksAreGlobal | internal/adapters/repository/treapstore.go:459-489 | ranking a prefix of the leaderboard by itself gives the ranks of the whole |
| Ranks.PositionAgainstRank | internal/adapters/repository/treapstore.go:297-315 | for every store, the position is the competition rank plus the number of talents shown with the same score and ahead; they are equal if and only if there is none |
| Ranks.PositionIsRankIff | internal/adapters/repository/treapstore.go:297-315 | in the lossless range these are the talents of the same stored score with a smaller id |
| Ranks.CountedIsPublishedIff | internal/adapters/repository/treapstore.go:300-350 | for every store, the rank the fallback counts equals the rank a refresh publishes if and only if the target's left subtree is as large as the number of talents tied ahead of it |
| TieRanks.GroupByScore | internal/adapters/repository/treapstore.go:588-592 | the groups name exactly the scores that occur, each with all positions holding it and no other |
| TieRanks.KeysInAnyOrder | internal/adapters/repository/treapstore.go:594-598 | every map iteration yields each score once |
| TieRanks.BringGreatest | internal/adapters/repository/treapstore.go:600-607 | one pass of exchanges extends the sorted front by one and permutes the rest |
| TieRanks.SortDescending | internal/adapters/repository/treapstore.go:600-607 | the exchange sort leaves a descending permutation |
| TieRanks.RankGroup | internal/adapters/repository/treapstore.go:609-619 | ranks the entries of one score and leaves all others as they were |
| TieRanks.AssignRanksWithTies | internal/adapters/repository/treapstore.go:579-620 | in any input order and any map order every entry ends with rank 1 plus the number of entries of higher score, and nothing else of it changes |
| TreapNodes.Fix | internal/adapters/repository/treapstore.go:124-128 | above two sound subtrees the node becomes sound, with its exact size |
| TreapNodes.RotateRight | internal/adapters/repository/treapstore.go:144-152 | relinking the nodes in place computes the rotation of the tree they represent, on the same nodes, with exact sizes |
| TreapNodes.RotateLeft | internal/adapters/repository/treapstore.go:154-162 | likewise to the left |
| TreapNodes.Insert | internal/adapters/repository/treapstore.go:191-208 | computes tree insertion, keeping all old nodes; any new node holds the given id, score and record; no node is shared |
| TreapNodes.DeleteNode | internal/adapters/repository/treapstore.go:210-236 | computes tree deletion on a subset of the old nodes; the size of the target's subtree is what falls with every rotation |
| Traversals.EnteredAtMost | internal/adapters/repository/treapstore.go:238-262 | the early exit enters at most as many nodes as entries found plus the height of the tree |
| Traversals.CollectTopN | internal/adapters/repository/treapstore.go:238-262 | appends exactly the first limit minus length entries of the leaderboard, each with its talent's current record, entering as many nodes as that bound counts |
| Traversals.CollectAllEntries | internal/adapters/repository/treapstore.go:277-295 | appends every entry of the leaderboard, in order |
| Traversals.CountHigherRanked | internal/adapters/repository/treapstore.go:317-350 | adds to the counter what the counting walk finds; the branches for another id at an equal key are dead |
| Traversals.CalculateRank | internal/adapters/repository/treapstore.go:297-315 | is 0 on the empty tree, else 1 plus the count at the score converted back to fixed point |
| TreapStore.RankedPrefixIsExact | internal/adapters/repository/treapstore.go:459-489 | ranking any prefix of the listing gives each talent its competition rank over the whole store |
| TreapStore.RankedListingIsCompetition | internal/adapters/repository/treapstore.go:554-577 | the map from the ranked listing is the competition ranking of all talents and no others |
| TreapStore.TopRanksAreExact | internal/adapters/repository/treapstore.go:457-489 | with a current snapshot, or with any listed talent missing from a stale one, every entry carries its competition rank over the current store, overwriting stale ranks already assigned |
| TreapStore.TopAgreesWithLookup | internal/adapters/repository/treapstore.go:418-489 | the list and the single lookup report the same entry for a listed talent under any snapshot, stale or not, that names all listed talents; otherwise for a published talent if and only if its published rank is current, and for an unpublished one in the lossless range if and only if its left subtree is as large as the number of talents tied ahead |
| TreapStore.FallbackLookup | internal/adapters/repository/treapstore.go:436-443 | for every stored score a lookup without published rank reports the position of the score it is shown with, less the size of the left subtree at that key |
| TreapStore.FallbackIsPublishedIff | internal/adapters/repository/treapstore.go:436-443 | in the lossless range that is the rank the next refresh publishes if and only if the left subtree is as large as the number of talents tied ahead |
| TreapStore.TreapStore.constructor | internal/adapters/repository/treapstore.go:352-372 | starts sound and empty, with an empty snapshot |
| TreapStore.TreapStore.NodesAgreeWithRecords | internal/adapters/repository/treapstore.go:107-115 | in every valid store each node carries its talent's record, the score in that record although it changes in place, and the hashed priority; every talent has a node, and only one |
| TreapStore.TreapStore.UpdateBestWithMeta | internal/adapters/repository/treapstore.go:379-416 | only a strictly better fixed-point score changes anything; then tree, scores and metadata change for that talent alone; the treap, the aliasing of records and their separateness are kept although the record changes in place |
| BestRecords.ReflectsOneMore | internal/adapters/repository/treapstore.go:386-406 | over any run of offers the store names exactly the talents offered for, each with the first of its best offers in full |
| TreapStore.TreapStore.Apply | internal/adapters/repository/treapstore.go:386-406 | the locked section: tree and best scores become those of one update, in place |
| TreapStore.TreapStore.ReplaceBest | internal/adapters/repository/treapstore.go:387-398 | delete under the old score, overwrite the record, insert under the new score, with the same record |
| TreapStore.TreapStore.Rewrite | internal/adapters/repository/treapstore.go:393-397 | overwriting one talent's record changes no other talent's |
| TreapStore.TreapStore.AddTalent | internal/adapters/repository/treapstore.go:399-406 | a new talent gets a record of its own and one node carrying it |
| TreapStore.TreapStore.Count | internal/adapters/repository/treapstore.go:491-496 | the number of talents with a best score |
| TreapStore.TreapStore.Rank | internal/adapters/repository/treapstore.go:418-455 | not found exactly for talents without a record; else that talent's score and metadata, field for field, with the published rank, or the count on the tree |
| TreapStore.TreapStore.TopN | internal/adapters/repository/treapstore.go:457-489 | refuses limits below 1; else the first n entries of the leaderboard with published ranks if all have one and fresh ranks otherwise |
| TreapStore.TreapStore.AttachRanks | internal/adapters/repository/treapstore.go:475-486 | breaking off at the first unpublished talent re-ranks the whole list as if no rank had been assigned |
| TreapStore.TreapStore.CollectForSnapshot | internal/adapters/repository/treapstore.go:556-561 | copies all entries of one moment |
| TreapStore.TreapStore.PublishSnapshot | internal/adapters/repository/treapstore.go:563-577 | ranks whatever was collected and replaces the map as a whole |
| TreapStore.TreapStore.UpdateRankSnapshot | internal/adapters/repository/treapstore.go:554-577 | with no update in between, the published map is the exact competition ranking |
| Snapshots.SnapshotIsAlwaysExact | internal/adapters/repository/treapstore.go:538-577 | in every interleaving the snapshot is empty or the exact competition ranking of the past version whose number is published, and names only present talents; versions keep their numbers and the published number never goes down |
| Snapshots.LookupScoreIsCurrent | internal/adapters/repository/treapstore.go:418-455 | a lookup reports a score between the talent's best at its start and at its end, and a rank that was published for some past version or counted on a version during the lookup |
| Snapshots.LookupNeverStuck | internal/adapters/repository/treapstore.go:418-455 | a talent once found stays findable through every interleaving, so each later step of a lookup can be taken |
| Snapshots.ListIsOneVersion | internal/adapters/repository/treapstore.go:457-489 | in every interleaving a list holds the best entries of one version, all ranked by the version last published, which is never newer, if that knows all their talents, and by its own version otherwise |
| Snapshots.LawsKept | internal/adapters/repository/treapstore.go:386-577 | scores only improve, each version is sound, and snapshot, refresher, lookups and lists obey their laws over every run |
| SnapshotRuns.VersionsReflectUpdates | internal/adapters/repository/treapstore.go:386-406 | in every interleaving there is one version for each update, holding exactly the first best of the updates so far for every talent |
| SnapshotRuns.UpdatesAreKept | internal/adapters/repository/treapstore.go:386-406 | after any run every updated talent is known with a score no lower than any of its updates gave |
| SnapshotRuns.NothingElseIsKept | internal/adapters/repository/treapstore.go:386-406 | and whatever is known was given by an update of that talent, in full |
| SnapshotRuns.LookupSeesUpdates | internal/adapters/repository/treapstore.go:418-455 | a lookup begun after an update of its talent finds it and reports at least that update's score |
| SnapshotRuns.FoundIffUpdated | internal/adapters/repository/treapstore.go:423-431 | a lookup finds its talent if and only if some update of the talent was made before it began |
| SnapshotRuns.RefreshTakesEffect | internal/adapters/repository/treapstore.go:554-577 | whatever comes between its two halves, a refresh publishes the exact ranking of the version it collected |
| SnapshotRuns.LookupUsesPublished | internal/adapters/repository/treapstore.go:433-443 | a lookup of a talent published when it begins reports a published rank, of that version or a later one |
| SnapshotRuns.ListsAreRecent | internal/adapters/repository/treapstore.go:457-489 | a list shows a version no older than when it was asked for, under ranks no older than those then published, for the limit asked |
| DedupeSpec.RecordKeepsBound | internal/domain/dedupe/dedupe.go:85-123 | recording keeps the ids distinct and within the bound, adds the id, and forgets at most the oldest, only when full |
| DedupeSpec.UnrecordKeepsBound | internal/domain/dedupe/dedupe.go:125-162 | taking back removes the given id only, if it is there |
| DedupeSpec.UnrecordUndoesRecordIff | internal/domain/dedupe/dedupe.go:85-154 | taking back a new recording restores the remembered ids if and only if there was no bound or room left |
| DedupeSpec.WindowAtLeast | internal/domain/dedupe/dedupe.go:85-162 | through any calls, a recorded id stays seen until it is taken back or maxSize further ids are recorded, for ever without a bound |
| DedupeSpec.WindowExactly | internal/domain/dedupe/dedupe.go:208-229 | while nothing is taken back, and whatever ids are repeated, its own included, it is seen if and only if fewer than maxSize further ids were recorded, up to and including the maxSize-th: repeating an id does not prolong its stay |
| DedupeSpec.NewestAreRemembered | internal/domain/dedupe/dedupe.go:85-123 | while nothing is taken back, what is remembered after any calls is exactly the newest maxSize of all ids newly recorded, in order, or all of them without a bound: first in, first out |
| Dedupe.InMemoryDeduper.constructor | internal/domain/dedupe/dedupe.go:57-80 | starts sound and empty, a size of zero or less meaning no bound |
| Dedupe.InMemoryDeduper.GetNode | internal/domain/dedupe/dedupe.go:101-104 | the pool hands out a node that is on no list, either discarded earlier or new |
| Dedupe.InMemoryDeduper.SeenAndRecord | internal/domain/dedupe/dedupe.go:85-123 | reports exactly whether the id is remembered; a new one is appended after the oldest is dropped if full; map, list, tail, size and pool stay in agreement |
| Dedupe.InMemoryDeduper.RecordBounded | internal/domain/dedupe/dedupe.go:94-116 | the bounded branch, with a node that may be a reused one |
| Dedupe.InMemoryDeduper.Append | internal/domain/dedupe/dedupe.go:100-116 | a node off the list becomes its last one, also on an empty list, and is indexed under the id |
| Dedupe.InMemoryDeduper.EvictFIFO | internal/domain/dedupe/dedupe.go:206-229 | drops the oldest id and pools its node |
| Dedupe.InMemoryDeduper.Unrecord | internal/domain/dedupe/dedupe.go:125-135 | removes its own id and no other, wherever it is on the list |
| Dedupe.InMemoryDeduper.UnrecordBounded | internal/domain/dedupe/dedupe.go:137-154 | the same in bounded mode, with the node reset and pooled |
| Dedupe.InMemoryDeduper.UnrecordUnbounded | internal/domain/dedupe/dedupe.go:156-162 | the same in unbounded mode |
| Dedupe.InMemoryDeduper.RemoveFromLinkedList | internal/domain/dedupe/dedupe.go:164-173 | whichever case applies, the chain loses exactly the given node and stays acyclic from head to tail |
| Dedupe.InMemoryDeduper.RemoveHead | internal/domain/dedupe/dedupe.go:175-181 | the chain loses its first node; an emptied one has no tail |
| Dedupe.InMemoryDeduper.RemoveTail | internal/domain/dedupe/dedupe.go:183-193 | the walk finds the last node but one, which becomes the tail |
| Dedupe.InMemoryDeduper.RemoveMiddle | internal/domain/dedupe/dedupe.go:195-204 | the walk finds the predecessor, which is linked past the node |
| Dedupe.InMemoryDeduper.Size | internal/domain/dedupe/dedupe.go:231-234 | the counter is the number of ids in the map and on the list |
| EventQueue.InMemoryQueue.constructor | internal/adapters/mq/queue/queue.go:57-78 | starts empty and open; sizes that are not positive leave the defaults |
| EventQueue.InMemoryQueue.Enqueue | internal/adapters/mq/queue/queue.go:80-122 | appends or changes nothing; succeeds only when open and below both bounds, and is refused only when closed, at a bound or cancelled |
| EventQueue.InMemoryQueue.Receive | internal/adapters/mq/queue/queue.go:124-145 | the oldest event, or the end exactly of a closed and drained channel |
| EventQueue.InMemoryQueue.Close | internal/adapters/mq/queue/queue.go:156-170 | closes, once or again, without losing queued events |
| Ingest.Service.Start | internal/app/service.go:187-206 | store, deduper and queue start empty, sound and apart, the queue's buffer is exactly its capacity, every worker of the pool is given the one scorer and store, and the weights in force are exactly the configured ones above zero, with 100 for all other skills unless a default above zero is configured |
| Ingest.Pool.constructor | internal/adapters/mq/worker/worker.go:222-250 | as many workers as asked for, or 20 for each processor, all with one scorer and one store |
| Ingest.Service.Enqueue | internal/app/service.go:274-332 | queues last an event with talent, metric and skill of the request and its id, or one made from these if it has none, only if it has talent and skill and the queue is open with room; refuses it otherwise, or when cancelled |
| Ingest.Service.SeenAndRecord | internal/app/service.go:258-267 | reports and records as the deduper does, leaving queue and store alone |
| Ingest.Service.Unrecord | internal/app/service.go:269-272 | takes the id back from the deduper, leaving queue and store alone |
| Ingest.Service.HandlePostEvent | internal/adapters/http/api/events.go:44-57 | a duplicate changes nothing, an accepted request is recorded and queued field for field, a refused one neither, except that a full deduper has lost its oldest id; unless cancelled a new request is accepted if and only if it is complete and the queue open with room |
| Ingest.RequestBecomesUpdate | internal/app/service.go:306-311 | a request ends as an update of its own talent, by its metric under the weight of its own skill, with its own metadata |
| Ingest.InMemoryWorker.ProcessEvent | internal/adapters/mq/worker/worker.go:141-200 | updates the store by the event's score and, if that improves on it, its talent's metadata, after which the talent has at least the score of the metric under the weight of the event's own skill; changes nothing when scoring is cancelled |
| Ingest.InMemoryWorker.Run | internal/adapters/mq/worker/worker.go:99-124 | the store becomes the replay of delivered events at rising positions: without cancellation of all before the exit, without shutdown either of all delivered |
| PipelineLaws.LawsHold | internal/adapters/http/api/events.go:44-57 | every law of the pipeline holds in every state any interleaving reaches |
| PipelineLaws.IdLawKept | internal/domain/dedupe/dedupe.go:85-154 | every step balances, for each id, acceptances, handlers in flight and late rollbacks against evictions and being remembered |
| PipelineLaws.EventLawKept | internal/adapters/mq/queue/queue.go:124-145 | every step conserves events: accepted = queued + held by forwarders + in processing + applied + failed + dropped |
| PipelineLaws.LossLawKept | internal/adapters/mq/queue/queue.go:124-145 | nothing is lost without cancellation, and a forwarder drops at most one event |
| PipelineLaws.MetaLawKept | internal/adapters/repository/treapstore.go:386-406 | every step keeps each stored score and its metadata those of the first applied of the talent's best events |
| PipelineLaws.FifoLawKept | internal/adapters/mq/queue/queue.go:101-145 | at every step the queue holds the events accepted last, in the order of acceptance |
| PipelineLaws.CompleteLawKept | internal/app/service.go:295 | only events with talent and skill are admitted and accepted |
| PipelineLaws.LockLawKept | internal/adapters/mq/queue/queue.go:88-170 | no step sends on a closed channel |
| PipelineLaws.QueueLawKept | internal/adapters/mq/queue/queue.go:88-121 | events queued plus handlers past the check are at most capacity - 1 plus the handlers |
| PipelineLaws.EndLawKept | internal/adapters/mq/worker/worker.go:99-124 | without cancellation forwarders end only on a closed, drained queue, and workers only after their forwarder |
| PipelineLaws.AcceptedAtMostOnce | internal/adapters/http/api/events.go:44-57 | an id is accepted or in flight at most once more often than evicted; one never evicted is remembered if and only if it is accepted or exactly one handler holds it, so it is retriable after a rollback |
| PipelineLaws.AcceptedIdsAreDistinct | internal/adapters/http/api/events.go:44-57 | no two accepted events share an id that was never evicted |
| PipelineLaws.DrainedAppliedAll | internal/adapters/mq/worker/worker.go:99-124 | once drained without cancellation, exactly the accepted events have been applied, each once |
| PipelineLaws.DrainedScores | internal/adapters/mq/worker/worker.go:142-200 | for every interleaving without cancellation, once drained, the store is a sound treap over exactly the talents of accepted events, each with the maximum of their fixed-point scores, within 0 and 10^14 |
| FinalRanking.FinalEntries | internal/adapters/repository/treapstore.go:457-489 | after draining and one refresh each listed entry shows score, event id, skill and raw metric of the first applied of its talent's best accepted events, and ranks 1 plus the number of talents with a better accepted event |
| FinalRanking.FinalOrder | internal/adapters/repository/treapstore.go:130-142 | that list is ordered by score, and among equal scores by the first difference of the ids, a proper prefix coming first |
| FinalRanking.FinalRest | internal/adapters/repository/treapstore.go:457-489 | and every talent with an accepted event is on it, or it is full of better ones |
| FinalRanking.FinalScoreInPoints | internal/domain/scoring/scoring.go:113-123 | the score listed is within 0.53 * 10^-12 points of the clipped product of metric and weight of the event shown, under the weight of that event's own skill |
| FinalRanking.NoneEarnedMore | internal/domain/scoring/scoring.go:113-123 | and no accepted event of the talent earned more, up to as much |
| PipelineRuns.DrainingRun | internal/adapters/mq/worker/worker.go:319-340 | once closed, whatever handlers do in between, every step of a forwarder or worker brings the end exactly one step closer and nothing more is accepted |
| PipelineRuns.SomethingEnabled | internal/adapters/mq/worker/worker.go:319-340 | as long as anything is left some forwarder or worker can take a step: no deadlock |
| PipelineRuns.ClosingDrains | internal/adapters/mq/worker/worker.go:319-340 | after closing without cancellation every run takes boundedly many draining steps, and when none is left all workers have stopped with exactly the accepted events applied |
| PipelineRuns.FlagsFollowSteps | internal/adapters/mq/queue/queue.go:156-170 | the queue is closed, and the workers cancelled, exactly when some step did so |
| PipelineRuns.AcceptedWerePosted | internal/adapters/http/api/events.go:44-57 | every accepted event was posted by a request in the run, field for field |
| PipelineRuns.ReceivedInOrder | internal/adapters/mq/queue/queue.go:124-145 | in every reachable state the next event taken is the first accepted one not yet taken |
| QueueBound.QueueNeverExceeds | internal/adapters/mq/queue/queue.go:88-121 | with k handlers the queue never holds more than the lesser of its buffer and capacity - 1 + k |
| QueueBound.MostQueuedIsReached | internal/adapters/mq/queue/queue.go:88-121 | some interleaving fills it to exactly that bound |
| QueueBound.OvershootIff | internal/app/service.go:194-197 | it can exceed its capacity if and only if the buffer is larger than the capacity and k is at least 2 |
| Idempotence.SomeIdTwice | internal/domain/dedupe/dedupe.go:208-229 | with any bound, some interleaving accepts one id twice |
| Idempotence.IdempotentIffUnbounded | docs/readme.md:68 | no run accepts an id twice if and only if the deduper has no bound |
| Duplicates.SoleDuplicateWasAccepted | internal/adapters/http/api/events.go:44-57 | with requests served one at a time whatever is reported as a duplicate was accepted before |
| Duplicates.SomeoneIsMisled | internal/adapters/http/api/events.go:44-57 | with two, some run reports a duplicate of an event that is never accepted |
| Duplicates.MisledIff | docs/ARCHITECTURE.md:294 | a request can be told its event was already processed although in the end none with its id was accepted, if and only if at least two requests are served at a time |

## Left out

- HTTP parsing, validation, encoding, routing and middleware, the dashboard and the embedded assets: input and output only.
- Metrics, logging, configuration loading, signal handling and the commands: no state that a property depends on.
- Clocks: tickers, simulated latency and timeouts are steps that may happen at any time or not at all; `WithLatencyRange` and `SetLatencyRange` are not modelled.
- Go's memory model: each locked section and each read of a record's score is one atomic step, and no claim is made that the metadata a lookup reports belong to one update.
- A logarithmic height: it does not hold in general, and when a bound holds is stated above; costs are stated in terms of height.
- `Service.Stop`, `Pool.Stop` and `InMemoryWorker.Shutdown`: they stop workers without draining the queue, so draining is claimed for closing the queue alone.
- `UpdateBest`, which calls `UpdateBestWithMeta` with empty metadata, and the store's options.
- Reflection in `Service.Enqueue`: requests are typed.
- The rest of `sync.Pool` and the entry pool: when pooled objects are freed.
- `internal/testevents`: a load generator.
- PipelineLaws.DrainedScores: scoring that fails is possible only by cancellation, as in the code, so runs with cancellation are covered by the conservation of events only.
