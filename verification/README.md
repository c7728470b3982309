# QuickRank ensemble bookkeeping in Dafny

This project models three pieces of index-heavy decision logic that QuickRank
uses on tree ensembles, and proves properties of the model:

- **Ensemble pruning** (`EnsemblePruning`, with `IndexOrder`). Each tree's
  output is treated as one feature column, and the pruner keeps one weight per
  column. It computes how many columns to prune, and stops when asked to prune
  everything. It then picks the pruned columns with one of the policies
  RANDOM, LAST, SKIP, LOW_WEIGHTS, QUALITY_LOSS or SCORE_LOSS, and sets their
  weights to zero. Finally it copies re-optimised line-search weights back
  into the remaining slots.
- **DART dropout** (`DartDropout`, `DartNormalize`, `DartScores`). This covers:
  - how many trees an iteration drops;
  - the uniform, top-half and count-based selection of drop candidates from a
    shuffled pool;
  - the cumulative-probability `binary_search`;
  - per-tree drop counters, permanent removal and counter compaction;
  - the weight normalisation applied when a drop is restored, and the weight
    the new tree is fitted with;
  - the incremental score update that adds or subtracts listed trees.
- **Selective LambdaMART sampling**. This is split into several modules:
  - `SelectiveBudgets`: the adaptive mixing of the rank and random factors, and
    the per-query budgets under RATIO, MUL and POS.
  - `SelectiveOrder`: the per-query comparator.
  - `SwapMoves`, `SelectiveSampling`, `SamplingTotals`: the compaction of
    every query's selection to the front of `sampleids`, and the returned
    cursor.
  - `SamplingBookkeeping`: the bookkeeping of the training loop, namely the
    resampling schedule, the subsample, the presence map and the adapt-factor
    ring.

The shared pieces live in `Numeric` and `Results` (`numeric.dfy`) and in
`Sequences` (`sequences.dfy`):

- `Numeric`: C `round`, `ceil`, `floor` and truncating casts on reals, and
  `size_t` subtraction.
- `Results`: a `Result` type for the error paths.
- `Sequences`: ranges, permutations, masks and dot products.

Some things become parameters:

- The metric is a function from scores to a real.
- Tree outputs are given as a grid.
- Random draws are given as values or permutations. The only constraint on
  the selective shuffle is that it reorders.
- The weights the line-search optimiser returns are given as vectors.

Weights and factors are real numbers.

In several places the code as written misbehaves on inputs it accepts. Each
such case is kept twice in the model: once as written, with a lemma that
exhibits the failure, and once corrected, with the intended property proved
(see "## Findings"). The rest of the model builds on the corrected versions.

`score_loss_pruning` ranks columns by the signed sum of `weights_[f] * feature`
over all instances (src/pruning/ensemble_pruning.cc:484-486); it takes no
absolute value.

## Model

| member | source | states |
|---|---|---|
| EnsemblePruning.PruneCountAsWritten | src/pruning/ensemble_pruning.cc:127-136 | A rate below one gives round(rate·n), between 0 and n. A rate of at least one is truncated to a count, and fails exactly when that count reaches n. |
| EnsemblePruning.FractionPrunesEverything | src/pruning/ensemble_pruning.cc:127-129 | The rate 0.95 on 10 columns yields a prune count of 10, with no abort. |
| EnsemblePruning.PruneCount | src/pruning/ensemble_pruning.cc:127-139 | It succeeds exactly when the written count is below n, and then equals that count. Every successful count leaves n − k ≥ 1 columns selected. |
| EnsemblePruning.LastPruning | src/pruning/ensemble_pruning.cc:413-420 | The pruned set is exactly {n−k, …, n−1} and has k elements. |
| EnsemblePruning.SkipSequenceFacts | src/pruning/ensemble_pruning.cc:400-405 | The picks ceil(i·n/s) for i < s start at 0, strictly increase and are below n. |
| EnsemblePruning.SkipSelected | src/pruning/ensemble_pruning.cc:400-405 | The selected set has exactly s elements, all below n, and contains 0. |
| EnsemblePruning.SkipPruning | src/pruning/ensemble_pruning.cc:397-411 | The pruned set is the complement in [0,n) of the selected set. It has exactly k elements and never contains column 0 while a column is kept. |
| EnsemblePruning.LowWeightsPruning | src/pruning/ensemble_pruning.cc:422-435 | It prunes exactly k columns, and every pruned weight is ≤ every kept weight. |
| EnsemblePruning.QualityLossPruning | src/pruning/ensemble_pruning.cc:459-469 | It prunes exactly k columns, and every pruned column's leave-one-out metric is ≥ every kept column's. |
| EnsemblePruning.ScoreLossPruning | src/pruning/ensemble_pruning.cc:476-499 | It prunes exactly k columns, and every pruned column's summed weighted contribution is ≤ every kept column's. |
| EnsemblePruning.RandomPruning | src/pruning/ensemble_pruning.cc:390-394 | The first k distinct draws form exactly k columns, all below n. |
| EnsemblePruning.FeatureScoresTotal | src/pruning/ensemble_pruning.cc:478-487 | The per-column contributions sum to the total of the per-instance scores that `score` computes. |
| EnsemblePruning.LeaveOneOutMetrics | src/pruning/ensemble_pruning.cc:447-457 | Entry f is the metric of the dataset scored with weight f set to zero. The weight vector comes back unchanged. |
| EnsemblePruning.LeaveOneOutScore | src/pruning/ensemble_pruning.cc:449-452 | Zeroing weight f changes each instance's score by exactly −w_f·x_f. |
| EnsemblePruning.ZeroedScore | src/pruning/ensemble_pruning.cc:365-375 | With the pruned weights zero, the full weighted sum equals the weighted sum over the filtered column layout. |
| EnsemblePruning.ImportWeights | src/pruning/ensemble_pruning.cc:332-344 | It fails exactly when the line-search vector is not as long as the number of kept slots. On success, the kept slots receive the vector in increasing column order, exactly consumed, and the pruned slots are untouched. |
| EnsemblePruning.SelectPruned | src/pruning/ensemble_pruning.cc:197-224 | Each policy yields exactly k columns below n, with that policy's ordering guarantee. |
| EnsemblePruning.Refit | src/pruning/ensemble_pruning.cc:231-253 | The pruned weights stay zero, and the kept weights are the post-pruning vector in column order. Every instance's score equals the optimiser's score on the filtered dataset. |
| EnsemblePruning.Learn | src/pruning/ensemble_pruning.cc:127-253 | It aborts on a bad count, on a missing line search and on a size mismatch. On success it prunes exactly k columns, all with weight 0. Without line search every other weight is 1. With line search the kept weights are the re-fitted ones. |
| IndexOrder.SortIndices | src/pruning/ensemble_pruning.cc:425-430 | The result is a permutation of the input indices, in nondecreasing comparator order. |
| IndexOrder.SortIndicesSorted | src/pruning/ensemble_pruning.cc:427-430 | An index sequence already in comparator order is returned unchanged. |
| IndexOrder.SmallestK | src/pruning/ensemble_pruning.cc:425-434 | There are exactly k indices, and each value among them is ≤ each value outside. |
| IndexOrder.LargestK | src/pruning/ensemble_pruning.cc:460-469 | There are exactly k indices, and each value among them is ≥ each value outside. |
| DartDropout.EffectiveKeepDrop | src/learning/forests/dart.cc:124-129 | The count samplers force keep_drop to false, and the others keep the configured value. |
| DartDropout.Threshold | src/learning/forests/dart.cc:349-353 | The removal threshold is 3 exactly for COUNT3 and COUNT3N, and otherwise 2. |
| DartDropout.TreesToDrop | src/learning/forests/dart.cc:198-209 | Nothing is dropped when the draw is ≤ skip_drop. A rate ≥ 1 gives trunc(rate), and is positive iff 2·rate ≤ size. Otherwise the result is round(rate·size), within [0, size]. |
| DartDropout.SkipAlwaysDropsNothing | src/learning/forests/dart.cc:198-200 | With skip_drop ≥ 1, no draw in [0,1] drops anything. |
| DartDropout.DropAtMostHalf | src/learning/forests/dart.cc:201-205 | An absolute drop count never exceeds half the ensemble. |
| DartDropout.BinarySearch | src/learning/forests/dart.cc:904-920 | A hit r satisfies key < a[r] and (r = 0 or key ≥ a[r−1]). On a nondecreasing array, −1 is returned iff the array is empty or key ≥ the last element, and a hit is the first slot above key. |
| DartDropout.PoolSize | src/learning/forests/dart.cc:685-687 | TOP_FIFTY uses size/2 (integer division), and the other samplers use the whole ensemble. |
| DartDropout.SelectTreesToDropout | src/learning/forests/dart.cc:688-702 | The result is the first min(k, ·) positive-weight entries of the shuffled pool, in pool order. They are distinct, at most k, each below the pool size and of positive weight. |
| DartDropout.CountDrops | src/learning/forests/dart.cc:355-361 | Every counter rises by the number of times its tree was dropped. For distinct drops, a tree is marked iff it was dropped, its counter reaches the threshold and its weight is > 0. |
| DartDropout.FilterCounts | src/learning/forests/dart.cc:458-467 | The filtered counters have one entry per positive weight. |
| DartDropout.FilterCountsAligned | src/learning/forests/dart.cc:458-471 | With nonnegative weights, the counter filter keeps exactly the trees the zero-weight ensemble filter keeps. |
| DartDropout.InitialCountsAsWritten | src/learning/forests/dart.cc:188-189 | The counter vector starts empty whatever the resumed ensemble size. |
| DartDropout.InitialCounts | src/learning/forests/dart.cc:188-189 | It starts with one zero counter per existing tree. |
| DartDropout.ResumedCountsMisaligned | src/learning/forests/dart.cc:186-189 | Resuming from three trees, the counter vector is one entry long after the first push, so tree 2 has no counter. |
| DartDropout.CountsIteration | src/learning/forests/dart.cc:265-471 | One iteration (push at 265-269, counting at 350-361, zeroing at 392-393, compaction at 455-471) from counters aligned with the ensemble. It pushes a zero counter and the new weight. When the fit beat the full model, each dropped tree's counter rises by its drop count, and a tree's weight becomes zero iff it was already zero or it was dropped and its counter reached the threshold. When the model improved, the counters are kept for exactly the trees the ensemble keeps, and no kept weight is zero. The counters again have one entry per tree. |
| DartDropout.KeepNonzero | src/learning/forests/dart.cc:471 | The ensemble filtered of zero-weight trees holds no zero weight. |
| DartNormalize.FactorsSumToOne | src/learning/forests/dart.cc:753-804 | For every rule but NONE, the appended weight plus the dropped-tree scale factor is 1. |
| DartNormalize.FactorsNonnegative | src/learning/forests/dart.cc:753-804 | With a positive shrinkage (and a positive line-search weight for LINESEARCH) and nonnegative dropped weights, the appended weight is positive and the scale is nonnegative. |
| DartNormalize.NoDroppedTreeFullWeight | src/learning/forests/dart.cc:753-762 | For TREE, TREE_ADAPTIVE and TREE_BOOST3 with k = 0 and a nonzero shrinkage, the appended weight is 1. |
| DartNormalize.NormalizeRestoreDrop | src/learning/forests/dart.cc:744-806 | Exactly one weight is appended, and it is the rule's share. NONE appends the shrinkage and scales nothing. |
| DartNormalize.NormalizeRestoreDropOutside | src/learning/forests/dart.cc:744-806 | Every weight outside the dropped list is unchanged. |
| DartNormalize.NormalizeRestoreDropScaled | src/learning/forests/dart.cc:764-804 | A dropped tree listed once is multiplied by the rule's factor exactly once. |
| DartNormalize.NormalizeRestoreDropNonnegative | src/learning/forests/dart.cc:744-806 | With a positive shrinkage (and a positive line-search weight for LINESEARCH), nonnegative weights stay nonnegative. |
| DartNormalize.ScaleEachAt | src/learning/forests/dart.cc:766-767 | A tree listed c times is scaled by factor^c. |
| DartNormalize.LastTreeWeight | src/learning/forests/dart.cc:814-839 | The fitted weight is the shrinkage for TREE, NONE, WEIGHTED and FOREST. It is s/(s+k) for TREE_ADAPTIVE, 3s/(3s+k) for TREE_BOOST3 and the given weight for LINESEARCH. With a positive shrinkage it is positive; for the adaptive rules it is at most 1, and exactly 1 when nothing was dropped. |
| DartNormalize.LastTreeWeightKept | src/learning/forests/dart.cc:832-839 | For TREE_ADAPTIVE, TREE_BOOST3 and NONE, the restored weight equals the fitted weight. |
| DartNormalize.RenormDenominator | src/learning/forests/dart.cc:380 | The denominator lies in [1, trees_to_dropout + 1], so the size_t subtraction does not wrap. |
| DartNormalize.CountRenormalizeElements | src/learning/forests/dart.cc:380-392 | The removed trees get weight 0 and the new tree is divided by denom. Each other dropped tree is multiplied by trees_to_dropout/denom, and every other weight is unchanged. |
| DartNormalize.CountRenormalizeNonnegative | src/learning/forests/dart.cc:380-392 | Nonnegative weights stay nonnegative. |
| DartScores.UpdateModelScores | src/learning/forests/dart.cc:615-631 | Each score changes by exactly sign·Σ w_t·tree_t(x_i) over the listed trees. |
| DartScores.AddThenSubtract | src/learning/forests/dart.cc:615-631 | Adding then subtracting the same list with the same weights restores the scores. |
| DartScores.SubtractIsZeroing | src/learning/forests/dart.cc:220-245 | Subtracting distinct dropped trees gives the score of the ensemble with their weights zeroed. |
| DartScores.DropRestoreConsistent | src/learning/forests/dart.cc:316-326 | The dropped-ensemble scores plus the re-added trees at the restored weights equal the restored ensemble's score. |
| SelectiveBudgets.InterpolatedBetween | src/learning/forests/lambdamartselective.cc:347-352 | The FIXED factor lies between min and max. It is the min at adapt 1 and the max at adapt 0. |
| SelectiveBudgets.MixingFactorsFacts | src/learning/forests/lambdamartselective.cc:335-368 | Both applied factors are ≥ 0 and FIXED gives equal factors. RATIO splits the sum of the factors, and MIX splits the interpolated factor. |
| SelectiveBudgets.RawBudget | src/learning/forests/lambdamartselective.cc:388-433 | It fails iff the strategy is unsupported. MUL: both budgets ≤ n_neg. POS: top ≤ n_neg and random ≤ n_neg − top. POS and MUL give (0,0) with no positives. |
| SelectiveBudgets.ClampAsWritten | src/learning/forests/lambdamartselective.cc:435-439 | A fitting pair is kept. When top ≤ n_neg, total ≤ n_neg and total = top + random. |
| SelectiveBudgets.Clamp | src/learning/forests/lambdamartselective.cc:435-439 | It always gives total = top + random ≤ n_neg, and never raises either budget. An excess is clamped to exactly n_neg. |
| SelectiveBudgets.ClampAgrees | src/learning/forests/lambdamartselective.cc:435-439 | When top ≤ n_neg, the written and the bounded clamp agree. |
| SelectiveBudgets.RatioClampWraps | src/learning/forests/lambdamartselective.cc:354-357 | Adaptive RATIO at 0.8/0.8 with adapt 1 asks 8 top negatives of 5. The written clamp wraps the random budget to 2^64 − 3. |
| SelectiveBudgets.QueryBudget | src/learning/forests/lambdamartselective.cc:388-439 | It fails iff the strategy is unsupported. Otherwise total = top + random ≤ n_neg, and POS keeps the unclamped pair. |
| SelectiveOrder.BeforeIsKeyOrder | src/learning/forests/lambdamartselective.cc:454-462 | The comparator is exactly "positive before negative, then higher score", a strict order on keys. |
| SelectiveOrder.NumPositives | src/learning/forests/lambdamartselective.cc:129-143 | npositives[q] is at most the query size. |
| SelectiveOrder.PositivesFirst | src/learning/forests/lambdamartselective.cc:454-462 | In a comparator-sorted list, entry i is positive iff i < #positives, and each class is by descending score. |
| SelectiveOrder.LastPositiveCount | src/learning/forests/lambdamartselective.cc:411-419 | last_pos + 1 ≥ npositives, so n_neg_before_last_pos does not wrap. |
| SelectiveSampling.NegativesAboveLastPositive | src/learning/forests/lambdamartselective.cc:404-419 | The count of negatives above the last positive is at most the query's negatives. |
| SelectiveSampling.QueryBudgets | src/learning/forests/lambdamartselective.cc:381-439 | It fails iff the strategy is unsupported. Otherwise total = top + random ≤ query size − npositives. |
| SelectiveSampling.QueryOrder | src/learning/forests/lambdamartselective.cc:454-462 | The sorted block is a reordering of the query's ids, in comparator order. |
| SelectiveSampling.Draw | src/learning/forests/lambdamartselective.cc:473-475 | count offsets are drawn from [base, size), distinct, in drawn order and in increasing order. |
| SelectiveSampling.QueryPlan | src/learning/forests/lambdamartselective.cc:379-481 | It fails iff the strategy is unsupported. Otherwise the plan has the query's order, its positives and its budgets. |
| SelectiveSampling.OrderFacts | src/learning/forests/lambdamartselective.cc:454-462 | The sorted query holds each of its ids once, positives exactly first, each class by descending score. |
| SelectiveSampling.SelectionInQuery | src/learning/forests/lambdamartselective.cc:435-483 | A query's selection has npositives + n_total_neg distinct ids, all from the query. |
| SelectiveSampling.SelectionPositives | src/learning/forests/lambdamartselective.cc:454-469 | Every selected id belongs to the query. Every positive of the query is selected, and entry i is positive iff i < npositives[q]. |
| SelectiveSampling.SelectionTopNegatives | src/learning/forests/lambdamartselective.cc:454-469 | Each top negative scores ≥ every unkept negative of the query. |
| SelectiveSampling.Plans | src/learning/forests/lambdamartselective.cc:379-484 | It fails iff there is a query and the strategy is unsupported. Otherwise it gives one plan per query. |
| SelectiveSampling.PlaceFacts | src/learning/forests/lambdamartselective.cc:464-481 | The placement keeps the front before the cursor and puts the query's selection after it. Everything from the query end on is untouched, and ids are only reordered. |
| SelectiveSampling.Advance | src/learning/forests/lambdamartselective.cc:379-483 | One query keeps the permutation invariant and appends its selection to the front. |
| SelectiveSampling.Run | src/learning/forests/lambdamartselective.cc:375-484 | After n queries the front is exactly the concatenated selections and the ids are a permutation. |
| SelectiveSampling.SamplingQueryLevel | src/learning/forests/lambdamartselective.cc:326-492 | With no sampling iterations the cursor is num_instances. Otherwise it fails iff the strategy is unsupported. On success the ids are a permutation, cursor ≤ num_instances, and the front is the selections. |
| SelectiveSampling.PlaceAsWrittenKeeps | src/learning/forests/lambdamartselective.cc:464-481 | The written placement only reorders and leaves later queries untouched. |
| SelectiveSampling.AdvanceAsWritten | src/learning/forests/lambdamartselective.cc:464-483 | The written step keeps the permutation invariant and advances the cursor by the selection size. |
| SelectiveSampling.RunAsWritten | src/learning/forests/lambdamartselective.cc:375-484 | The written pass keeps a permutation, and its cursor is the total selection length. |
| SwapMoves.ScatterPermutes | src/learning/forests/lambdamartselective.cc:477-480 | The random-negative swaps only reorder. |
| SwapMoves.ScatterOutside | src/learning/forests/lambdamartselective.cc:477-480 | Positions past every swapped one are untouched. |
| SwapMoves.BlockMoveFacts | src/learning/forests/lambdamartselective.cc:464-468 | The block move copies source offset k to the cursor plus k, even when the ranges overlap, and leaves the rest. |
| SwapMoves.BlockMovePermutes | src/learning/forests/lambdamartselective.cc:464-468 | The block move only reorders. |
| SwapMoves.GatherFacts | src/learning/forests/lambdamartselective.cc:471-481 | Swapping increasing offsets puts chosen id j at base + j and touches nothing outside the query. |
| SwapMoves.GatherPermutes | src/learning/forests/lambdamartselective.cc:471-481 | The gather only reorders. |
| SamplingCounterexamples.CursorZeroSkipsMove | src/learning/forests/lambdamartselective.cc:464-469 | If the first query selects nothing, the second query's kept ids are not moved, and the written front differs from the selections while Run's front matches. |
| SamplingCounterexamples.DrawOrderOverwrites | src/learning/forests/lambdamartselective.cc:471-481 | Offsets drawn as base+k (k > 1) then base leave the undrawn id at base+1 in the front. The written front then differs from the selections, while Run's front matches. |
| SamplingTotals.SelectedLength | src/learning/forests/lambdamartselective.cc:435-483 | The selections of planned queries total Σ(npositives[q] + n_total_neg[q]). |
| SamplingTotals.CursorIsBudgetSum | src/learning/forests/lambdamartselective.cc:375-492 | The returned cursor (as written and corrected) equals Σ(npositives[q] + n_total_neg[q]), which is ≤ num_instances. |
| SamplingBookkeeping.ResampleDueAsWritten | src/learning/forests/lambdamartselective.cc:171-172 | It faults (m % 0) iff sampling is on with zero iterations. Otherwise it agrees with the guarded test. |
| SamplingBookkeeping.ResampleSchedule | src/learning/forests/lambdamartselective.cc:171-172 | After a resample at m, the next one is exactly at m + sampling_iterations, and none happens at iteration 0. |
| SamplingBookkeeping.SubsampleCount | src/learning/forests/lambdamartselective.cc:195-201 | The count never exceeds the previous one. Above 1 it is min(trunc, n) and positive; below 1 it is floor(f·n) < n. |
| SamplingBookkeeping.SubsampleStep | src/learning/forests/lambdamartselective.cc:186-202 | Only the current sample is shuffled, the count does not grow, the ids stay a permutation, and subsample 1 changes nothing. |
| SamplingBookkeeping.SubsampleFromPrevious | src/learning/forests/lambdamartselective.cc:188-200 | Every id of the new sample was in the previous sample. |
| SamplingBookkeeping.MarkStepsAt | src/learning/forests/lambdamartselective.cc:208-210 | After k rounds, id ids[i] is marked (i < n) if i < k, and is untouched otherwise. |
| SamplingBookkeeping.Presence | src/learning/forests/lambdamartselective.cc:206-211 | Document x is present iff it is among sampleids[0..nsampleids_iter). |
| SamplingBookkeeping.MarkAllOverwrites | src/learning/forests/lambdamartselective.cc:208-210 | A full refresh does not depend on the previous map. |
| SamplingBookkeeping.InitialPresence | src/learning/forests/lambdamartselective.cc:112-123 | The map is allocated iff sampling is on, and then every document is present. |
| SamplingBookkeeping.PresenceAsWritten | src/learning/forests/lambdamartselective.cc:204-211 | It faults iff the sample is smaller than the data and the map is missing. A smaller sample refreshes to Presence, and a full sample leaves the map as it was. |
| SamplingBookkeeping.StalePresence | src/learning/forests/lambdamartselective.cc:204-211 | A full sample keeps a stale "absent" mark that Presence would set to present. |
| SamplingBookkeeping.SubsampleWithoutSampling | src/learning/forests/lambdamartselective.cc:186-211 | With sampling off and subsample < 1, the sample shrinks and the refresh writes through the unallocated map. |
| SamplingBookkeeping.InitialRing | src/learning/forests/lambdamartselective.cc:164 | The ring has (int) normalization_factor entries, all true. |
| SamplingBookkeeping.AdaptStep | src/learning/forests/lambdamartselective.cc:261-270 | Slot m mod size is set and the others are kept. The factor is the fraction of true entries, in [0,1]; it is 1 iff all are true and 0 iff none are. |
| SamplingBookkeeping.AdaptStepCount | src/learning/forests/lambdamartselective.cc:263-269 | The true count moves by at most one per step. |
| SamplingBookkeeping.AdaptStepAsWritten | src/learning/forests/lambdamartselective.cc:261-270 | It faults iff adaptive, factor > 0 and the ring is empty. Otherwise it is AdaptStep when active and unchanged when inactive. |
| SamplingBookkeeping.AdaptStepGuarded | src/learning/forests/lambdamartselective.cc:261-270 | It updates only when adaptive with a nonempty ring, and is unchanged otherwise. |
| SamplingBookkeeping.FractionalRingFaults | src/learning/forests/lambdamartselective.cc:164 | 0 < normalization_factor < 1 gives an empty ring, and the written update faults. The guarded one keeps factor 1. |
| SamplingBookkeeping.GuardedAgrees | src/learning/forests/lambdamartselective.cc:261-270 | With normalization_factor ≥ 1, the written and the guarded update agree. |
| SamplingBookkeeping.InitialFactorIsFraction | src/learning/forests/lambdamartselective.cc:164-165 | The initial factor 1 is the true fraction of the initial ring whenever that ring is nonempty. |

## Left out

- The metric, `compute_pseudoresponses`, the histogram update and regression-tree fitting are outside the model. The metric and the tree outputs are parameters.
- The `learn` loops are not modelled as whole state machines. Their sub-rules are modelled one by one (counts, counters, normalisation, resampling, subsample, presence, adapt ring).
- Model loading and saving (XML, property trees), console output and timing are I/O.
- OpenMP loops are modelled as sequential folds.
- `score_loss_pruning` runs its instance loop under `#pragma omp parallel for` (src/pruning/ensemble_pruning.cc:481-487), and every thread adds to the shared `feature_scores[f]`. That is a data race, which the sequential fold in `FeatureScores` does not model.
- `rand`, `srand`, `std::shuffle` and `std::random_shuffle` are not modelled. Their results come in as draws and permutations.
- The RANDOM policy's rejection loop terminates only with probability one, so it is modelled as taking the first k entries of a random permutation.
- The WEIGHTED and WEIGHTED_INV dropout selection is left out beyond `binary_search`. Its probabilities are rebuilt with floating subtraction, so distinctness and termination are unclear.
- The LINESEARCH grid search for the new tree's weight is not modelled. The weight is a positive parameter.
- `LineSearch::learn` is an external optimiser. Its results are the pre- and post-pruning weight vectors.
- Building the filtered dataset (`filter_dataset`) is layout plumbing. Its column layout is modelled by `KeptValues`.
- `include/learning/tree/rt.h` and `include/learning/forests/randomforest.h` hold declarations only.
- Floating-point rounding and the `(float)` casts are left out: values are reals, and only C `round`, `ceil`, `floor` and the integer casts are modelled.
- `skip_pruning` computes `ceil(i * step)` with `step` a double (src/pruning/ensemble_pruning.cc:399-404). The model picks the exact ⌈i·n/s⌉. For n = 36, s = 28 and i = 21 the double product is 27.000000000000004, so the source picks column 28 where the model picks 27, and the two selected sets differ. The properties stated for the skip policy hold for both (s columns, all below n, column 0 among them).
- Labels are natural grades, and a document counts as positive when its label is > 0.
- `std::sort` leaves the order of equal keys unspecified. The model uses one stable order, and the ordering properties hold for it.
- SelectiveSampling.Plans: every query's plan is computed before the placement pass. This is sound because a query's plan reads only its own block, which no earlier query moves (`Inv`).
- SelectiveSampling.SamplingQueryLevel: requires nonnegative sampling factors and an adapt factor in [0,1]. With negative factors the `(size_t)` casts of negative budgets are undefined.
- SelectiveSampling.SamplingQueryLevel: an unrecognised adaptive-strategy string leaves the two factors uninitialised in the source. The model only admits the four recognised strategies.
- SelectiveSampling.SamplingQueryLevel: uses the corrected `Clamp` and the gather-then-move placement of `Run`, so on the inputs of Findings rows 2-4 its selected front is not the one the source produces.
- EnsemblePruning.PruneCountAsWritten: requires a nonnegative rate. A negative rate would be cast to `unsigned int`.
- SamplingBookkeeping.SubsampleCount: requires a nonnegative subsample. A negative fraction's floor cast to `size_t` is not modelled.
- DartNormalize.NormalizeRestoreDrop: requires the rule's denominator to be nonzero (`shrinkage·alpha + k`, `1 + shrinkage`, `sum + shrinkage` or `lineSearchWeight + k`). Where it is zero the source divides by zero and gets an infinity or NaN, which reals cannot express.
- DartNormalize.LastTreeWeight: requires a nonzero denominator for TREE_ADAPTIVE and TREE_BOOST3. With shrinkage 0 and no dropped tree the source divides 0 by 0 and gets NaN, which reals cannot express. Positivity and the bound by 1 are stated only for a positive shrinkage.
- SamplingBookkeeping.InitialRing: requires a nonnegative normalization factor. A negative vector size throws in the source.
- SamplingBookkeeping.SubsampleStep: the subsample compounds as written: every iteration shrinks the previous sample again.

## Findings

| source | as written | input that shows it | evidently intended | confidence | as-written member | corrected member |
|---|---|---|---|---|---|---|
| src/pruning/ensemble_pruning.cc:127-136 | A fractional rate is rounded and never checked against the number of columns. | pruning_rate 0.95 with 10 columns gives k = 10: every column is pruned. | Stop whenever k ≥ n, as for absolute counts. | not executed | EnsemblePruning.FractionPrunesEverything | EnsemblePruning.PruneCount |
| src/learning/forests/lambdamartselective.cc:435-439 | The clamp sets `n_random_neg = n_neg_query - n_top_neg` in `size_t`, although `n_top_neg` alone can exceed `n_neg_query`. | Adaptive RATIO, both factors 0.8, adapt factor 1, RATIO negatives, 5 negatives: top = 8, so random wraps to 2^64 − 3. | Bound the top budget by the negatives first. | not executed | SelectiveBudgets.RatioClampWraps | SelectiveBudgets.Clamp |
| src/learning/forests/lambdamartselective.cc:464-469 | The kept ids are moved to the cursor only when `cursor > 0`. | The first query (≥ 1 document) selects nothing and the second keeps ≥ 1 id: the front keeps an id of the first query. | Move whenever the cursor is behind the query start. | not executed | SamplingCounterexamples.CursorZeroSkipsMove | SelectiveSampling.Run |
| src/learning/forests/lambdamartselective.cc:471-481 | The random negatives are swapped in drawn order into the positions right after the kept part, which are themselves candidates. | Drawn offsets base+k (k > 1) then base: the undrawn id at base+1 lands in the selection. | Gather the drawn ids without overwriting candidates (in increasing offset order). | not executed | SamplingCounterexamples.DrawOrderOverwrites | SelectiveSampling.Run |
| src/learning/forests/lambdamartselective.cc:164 | The ring size is `(int) normalization_factor`, and the update only checks `normalization_factor > 0`. | normalization_factor 0.5 with an adaptive strategy: an empty ring, then `m % 0`. | Update only with a nonempty ring. | not executed | SamplingBookkeeping.FractionalRingFaults | SamplingBookkeeping.AdaptStepGuarded |
| src/learning/forests/lambdamartselective.cc:171-172 | `m % sampling_iterations` is evaluated before `m > 0` and with zero iterations. | A sampling factor > 0 with sampling_iterations 0: a remainder by zero at m = 0. | Zero iterations means never resample. | not executed | SamplingBookkeeping.ResampleDueAsWritten | SamplingBookkeeping.ResampleSchedule |
| src/learning/forests/dart.cc:188-189 | The drop counters start empty even when training resumes from a non-empty ensemble. | Resume from 3 trees, COUNT2, and tree 2 is dropped: `counts[2]` is out of range. | One zero counter per existing tree. | not executed | DartDropout.ResumedCountsMisaligned | DartDropout.CountsIteration |
| src/learning/forests/lambdamartselective.cc:206-211 | The presence map is refreshed only when the sample is smaller than the data set. | One iteration with a smaller sample, then a resample that keeps every document: the documents marked absent stay absent. | Refresh whenever the sample changes. | not executed | SamplingBookkeeping.StalePresence | SamplingBookkeeping.Presence |
| src/learning/forests/lambdamartselective.cc:112-115 | The map is allocated only when a sampling factor is positive, but a subsample < 1 also shrinks the sample. | Both sampling factors 0 with subsample 0.5: the refresh writes into a map that was never allocated. | Allocate the map whenever the sample can shrink. | not executed | SamplingBookkeeping.SubsampleWithoutSampling | SamplingBookkeeping.Presence |
