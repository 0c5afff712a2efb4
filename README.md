# JEvolve's sequential engine in Dafny

This project models the sequential core of JEvolve, a Java genetic-algorithm
library, and proves properties of the model. It covers:

- **Individuals.** An individual has a fitness vector, a constraint error, a
  Pareto rank, a crowding distance, flags and a genotype. The model covers
  Pareto dominance with its `1e-10` tolerance, constrained dominance, fitness
  distance, genotype distance, and the id counter that `clone` and
  `deepCopy` advance.
- **Hot-spot individuals.** The model covers the hot-spot array
  (`HotSpotIndividual`): the prefix-sum lookup, crossover events, and the
  soft and hard resets.
- **Genotype operators.** Single-point, two-point, uniform and order (OX)
  crossover, and swap mutation.
- **Populations.** Adding and removing individuals and elites, evaluation,
  the fitness sort, elitism (`processElites`) and `clone`. For the
  multi-objective population, the NSGA-II sort (`sortParetoRank`): repeated
  non-dominated fronts, crowding distance, and the sort by crowding.
- **Breeders.** Generational, steady-state, Dynamic NSGA, NT-NSGA and
  deterministic crowding.
- **Problems.** The simple problem and the deterministic-crowding problem:
  initialisation with a shadow population, the population swap in `breed`,
  elitist and crowding replacement, and evaluation.
- **The stepper.** The phase order of one generation, the `evolve` loop, and
  problem registration.

### How the model is built

- **Individuals are values.** Every `Individual` is a datatype value, and an
  object's identity is its `id` field.
- **The id counter.** The static counter `last_id` is the class `IdSource`.
  `clone` and `deepCopy` are methods that take the next id from it.
- **Populations, problems and the stepper are classes.** `Population`,
  `Problem` and `Stepper` have `seq` fields that their methods reassign, and
  `HotSpotIndividual` keeps its hot-spot `array`.
- **Randomness is a parameter.** Every random number generator call becomes
  a parameter: unit draws in `[0, 1)` for crossover points, tournament
  candidates, mutation positions and shuffle swaps.
- **Operators are function values.** The selector, the recombinator and the
  mutator that a breeder calls form the `Operators` function value.
- **Proof style.** Each operation that loops or changes state is a method
  proved against a specification function: `Bred`, `WorstReplaced`,
  `Appended`, `Crowded`, `ParetoSorted`, `StepCalls` and so on. The lemmas
  state what the source promises about those functions.

## Model

All source paths are under `src/main/java/com/ridderware/jevolve/`; the table
writes them in full.

| member | source | states |
|---|---|---|
| Individuals.AddCrowding | src/main/java/com/ridderware/jevolve/Individual.java:409-412 | adding crowding distances as `double` does: two finite gaps add exactly, and a sum involving `MAX_VALUE` or more stays at `MAX_VALUE` or more |
| Individuals.AddCrowdingCommutes | src/main/java/com/ridderware/jevolve/Individual.java:409-412 | crowding additions commute, so the order of the objective passes does not matter for the total |
| Individuals.CrowdKeyOrder | src/main/java/com/ridderware/jevolve/Population.java:774-799 | the real key used for sorting orders crowding distances exactly as the crowding comparator's `>` does |
| Individuals.CheckDominance | src/main/java/com/ridderware/jevolve/Individual.java:452-506 | the two counter loops return DOMINATING iff `a` is within tolerance no worse everywhere and `b` is not within tolerance of `a` everywhere; DOMINATED in the mirrored case; INCOMPARABLE otherwise |
| Individuals.SelfIncomparable | src/main/java/com/ridderware/jevolve/Individual.java:459-474 | comparing a fitness vector with itself gives INCOMPARABLE |
| Individuals.DominatedMirrors | src/main/java/com/ridderware/jevolve/Individual.java:452-506 | if `f` is dominated by `g` then `g` dominates `f` |
| Individuals.DominatingMirrors | src/main/java/com/ridderware/jevolve/Individual.java:452-506 | if `f` dominates `g` and no objective sits exactly on the tolerance boundary, then `g` is dominated by `f` |
| Individuals.MutualDominationOnBoundary | src/main/java/com/ridderware/jevolve/Individual.java:459-479 | `(0, 1e-10)` and `(1e-10, 0)` each DOMINATE the other, because the tolerance test is not strict |
| Individuals.ConstrainedDominance | src/main/java/com/ridderware/jevolve/Individual.java:518-565 | feasible beats infeasible and the reverse is DOMINATED; two infeasible individuals are never INCOMPARABLE and the smaller error dominates; with one objective, a strictly smaller fitness decides |
| Individuals.ConstrainedDominanceSwap | src/main/java/com/ridderware/jevolve/Individual.java:553-564 | with an infeasible side, `a` dominates `b` iff `b` is dominated by `a` with distinct errors; equal errors give DOMINATED both ways |
| Individuals.ConstrainedSelf | src/main/java/com/ridderware/jevolve/Individual.java:518-565 | compared with itself, a feasible individual is INCOMPARABLE and an infeasible one DOMINATED |
| Individuals.MeasureFitnessDistance | src/main/java/com/ridderware/jevolve/Individual.java:435-444 | the loop sums the absolute objective differences, and the sum is non-negative |
| Individuals.FitnessDistanceNonNegative | src/main/java/com/ridderware/jevolve/Individual.java:435-444 | fitness distance is never negative |
| Individuals.FitnessDistanceSymmetric | src/main/java/com/ridderware/jevolve/Individual.java:435-444 | fitness distance is symmetric |
| Individuals.FitnessDistanceZero | src/main/java/com/ridderware/jevolve/Individual.java:435-444 | fitness distance is zero iff the two fitness prefixes are equal |
| Individuals.IdSource.constructor | src/main/java/com/ridderware/jevolve/Individual.java:45 | the id counter starts at 0 |
| Individuals.IdSource.Next | src/main/java/com/ridderware/jevolve/Individual.java:69 | `++last_id`: the issued id is one more than the last and becomes the last |
| Individuals.Clone | src/main/java/com/ridderware/jevolve/Individual.java:573-605 | the clone equals the original except for a fresh id, the next one issued |
| Individuals.DeepCopy | src/main/java/com/ridderware/jevolve/Individual.java:613-632 | the target takes the source's state, keeps its own number of objectives, and takes a fresh id |
| Individuals.FreshIdIsNew | src/main/java/com/ridderware/jevolve/Individual.java:595 | an id issued after every id in a list differs from all of them |
| GAIndividuals.SetValue | src/main/java/com/ridderware/jevolve/GAIndividual.java:65-68 | only position `i` changes, to `v`; the length and everything else are kept |
| GAIndividuals.Initialize | src/main/java/com/ridderware/jevolve/GAIndividual.java:185-193 | the genotype becomes one drawn value per gene, so its length is the genome size |
| GAIndividuals.GenotypeDistance | src/main/java/com/ridderware/jevolve/GAIndividual.java:238-252 | the loop counts the positions, over the argument's length, where the two genotypes differ |
| GAIndividuals.MismatchesAtMost | src/main/java/com/ridderware/jevolve/GAIndividual.java:243-249 | the distance is at most the number of positions compared |
| GAIndividuals.MismatchesZero | src/main/java/com/ridderware/jevolve/GAIndividual.java:238-252 | the distance is zero iff the compared prefixes are equal, so an individual has distance 0 to itself |
| GAIndividuals.MismatchesSymmetric | src/main/java/com/ridderware/jevolve/GAIndividual.java:238-252 | the mismatch count is symmetric |
| GAIndividuals.BoxDistance | src/main/java/com/ridderware/jevolve/GAIndividual.java:238-252 | the distance loop as written, comparing boxed genes by reference: it counts the positions whose boxes differ |
| GAIndividuals.BoxMismatchesBound | src/main/java/com/ridderware/jevolve/GAIndividual.java:243-249 | comparing boxes counts at least the value mismatches, and exactly those when equal values always share one box |
| GAIndividuals.BoxDistanceCountsEqualValues | src/main/java/com/ridderware/jevolve/GAIndividual.java:245 | two equal gene values in different boxes count as a mismatch, though the value distance is 0 |
| HotSpots.JavaDiv | src/main/java/com/ridderware/jevolve/HotSpotIndividual.java:170-176 | Java's `int` division, which truncates toward zero, agrees with Dafny's on non-negative operands |
| HotSpots.HotSpotIndividual.constructor | src/main/java/com/ridderware/jevolve/HotSpotIndividual.java:58-64 | records the initial value and the chunk limit, with an empty hot-spot array |
| HotSpots.HotSpotIndividual.TotalHotSpotPoints | src/main/java/com/ridderware/jevolve/HotSpotIndividual.java:101-109 | the loop returns the sum of the hot spots over the genotype length |
| HotSpots.HotSpotIndividual.HotSpotIndexFromPoints | src/main/java/com/ridderware/jevolve/HotSpotIndividual.java:117-126 | returns the least index whose running sum exceeds the points, and that index is in bounds |
| HotSpots.LookupInBounds | src/main/java/com/ridderware/jevolve/HotSpotIndividual.java:117-126 | a point value below the total has an index whose running sum exceeds it, so the lookup stays in bounds |
| HotSpots.HotSpotIndividual.Initialize | src/main/java/com/ridderware/jevolve/HotSpotIndividual.java:133-142 | a fresh array as long as the new genotype, every entry the initial value |
| HotSpots.HotSpotIndividual.AddCrossoverEvent | src/main/java/com/ridderware/jevolve/HotSpotIndividual.java:151-155 | adds 1 at each of the two locations (2 if they coincide), changes nothing else, and raises the total by exactly 2 |
| HotSpots.PrefixAfterEvents | src/main/java/com/ridderware/jevolve/HotSpotIndividual.java:151-155 | two increments inside the summed prefix raise the prefix sum by 2 |
| HotSpots.PrefixDifference | src/main/java/com/ridderware/jevolve/HotSpotIndividual.java:151-155 | a prefix sum rises by the number of increments that fall inside it |
| HotSpots.HotSpotIndividual.SoftReset | src/main/java/com/ridderware/jevolve/HotSpotIndividual.java:164-179 | each entry over the genotype becomes its truncated quotient by the factor, clamped from below (from above for a negative initial value) at the initial value; the rest are kept |
| HotSpots.SoftResetBound | src/main/java/com/ridderware/jevolve/HotSpotIndividual.java:164-179 | after a soft reset an entry is at least the initial value when that is non-negative, and at most it otherwise |
| HotSpots.HotSpotIndividual.HardReset | src/main/java/com/ridderware/jevolve/HotSpotIndividual.java:185-191 | the array is left unchanged, because the loop assigns only to its loop variable |
| HotSpots.HotSpotIndividual.Clone | src/main/java/com/ridderware/jevolve/HotSpotIndividual.java:199-210 | a fresh object and a fresh array with equal contents; the individual gets a fresh id |
| HotSpots.HotSpotIndividual.DeepCopyFrom | src/main/java/com/ridderware/jevolve/HotSpotIndividual.java:218-227 | takes the source's state and a fresh id, and shares the source's hot-spot array (aliasing, as written) |
| Recombination.Truncate | src/main/java/com/ridderware/jevolve/SinglePointCrossover.java:83-84 | the `(int)` cast rounds toward zero |
| Recombination.ScaleRange | src/main/java/com/ridderware/jevolve/SinglePointCrossover.java:83-84 | a unit draw scaled by `n >= 1` lands in `[0, n)`, and by `n` in `-1..1` gives 0 |
| Recombination.CutPointOfTinyGenome | src/main/java/com/ridderware/jevolve/SinglePointCrossover.java:83-84 | with at most 2 genes the cut point is always 0 |
| Recombination.NoDistinctDrawForTinyGenome | src/main/java/com/ridderware/jevolve/TwoPointCrossover.java:73-80 | with at most 2 genes every draw gives cut point 0, so no draw ends the redraw loop |
| Recombination.RedrawCanEnd | src/main/java/com/ridderware/jevolve/TwoPointCrossover.java:73-80 | with 3 or more genes some unit draw gives a point different from any first one, so the loop can end |
| Recombination.FirstDistinct | src/main/java/com/ridderware/jevolve/TwoPointCrossover.java:76-80 | the redraw loop stops at the first draw giving a point different from the first one, and every earlier draw repeats it |
| Recombination.DrawDistinct | src/main/java/com/ridderware/jevolve/TwoPointCrossover.java:73-80 | the redraw loop returns the point of that first differing draw |
| Recombination.ChooseCuts | src/main/java/com/ridderware/jevolve/TwoPointCrossover.java:73-87 | after ordering, `x1 < x2`, and the two are the drawn points |
| Recombination.HeadTail | src/main/java/com/ridderware/jevolve/SinglePointCrossover.java:100-122 | head (positions `<= x`) and tail together give back the genotype |
| Recombination.SplitAt | src/main/java/com/ridderware/jevolve/SinglePointCrossover.java:100-122 | the split loop produces that head and tail |
| Recombination.SplitAt2 | src/main/java/com/ridderware/jevolve/TwoPointCrossover.java:105-135 | the three-way split loop produces head, middle and tail, which concatenate to the genotype |
| Recombination.CopyParents | src/main/java/com/ridderware/jevolve/SinglePointCrossover.java:54-65 | without recombination, each present child becomes a deep copy of its parent with a fresh id |
| SinglePointCrossover.SpliceExchanges | src/main/java/com/ridderware/jevolve/SinglePointCrossover.java:100-140 | equal-length parents give equal-length children; up to the cut the boy has mom's genes and the girl dad's, after it the reverse; each position holds the parents' two values |
| SinglePointCrossover.Recombine | src/main/java/com/ridderware/jevolve/SinglePointCrossover.java:51-159 | without recombination the children are deep copies; with it, the boy is momhead ++ dadtail and the girl dadhead ++ momtail, both unevaluated, and a missing girl fails |
| TwoPointCrossover.SpliceExchanges | src/main/java/com/ridderware/jevolve/TwoPointCrossover.java:105-143 | the children keep the length; outside the middle the boy has mom's genes and the girl dad's, inside it the reverse |
| TwoPointCrossover.Recombine | src/main/java/com/ridderware/jevolve/TwoPointCrossover.java:47-148 | without recombination the children are deep copies; with it, they are the two-point splices at the ordered cut points, unevaluated |
| TwoPointCrossover.GuardedRecombine | src/main/java/com/ridderware/jevolve/TwoPointCrossover.java:47-148 | `recombine` with genomes of fewer than 3 genes copied like a declined crossover; otherwise the same two-point splice |
| UniformCrossover.ChildrenExchange | src/main/java/com/ridderware/jevolve/UniformCrossover.java:70-82 | the children are as long as mom; at each position they hold mom's and dad's values in one order or the other; together they hold the parents' genes |
| UniformCrossover.ExchangeMultiset | src/main/java/com/ridderware/jevolve/UniformCrossover.java:70-82 | after any number of positions, the children's genes are the parents' genes as a multiset |
| UniformCrossover.Recombine | src/main/java/com/ridderware/jevolve/UniformCrossover.java:39-87 | without recombination the children are deep copies; with it, they are the per-position coin exchange, unevaluated |
| OrderCrossover.RemoveFirstRemovesOne | src/main/java/com/ridderware/jevolve/OrderCrossover.java:164-167 | `list.remove(val)` removes one occurrence if present, and the length drops by one exactly then |
| OrderCrossover.RemoveEachRemovesAll | src/main/java/com/ridderware/jevolve/OrderCrossover.java:164-167 | removing the middle's values one by one removes them as a multiset |
| OrderCrossover.RemoveValues | src/main/java/com/ridderware/jevolve/OrderCrossover.java:164-167 | the removal loop computes that repeated removal |
| OrderCrossover.PopFront | src/main/java/com/ridderware/jevolve/OrderCrossover.java:172-176 | the `remove(0)` loop takes the first `n` values and leaves the rest |
| OrderCrossover.ChildIsPermutation | src/main/java/com/ridderware/jevolve/OrderCrossover.java:156-218 | for parents that permute each other: remainder plus middle has the genotype length; the child is a permutation of the parent as long as the genotype; its middle is the donor's middle; a parent without repeats gives a child without repeats |
| OrderCrossover.Recombine | src/main/java/com/ridderware/jevolve/OrderCrossover.java:52-223 | genotypes of size at most 1, or no recombination, give deep copies; otherwise the children are the OX children at the ordered cuts, unevaluated |
| OrderCrossover.GuardedRecombine | src/main/java/com/ridderware/jevolve/OrderCrossover.java:52-223 | `recombine` with genotypes of fewer than 3 genes copied like a declined crossover; otherwise the same OX children |
| SwapMutator.SwapIsPermutation | src/main/java/com/ridderware/jevolve/SwapMutator.java:51-54 | the swap exchanges positions `p1` and `p2`, changes nothing else, and keeps the length and the multiset |
| SwapMutator.Mutate | src/main/java/com/ridderware/jevolve/SwapMutator.java:33-58 | nothing changes unless the draw passes and there are more than one gene; then two distinct in-bounds positions are swapped and the individual is unevaluated |
| Tournament.Winner | src/main/java/com/ridderware/jevolve/MultiObjectiveTournament.java:70-88 | the winner is one of the two candidates with the lower rank; on equal rank the strictly larger crowding wins, otherwise candidate 2 |
| Tournament.CrowdingGreaterIsStrictOrder | src/main/java/com/ridderware/jevolve/MultiObjectiveTournament.java:80 | the crowding comparison is irreflexive, asymmetric and transitive |
| Tournament.WinnerByRankIsSymmetric | src/main/java/com/ridderware/jevolve/MultiObjectiveTournament.java:70-77 | when the ranks differ, the winner does not depend on the candidates' order |
| Tournament.Select | src/main/java/com/ridderware/jevolve/MultiObjectiveTournament.java:49-89 | an empty population selects nothing; otherwise candidate 1 is the first draw, candidate 2 differs from it when there are two or more individuals, and the result is their winner |
| Sorting.InsertBy | src/main/java/com/ridderware/jevolve/Population.java:453-456 | inserting adds exactly the one element |
| Sorting.SortBy | src/main/java/com/ridderware/jevolve/Population.java:453-456 | the sort is a permutation of its input |
| Sorting.InsertBySorted | src/main/java/com/ridderware/jevolve/Population.java:754-768 | inserting into a sorted list keeps it sorted by the comparator's key |
| Sorting.SortBySorted | src/main/java/com/ridderware/jevolve/Population.java:754-768 | the sort's result is non-decreasing in the key |
| Sorting.InsertByWithKey | src/main/java/com/ridderware/jevolve/Population.java:453-456 | inserting into a sorted list puts the new element after every element with the same key, and keeps their order |
| Sorting.SortByStable | src/main/java/com/ridderware/jevolve/Population.java:453-456 | the sort is stable: the elements with any one key come out in their input order |
| Pareto.FrontMask | src/main/java/com/ridderware/jevolve/MultiObjectivePopulation.java:129-177 | the front marks one flag per unranked individual |
| Pareto.InnerFacts | src/main/java/com/ridderware/jevolve/MultiObjectivePopulation.java:141-175 | one comparison round only removes members and keeps someone; a newcomer that stays is incomparable to those left; every member it removes is beaten |
| Pareto.ScanFacts | src/main/java/com/ridderware/jevolve/MultiObjectivePopulation.java:129-177 | after the scan, the front members are mutually incomparable and everyone outside the front is beaten by someone |
| Pareto.FrontFacts | src/main/java/com/ridderware/jevolve/MultiObjectivePopulation.java:179-182 | the front of a non-empty population is non-empty, so the early exit never triggers and the loop terminates |
| Pareto.Reset | src/main/java/com/ridderware/jevolve/MultiObjectivePopulation.java:185-188 | each front member gets the front's rank and zero crowding |
| Pareto.CrowdPass | src/main/java/com/ridderware/jevolve/MultiObjectivePopulation.java:195-202 | one crowding pass keeps the front's size |
| Pareto.CrowdPassKeeps | src/main/java/com/ridderware/jevolve/MultiObjectivePopulation.java:195-202 | a pass changes crowding only, and never takes it below `MAX_VALUE` once there |
| Pareto.CrowdPassEnds | src/main/java/com/ridderware/jevolve/MultiObjectivePopulation.java:195-196 | the first and last members get `MAX_VALUE` or more |
| Pareto.CrowdPassExtremes | src/main/java/com/ridderware/jevolve/MultiObjectivePopulation.java:191-203 | a pass keeps the extremes of any objective at `MAX_VALUE` or more |
| Pareto.PassMakesExtremes | src/main/java/com/ridderware/jevolve/MultiObjectivePopulation.java:193-196 | sorting by objective `k` and passing gives a lowest and a highest member for `k` crowding of `MAX_VALUE` or more |
| Pareto.CrowdPasses | src/main/java/com/ridderware/jevolve/MultiObjectivePopulation.java:191-203 | the passes over all objectives keep the size |
| Pareto.CrowdPassesKeepExtremes | src/main/java/com/ridderware/jevolve/MultiObjectivePopulation.java:191-203 | later passes keep the extremes made by earlier ones |
| Pareto.CrowdPassesMakeExtremes | src/main/java/com/ridderware/jevolve/MultiObjectivePopulation.java:191-203 | after the passes, every objective passed over has its extremes at `MAX_VALUE` or more |
| Pareto.CrowdPassesStrip | src/main/java/com/ridderware/jevolve/MultiObjectivePopulation.java:191-203 | the passes only reorder the front and change crowding |
| Pareto.CrowdPassesRank | src/main/java/com/ridderware/jevolve/MultiObjectivePopulation.java:191-203 | the passes keep every member's rank |
| Pareto.Crowded | src/main/java/com/ridderware/jevolve/MultiObjectivePopulation.java:184-206 | a crowded front has the front's size |
| Pareto.CrowdedStrip | src/main/java/com/ridderware/jevolve/MultiObjectivePopulation.java:184-206 | a crowded front is a permutation of the front, up to rank and crowding |
| Pareto.CrowdedRank | src/main/java/com/ridderware/jevolve/MultiObjectivePopulation.java:136 | every member of a crowded front has the front's rank |
| Pareto.CrowdedOrder | src/main/java/com/ridderware/jevolve/MultiObjectivePopulation.java:206 | along a crowded front the crowding distance never increases |
| Pareto.ExtremesPermute | src/main/java/com/ridderware/jevolve/MultiObjectivePopulation.java:206 | reordering a front keeps its extreme members' crowding |
| Pareto.CrowdedExtremes | src/main/java/com/ridderware/jevolve/MultiObjectivePopulation.java:191-203 | for every objective, a lowest and a highest member of a crowded front have crowding `MAX_VALUE` or more |
| Pareto.RankFrom | src/main/java/com/ridderware/jevolve/MultiObjectivePopulation.java:124-226 | the ranked fronts together have the population's size |
| Pareto.RankFromRound | src/main/java/com/ridderware/jevolve/MultiObjectivePopulation.java:124-224 | one round takes a non-empty front, crowds it at rank `r`, and ranks the rest from `r + 1` |
| Pareto.RankFromStrip | src/main/java/com/ridderware/jevolve/MultiObjectivePopulation.java:208-230 | the sort keeps every individual, changing only rank and crowding |
| Pareto.RankFromRanks | src/main/java/com/ridderware/jevolve/MultiObjectivePopulation.java:124-226 | ranks start at `r`, never decrease, and rise one at a time |
| Pareto.RankFromCrowding | src/main/java/com/ridderware/jevolve/MultiObjectivePopulation.java:206 | within each rank, crowding never increases |
| Pareto.Unranked | src/main/java/com/ridderware/jevolve/MultiObjectivePopulation.java:110-113 | every rank reset to -1, and the size kept |
| Pareto.ParetoSorted | src/main/java/com/ridderware/jevolve/MultiObjectivePopulation.java:107-231 | the sort keeps the population's size |
| Pareto.ParetoSortedFacts | src/main/java/com/ridderware/jevolve/MultiObjectivePopulation.java:107-231 | `sortParetoRank` gives a permutation of the population up to rank and crowding, ranks from 0 rising one at a time (so all at least 0), and crowding non-increasing within each rank |
| Pareto.RankFromUndominated | src/main/java/com/ridderware/jevolve/MultiObjectivePopulation.java:124-226 | no ranked member is dominated by another member of its rank |
| Pareto.RankFromBeaten | src/main/java/com/ridderware/jevolve/MultiObjectivePopulation.java:124-226 | every member above the first rank is beaten by another member at most one rank below it |
| Pareto.ParetoRanksMeaning | src/main/java/com/ridderware/jevolve/MultiObjectivePopulation.java:107-231 | after `sortParetoRank`, no member is dominated by a member of its own rank, and every member above rank 0 is beaten by another member of at least the rank below it |
| Pareto.FrontBeater | src/main/java/com/ridderware/jevolve/MultiObjectivePopulation.java:129-175 | where beating is a strict order, each member left out of a front is beaten by a member of that front |
| Pareto.RankFromBeatenFromPreviousRank | src/main/java/com/ridderware/jevolve/MultiObjectivePopulation.java:124-226 | where beating is a strict order, every member above the first rank is beaten by a member exactly one rank below it |
| Pareto.ParetoRanksFromPreviousRank | src/main/java/com/ridderware/jevolve/MultiObjectivePopulation.java:107-231 | where beating is a strict order on the population, every member of rank `r + 1` after `sortParetoRank` is beaten by a member of rank `r` |
| Pareto.TwoObjectiveDominance | src/main/java/com/ridderware/jevolve/Individual.java:452-506 | for two feasible objectives, the constrained dominance outcome written out as comparisons within `1e-10` |
| Pareto.ToleranceFronts | src/main/java/com/ridderware/jevolve/MultiObjectivePopulation.java:129-175 | the five-member tolerance population: its first front is `g, f` and the next is `c, z` |
| Pareto.SecondFrontUnbeaten | src/main/java/com/ridderware/jevolve/MultiObjectivePopulation.java:124-226 | a second-front member that no first-front member beats gets rank `r + 1` and no member of rank `r` beats it |
| Pareto.RankNotBeatenFromPreviousRank | src/main/java/com/ridderware/jevolve/Individual.java:459-479 | in the tolerance population, the sort gives rank 1 to a member that no member of rank 0 beats |
| Pareto.ToleranceBreaksPreviousRank | src/main/java/com/ridderware/jevolve/MultiObjectivePopulation.java:107-231 | so the sorted tolerance population does not have every rank beaten from the rank before |
| Pareto.IncomparableUnbeaten | src/main/java/com/ridderware/jevolve/Individual.java:459-505 | when no objective sits exactly one tolerance from the other's, an individual that finds another incomparable is not beaten by it and does not beat it |
| Pareto.FrontPairUnbeaten | src/main/java/com/ridderware/jevolve/MultiObjectivePopulation.java:141-175 | off the tolerance boundary and under a strict order, no member the scan keeps in the front beats another member of the front |
| Pareto.FrontUnbeaten | src/main/java/com/ridderware/jevolve/MultiObjectivePopulation.java:141-175 | off the tolerance boundary and under a strict order, no member of the population beats a member of the front |
| Pareto.FirstRankUnbeaten | src/main/java/com/ridderware/jevolve/MultiObjectivePopulation.java:107-231 | off the tolerance boundary and under a strict order, no member of the sorted fronts beats a member given the first rank |
| Pareto.ParetoRankZeroUnbeaten | src/main/java/com/ridderware/jevolve/MultiObjectivePopulation.java:107-231 | off the tolerance boundary and under a strict order, rank 0 after `sortParetoRank` holds only members that no member beats |
| Pareto.IntransitiveComparisons | src/main/java/com/ridderware/jevolve/Individual.java:459-505 | in the intransitive population, `w` dominates `y`, `x` finds `w` incomparable, and `y` beats `x` |
| Pareto.IntransitiveOffBoundary | src/main/java/com/ridderware/jevolve/Individual.java:459-505 | the intransitive population has no two objectives exactly one tolerance apart, yet `w` beats `y` and `y` beats `x` while `w` does not beat `x`, so beating is no strict order on it |
| Pareto.IntransitiveFronts | src/main/java/com/ridderware/jevolve/MultiObjectivePopulation.java:141-175 | the first front of the intransitive population is `w` and `x`, and the second is `y` alone |
| Pareto.SortedSecondFrontBeats | src/main/java/com/ridderware/jevolve/MultiObjectivePopulation.java:107-231 | a member of the second front that beats a member of the first leaves the sort with rank 1, beating a member of rank 0 |
| Pareto.IntransitiveBeatsRankZero | src/main/java/com/ridderware/jevolve/MultiObjectivePopulation.java:107-231 | in the intransitive population, the sort gives `x` rank 0 although `y`, given rank 1, beats it |
| Pareto.BeatenRankZero | src/main/java/com/ridderware/jevolve/MultiObjectivePopulation.java:107-231 | a member of rank 1 that beats a member of rank 0 means rank 0 is not unbeaten |
| Pareto.BoundaryPairComparisons | src/main/java/com/ridderware/jevolve/Individual.java:459-505 | in the boundary pair, the second member finds the first incomparable while the first beats the second; beating is a strict order on the pair, yet the pair sits on the tolerance boundary |
| Pareto.SortedFrontBeats | src/main/java/com/ridderware/jevolve/MultiObjectivePopulation.java:107-231 | a member of the first front that beats another member of the first front leaves rank 0 beaten |
| Pareto.StrictOrderOnBoundary | src/main/java/com/ridderware/jevolve/MultiObjectivePopulation.java:107-231 | a strict order alone does not make rank 0 unbeaten: both members of the boundary pair get rank 0 and the first beats the second |
| Pareto.FindFront | src/main/java/com/ridderware/jevolve/MultiObjectivePopulation.java:129-177 | the nested front loops compute the front mask |
| Pareto.CrowdFront | src/main/java/com/ridderware/jevolve/MultiObjectivePopulation.java:184-206 | the crowding code for one front computes the crowded front |
| Pareto.Pass | src/main/java/com/ridderware/jevolve/MultiObjectivePopulation.java:195-202 | the interior-gap loop computes one crowding pass |
| Pareto.RemoveFront | src/main/java/com/ridderware/jevolve/MultiObjectivePopulation.java:212-218 | the iterator removal keeps the rest in order |
| Populations.AddedFacts | src/main/java/com/ridderware/jevolve/Population.java:404-411 | adding keeps the list as a prefix, grows it by one only if the id was absent, and creates no duplicate id |
| Populations.AddedAllFacts | src/main/java/com/ridderware/jevolve/Population.java:349-352 | adding a list one by one keeps a prefix, adds at most its length, holds every added id, and creates no duplicate |
| Populations.AddedAllDistinct | src/main/java/com/ridderware/jevolve/MultiObjectivePopulation.java:76-82 | adding distinct individuals to an empty list gives them back in order |
| Populations.RemovedIdAbsent | src/main/java/com/ridderware/jevolve/Population.java:432-435 | removing an absent individual changes nothing |
| Populations.RemovedIdPresent | src/main/java/com/ridderware/jevolve/Population.java:432-435 | removing a present individual removes exactly one member |
| Populations.RemovedIdGone | src/main/java/com/ridderware/jevolve/Population.java:432-435 | in a list without duplicate ids, the removed individual is gone afterwards |
| Populations.AfterEvaluation | src/main/java/com/ridderware/jevolve/Population.java:572-593 | each member is evaluated if due (unevaluated, or evaluation forced) and otherwise kept |
| Populations.AfterEvaluationFacts | src/main/java/com/ridderware/jevolve/Population.java:572-593 | afterwards everyone is evaluated, members not due are unchanged, and forced evaluation takes every result's fitness |
| Populations.CountDueBounds | src/main/java/com/ridderware/jevolve/Population.java:572-593 | the evaluation count is at most the size, equals it when forced, and is 0 when everyone was evaluated |
| Populations.EvaluateAll | src/main/java/com/ridderware/jevolve/Population.java:572-593 | the loop evaluates the due members, counts them, and reports success iff some member succeeds |
| Populations.Kept | src/main/java/com/ridderware/jevolve/MultiObjectivePopulation.java:84-88 | the truncation keeps `max` members when `0 <= max <= n`, all when `max >= n`, never more than `n` |
| Populations.RemoveFrom | src/main/java/com/ridderware/jevolve/MultiObjectivePopulation.java:84-88 | the backwards removal loop keeps that prefix |
| Populations.MergeAll | src/main/java/com/ridderware/jevolve/Population.java:349-352 | the loop adds the elites one by one |
| Populations.CloneFirst | src/main/java/com/ridderware/jevolve/Population.java:359-363 | the first `m` members are cloned in order with consecutive fresh ids |
| Populations.ParetoMerged | src/main/java/com/ridderware/jevolve/MultiObjectivePopulation.java:61-66 | merging the elites then Pareto-sorting never shrinks the population |
| Populations.Promoted | src/main/java/com/ridderware/jevolve/MultiObjectivePopulation.java:76-82 | each of the first `m` slots holds a clone of its member with a fresh id, and the rest are unchanged |
| Populations.PromoteFirst | src/main/java/com/ridderware/jevolve/MultiObjectivePopulation.java:76-82 | the elite loop gives the promoted population and picks the original first `m` as elites |
| Populations.ResetRanks | src/main/java/com/ridderware/jevolve/MultiObjectivePopulation.java:110-113 | the loop resets every rank |
| Populations.RankRound | src/main/java/com/ridderware/jevolve/MultiObjectivePopulation.java:124-224 | one round of the sort loop gives the crowded front and a strictly smaller rest |
| Populations.RankPareto | src/main/java/com/ridderware/jevolve/MultiObjectivePopulation.java:107-231 | the whole sort loop computes `ParetoSorted` |
| Populations.ParetoElites | src/main/java/com/ridderware/jevolve/MultiObjectivePopulation.java:53-99 | multi-objective elitism: merge, Pareto-sort, promote the first `m`, and truncate to the maximum size |
| Populations.Population.constructor | src/main/java/com/ridderware/jevolve/Population.java:59-72 | an empty population with no elites, nothing evaluated, not done |
| Populations.Population.ShallowCopy | src/main/java/com/ridderware/jevolve/Population.java:507-516 | `super.clone()` followed by new empty lists and a cloned prototype |
| Populations.Population.AddIndividual | src/main/java/com/ridderware/jevolve/Population.java:404-411 | appends the individual, owned by this population, unless its id is present; nothing else changes |
| Populations.Population.AddIndividualAt | src/main/java/com/ridderware/jevolve/Population.java:418-425 | inserts at index `i` when absent and `i` is in range; a present individual changes nothing; an out-of-range index fails |
| Populations.Population.RemoveIndividual | src/main/java/com/ridderware/jevolve/Population.java:432-435 | removes the first member with that id |
| Populations.Population.RemoveIndividualAt | src/main/java/com/ridderware/jevolve/Population.java:442-448 | removes the member at an in-range index; an out-of-range index changes nothing |
| Populations.Population.ClearPopulation | src/main/java/com/ridderware/jevolve/Population.java:385-388 | empties the individuals and keeps everything else |
| Populations.Population.SortFitness | src/main/java/com/ridderware/jevolve/Population.java:453-456 | the individuals become a permutation of themselves, non-decreasing in objective 0 |
| Populations.Population.AddElite | src/main/java/com/ridderware/jevolve/Population.java:462-468 | appends the elite unless present |
| Populations.Population.AddElites | src/main/java/com/ridderware/jevolve/Population.java:474-477 | appends all the elites |
| Populations.Population.RemoveElite | src/main/java/com/ridderware/jevolve/Population.java:484-487 | removes the first elite with that id |
| Populations.Population.ClearElites | src/main/java/com/ridderware/jevolve/Population.java:492-495 | empties the elites |
| Populations.Population.Evaluate | src/main/java/com/ridderware/jevolve/Population.java:395-398 | everyone is evaluated, the count is the number due, and `done` holds iff some individual succeeded |
| Populations.Population.ProcessElites | src/main/java/com/ridderware/jevolve/Population.java:345-380 | merge the elites, sort by fitness, take clones of the best `max_elites` as elites, and truncate back to the pre-call size |
| Populations.Population.ProcessParetoElites | src/main/java/com/ridderware/jevolve/MultiObjectivePopulation.java:53-99 | as `ParetoElites`: the elites are the first `max_elites` after the Pareto sort, and the size is cut to the maximum |
| Populations.Population.SortParetoRank | src/main/java/com/ridderware/jevolve/MultiObjectivePopulation.java:107-231 | the individuals become `ParetoSorted` of themselves |
| Populations.Population.Clone | src/main/java/com/ridderware/jevolve/Population.java:503-530 | a fresh population with a cloned prototype, the same count of individuals each cloned in order with a fresh id, and no elites |
| Breeders.Pairs | src/main/java/com/ridderware/jevolve/SimpleGenerationalBreeder.java:74 | the number of passes of the stride-2 loop: the last pass starts before `hi - 1` and one more would not |
| Breeders.Parent | src/main/java/com/ridderware/jevolve/SimpleGenerationalBreeder.java:76-77 | a selected parent is a member of the pool |
| Breeders.Writes | src/main/java/com/ridderware/jevolve/SimpleGenerationalBreeder.java:74-104 | the written slots are two per pass plus the odd one |
| Breeders.Bred | src/main/java/com/ridderware/jevolve/SimpleGenerationalBreeder.java:61-105 | breeding keeps the number of slots |
| Breeders.BredSlots | src/main/java/com/ridderware/jevolve/SimpleGenerationalBreeder.java:74-104 | every written slot now belongs to the child population, and every other slot is unchanged |
| Breeders.BreedSlots | src/main/java/com/ridderware/jevolve/SimpleGenerationalBreeder.java:74-104 | the pair loop and the odd-slot block compute `Bred` |
| Breeders.RangeWrittenOnce | src/main/java/com/ridderware/jevolve/SimpleGenerationalBreeder.java:74-104 | breeding a range, with the odd slot when its length is odd, writes each slot exactly once, in order |
| Breeders.GenerationalWritesEachSlotOnce | src/main/java/com/ridderware/jevolve/SimpleGenerationalBreeder.java:74-104 | the generational breeder writes slots `0 .. n - 1` each exactly once |
| Breeders.BreedGenerational | src/main/java/com/ridderware/jevolve/SimpleGenerationalBreeder.java:61-105 | children are bred from parents selected from the parent population into every child slot |
| Breeders.RemoveTail | src/main/java/com/ridderware/jevolve/SteadyStateBreeder.java:100-103 | the backwards removal loop keeps the members before `from` |
| Breeders.NumReplacedRange | src/main/java/com/ridderware/jevolve/SteadyStateBreeder.java:95-96 | for a percentage in `[0, 100]`, the replaced count is even and at most the size |
| Breeders.WorstReplaced | src/main/java/com/ridderware/jevolve/SteadyStateBreeder.java:105-135 | in-place breeding of the worst slots keeps the size, and a failed selection changes nothing |
| Breeders.WorstReplacedExact | src/main/java/com/ridderware/jevolve/SteadyStateBreeder.java:105-135 | with the corrected odd-slot rule, the best `keep` stay, every slot from `keep` to the maximum is bred, and slots past the maximum stay |
| Breeders.SteadyStateWrites | src/main/java/com/ridderware/jevolve/SteadyStateBreeder.java:105-135 | as written, every slot from the pool size on is bred, and only those are bred iff the pool is not the whole population or the size is even |
| Breeders.DynamicNSGAWrites | src/main/java/com/ridderware/jevolve/DynamicNSGABreeder.java:93-124 | as written, only slots `m/2 .. m-1` are bred, and all of them iff `m % 4 != 2` |
| Breeders.ReplaceWorst | src/main/java/com/ridderware/jevolve/SteadyStateBreeder.java:92-135 | the clone, the pool truncation and the breeding loops compute `WorstReplaced` |
| Breeders.BreedSteadyState | src/main/java/com/ridderware/jevolve/SteadyStateBreeder.java:73-138 | fitness sort, then the worst `num_replaced` slots bred in place from the best part, as written |
| Breeders.BreedSteadyStateExact | src/main/java/com/ridderware/jevolve/SteadyStateBreeder.java:73-138 | the same with the corrected odd-slot rule |
| Breeders.SteadyStateRebreedsRetained | src/main/java/com/ridderware/jevolve/SteadyStateBreeder.java:123-135 | size 3 at 10%: nothing is to be replaced, yet slot 2 of the retained part is among the writes, and it ends up as the odd child bred from it |
| Breeders.BreedDynamicNSGA | src/main/java/com/ridderware/jevolve/DynamicNSGABreeder.java:66-127 | Pareto sort, then slots from `max/2` bred in place from the best half, as written |
| Breeders.BreedDynamicNSGAExact | src/main/java/com/ridderware/jevolve/DynamicNSGABreeder.java:66-127 | the same with the corrected odd-slot rule |
| Breeders.DynamicNSGAKeepsWorst | src/main/java/com/ridderware/jevolve/DynamicNSGABreeder.java:93-124 | maximum size 6: the worst slot 5 is never bred |
| Breeders.Swap | src/main/java/com/ridderware/jevolve/DeterministicCrowdingBreeder.java:78 | one shuffle swap keeps the multiset |
| Breeders.Shuffled | src/main/java/com/ridderware/jevolve/DeterministicCrowdingBreeder.java:78 | the shuffle keeps the length |
| Breeders.ShuffledPermutation | src/main/java/com/ridderware/jevolve/DeterministicCrowdingBreeder.java:78 | the shuffle is a permutation |
| Breeders.Shuffle | src/main/java/com/ridderware/jevolve/DeterministicCrowdingBreeder.java:78 | the swap loop computes the shuffle |
| Breeders.BreedCrowding | src/main/java/com/ridderware/jevolve/DeterministicCrowdingBreeder.java:65-110 | the parents are shuffled in place, then adjacent parents `i, i+1` are bred into child slots `i, i+1`, and an odd last parent into the last slot |
| Breeders.Reset | src/main/java/com/ridderware/jevolve/NTNSGABreeder.java:113-121 | an appended child has every fitness 0, its evaluation count reset, and the population as owner |
| Breeders.NTChild | src/main/java/com/ridderware/jevolve/NTNSGABreeder.java:96-119 | a child of a pass belongs to the population and has its count reset |
| Breeders.NTOddChild | src/main/java/com/ridderware/jevolve/NTNSGABreeder.java:131-149 | the same for a child bred alone |
| Breeders.NTChildren | src/main/java/com/ridderware/jevolve/NTNSGABreeder.java:93-151 | two children per pass plus one bred alone |
| Breeders.BreedPass | src/main/java/com/ridderware/jevolve/NTNSGABreeder.java:96-123 | one loop pass: select, clone, recombine, mutate, reset, with two fresh ids |
| Breeders.BreedAlone | src/main/java/com/ridderware/jevolve/NTNSGABreeder.java:131-150 | the closing block with one fresh id |
| Breeders.AppendChildren | src/main/java/com/ridderware/jevolve/NTNSGABreeder.java:93-151 | the loop appends the children described by `NTChildren` |
| Breeders.NTNSGAChildren | src/main/java/com/ridderware/jevolve/NTNSGABreeder.java:93-151 | the loop and the closing block, whose parity test never holds as written |
| Breeders.CutBack | src/main/java/com/ridderware/jevolve/NTNSGABreeder.java:84-91 | the clone, then both lists cut to the first `max/2` |
| Breeders.TruncateAndAppend | src/main/java/com/ridderware/jevolve/NTNSGABreeder.java:84-151 | truncation then appending gives `Appended` |
| Breeders.BreedNTNSGA | src/main/java/com/ridderware/jevolve/NTNSGABreeder.java:65-154 | Pareto sort, truncate to the best half, append children, as written |
| Breeders.NTNSGASize | src/main/java/com/ridderware/jevolve/NTNSGABreeder.java:93-151 | as written, the final size is `h + 2*(h/2)` and equals `max` iff `max % 4 == 0` and the population had `max/2` members |
| Breeders.NTNSGAFilledSize | src/main/java/com/ridderware/jevolve/NTNSGABreeder.java:93-151 | with the corrected loop start and odd child, the final size is `max` |
| Breeders.BreedNTNSGAFilled | src/main/java/com/ridderware/jevolve/NTNSGABreeder.java:65-154 | the corrected breeder ends at exactly the maximum size |
| Crowding.Passes | src/main/java/com/ridderware/jevolve/DeterministicCrowdingProblem.java:78 | the replacement loop makes `size / 2` passes |
| Crowding.Quartet | src/main/java/com/ridderware/jevolve/DeterministicCrowdingProblem.java:80-84 | the pass's parents and children, with lengths that make the distances and fitness tests defined |
| Crowding.PassResults | src/main/java/com/ridderware/jevolve/DeterministicCrowdingProblem.java:78-111 | one result pair per pass, with the id counter threaded through |
| Crowding.PassResultsPrefix | src/main/java/com/ridderware/jevolve/DeterministicCrowdingProblem.java:78-111 | a pass's result depends only on the earlier passes |
| Crowding.Crowded | src/main/java/com/ridderware/jevolve/DeterministicCrowdingProblem.java:67-113 | crowding replacement keeps the child population's size |
| Crowding.CrowdPair | src/main/java/com/ridderware/jevolve/DeterministicCrowdingProblem.java:86-109 | the straight pairing iff `d(mom,boy)+d(dad,girl) <= d(mom,girl)+d(dad,boy)`; each child is overwritten by its paired parent iff that parent's fitness is no greater |
| Crowding.CrowdPass | src/main/java/com/ridderware/jevolve/DeterministicCrowdingProblem.java:80-110 | one pass of the loop gives that pass's results |
| Crowding.CrowdingReplace | src/main/java/com/ridderware/jevolve/DeterministicCrowdingProblem.java:74-111 | the loop computes `Crowded` and advances the id counter by the number of copies |
| Crowding.ContestNoWorse | src/main/java/com/ridderware/jevolve/DeterministicCrowdingProblem.java:89-109 | a contest never raises fitness[0], and its result is the child or has the parent's genotype |
| Crowding.CrowdingKeepsBetter | src/main/java/com/ridderware/jevolve/DeterministicCrowdingProblem.java:86-109 | each paired slot ends no worse than its child, and holds the child or one of the two parents' genotypes |
| Crowding.CrowdingKeepsUnpaired | src/main/java/com/ridderware/jevolve/DeterministicCrowdingProblem.java:78 | an odd last child slot is left alone |
| Evolution.RemovedFirst | src/main/java/com/ridderware/jevolve/Problem.java:328-331 | `List.remove` shortens the list by one iff the element is present |
| Evolution.AddedDistinct | src/main/java/com/ridderware/jevolve/Problem.java:314-321 | adding when absent keeps the list free of duplicates and adds exactly that element |
| Evolution.RemovedDistinct | src/main/java/com/ridderware/jevolve/Problem.java:328-331 | removing from a list without duplicates removes the element entirely and nothing else |
| Evolution.Problem.constructor | src/main/java/com/ridderware/jevolve/Problem.java:50-56 | no populations, not done, no stepper |
| Evolution.Problem.AddPopulation | src/main/java/com/ridderware/jevolve/Problem.java:314-321 | adds the population unless present, with no duplicates |
| Evolution.Problem.RemovePopulation | src/main/java/com/ridderware/jevolve/Problem.java:328-331 | removes the population, which is then absent |
| Evolution.Problem.Initialize | src/main/java/com/ridderware/jevolve/SimpleProblem.java:41-50 | with populations and an initializer, population 0 is initialised and its clone added as the shadow population; the crowding problem's `initialize` (DeterministicCrowdingProblem.java:42-50) has no initializer guard, so it fails without an initializer (`ok == false`); otherwise nothing changes |
| Evolution.Problem.Breed | src/main/java/com/ridderware/jevolve/SimpleProblem.java:55-62 | breeds population 0 into population 1, then swaps them; the simple problem moves the elites onto the new population 0; the crowding problem shuffles and breeds adjacent parents |
| Evolution.SwapKeepsDistinct | src/main/java/com/ridderware/jevolve/SimpleProblem.java:59 | swapping the first two populations keeps the list free of duplicates |
| Evolution.Problem.ReplaceElitist | src/main/java/com/ridderware/jevolve/SimpleProblem.java:67-73 | runs the population's elitism (single- or multi-objective) iff it is elitist, and otherwise changes nothing |
| Evolution.Problem.ReplaceCrowding | src/main/java/com/ridderware/jevolve/DeterministicCrowdingProblem.java:67-113 | after generation 0 the children are replaced by the crowding rule against the parents; at generation 0 nothing changes |
| Evolution.Problem.Evaluate | src/main/java/com/ridderware/jevolve/SimpleProblem.java:86-94 | evaluates population 0, and the problem becomes done iff it was or the population is |
| Evolution.PhaseCalls | src/main/java/com/ridderware/jevolve/Stepper.java:179-181 | one call per problem |
| Evolution.StepBlocks | src/main/java/com/ridderware/jevolve/Stepper.java:176-221 | a step is the phase blocks pre, eval, post, replace, stats, then migrate and breed only when not done |
| Evolution.StepInOrder | src/main/java/com/ridderware/jevolve/Stepper.java:176-205 | every phase runs for all problems before the next phase starts |
| Evolution.StepMember | src/main/java/com/ridderware/jevolve/Stepper.java:207-220 | a call is in a step iff its problem exists and it is not initialise, and migrate and breed are absent when done |
| Evolution.Generations | src/main/java/com/ridderware/jevolve/Stepper.java:156-157 | the loop makes no steps iff the current generation is past the maximum |
| Evolution.FirstDone | src/main/java/com/ridderware/jevolve/Stepper.java:166-169 | the first step that reports done, with no earlier one reporting it |
| Evolution.FirstDoneStable | src/main/java/com/ridderware/jevolve/Stepper.java:166-169 | once a done step is found, more steps do not change it |
| Evolution.Stepper.constructor | src/main/java/com/ridderware/jevolve/Stepper.java:47-52 | maximum 1, current 0, no problems |
| Evolution.Stepper.AddProblem | src/main/java/com/ridderware/jevolve/Stepper.java:118-125 | adds the problem unless present and then sets its stepper, with no duplicates |
| Evolution.Stepper.RemoveProblem | src/main/java/com/ridderware/jevolve/Stepper.java:132-136 | removes the problem and clears its stepper |
| Evolution.Stepper.RunPhase | src/main/java/com/ridderware/jevolve/Stepper.java:179-181 | one phase called on each problem in order |
| Evolution.Stepper.PostevaluateAll | src/main/java/com/ridderware/jevolve/Stepper.java:187-195 | post-evaluates every problem, and done holds iff it did or some problem reports done |
| Evolution.Stepper.Step | src/main/java/com/ridderware/jevolve/Stepper.java:176-221 | done is reset, then holds iff some problem reports done; the calls made are exactly `StepCalls` |
| Evolution.Stepper.InitializeAll | src/main/java/com/ridderware/jevolve/Stepper.java:141-147 | initialises each problem once, in order |
| Evolution.DoneAhead | src/main/java/com/ridderware/jevolve/Stepper.java:164-169 | after a run of steps none of which is done, the next step either is the first done step of the whole run or extends the run by one |
| Evolution.Stepper.Advance | src/main/java/com/ridderware/jevolve/Stepper.java:156-169 | one pass of the generation loop: the step's phases are appended to the trace, and the generation counter moves on exactly when no problem is done |
| Evolution.Stepper.Evolve | src/main/java/com/ridderware/jevolve/Stepper.java:152-171 | initialise once, then steps while the generation is at most the maximum, one generation per completed step, stopping after the first done step; the generation stays within maximum + 1, and at most the maximum when done |

## Left out

- Random number generation: `MersenneTwisterFast` is replaced by draws passed in. The redraw loops are modelled by the first differing draw, passed in by the caller. With 3 or more genes such a draw exists (`Recombination.RedrawCanEnd`). With 2 genes or fewer it does not, and the loop never ends (see Findings).
- Floating point: fitness, constraint error and probabilities are reals. The crowding distance models `MAX_VALUE` absorption and overflow to infinity, assuming every fitness gap is far below `MAX_VALUE`. Rounding is not modelled.
- Integer width: `int` and `long` counters, and the id counter `last_id`, are unbounded. 32-bit or 64-bit wrap-around is not modelled.
- Aliasing of individual objects: individuals are values. Sharing one `Individual` object between two lists, and identity comparison (`cand2 == cand1`, `contains`), are modelled by value or by id.
- GAIndividuals.GenotypeDistance: genes are compared by value, where the code compares boxed genes with `!=`, by reference. `GAIndividuals.BoxDistance` models the comparison as written (see Findings).
- Crowding.CrowdPair: the pairing uses the by-value genotype distance of `GAIndividuals.GenotypeDistance`. With the code's by-reference comparison, equal genes in different boxes count as differences, which can change the pairing (see Findings).
- GAIndividuals.GenotypeDistance: requires the argument's genotype to be no longer than this one's. The code throws `IndexOutOfBoundsException` on a longer one.
- Individuals.DeepCopy: the code issues a new id on `deepCopy`, so the model does too.
- Individuals.DeepCopy: the genotype is copied as a value, which matches the code's separate list.
- HotSpots.HotSpotIndividual.DeepCopyFrom: the array is shared, as in the code.
- HotSpots.HotSpotIndividual.HotSpotIndexFromPoints: requires a point value below the total. The code runs off the array in that case.
- HotSpots.HotSpotIndividual.SoftReset: the entry is the truncated `int` quotient. The code passes that quotient to `Math.round`, which resolves to `Math.round(float)`, so a quotient beyond 2^24 in magnitude is first rounded to the nearest `float` (16777217 becomes 16777216). The model keeps the exact quotient.
- HotSpots.HotSpotIndividual.SoftReset: requires a non-zero factor when the genotype is not empty. The code throws `ArithmeticException` on a zero factor.
- Tournament.Select: an empty population gives no selection, where the code throws.
- Recombine methods: a missing second child with recombination returns `ok == false`, where the code throws a `NullPointerException`.
- UniformCrossover.Recombine: requires mom's genotype to be no longer than dad's when recombination fires. The code throws `IndexOutOfBoundsException` on a longer one.
- Individuals.DeepCopy: requires the target to have no more objectives than the source. The code throws `ArrayIndexOutOfBoundsException` otherwise.
- Individuals.DeepCopied: the same requirement as `Individuals.DeepCopy`, for the same reason.
- Individuals.CheckDominance: requires the first fitness vector to be no longer than the second. The code reads `ind.fitness[m]` only while a scan goes on, so a longer first vector is answered when both scans stop early (`(1, 0, 0)` against `(0, 1)` stops at `m == 0` and at `m == 1` and gives INCOMPARABLE) and throws `ArrayIndexOutOfBoundsException` when a scan reaches the end of the second vector.
- Individuals.MeasureFitnessDistance: requires the first fitness vector to be no longer than the second. The code's loop runs over the first vector and throws `ArrayIndexOutOfBoundsException` on a longer one.
- Individuals: the `adjusted_fitness` and `user_data` fields are not modelled. Only roulette-wheel selection, the statistics classes and the examples read them, and none of those is part of this model.
- Recombination.CopyableChildren: requires of both children what `Individuals.DeepCopy` requires, where the code throws `ArrayIndexOutOfBoundsException`.
- Breeders: the selector, recombinator and mutator are one `Operators` function value with a call ordinal, and only their effect on the slots is modelled. The selector is a unit draw scaled to the pool size.
- Breeders: the odd-slot blocks call the recombinator with a null second child. `Operators.single` is total, so it also breeds that slot when recombination fires. In the code, every crossover operator of this model then throws a `NullPointerException` (`girl.equals(null)` and the like), and only the arithmetical crossovers, which are not part of this model, accept a null second child.
- Breeders.BreedGenerational and Breeders.BreedCrowding require distinct parent and child populations, as both problems arrange.
- Breeders.ReplaceWorst: requires the population to hold at least its maximum size. It is the in-place loop shared by `Breeders.BreedSteadyState` and `Breeders.BreedDynamicNSGA`, and leaves out the smaller populations their lines describe.
- Breeders.BreedSteadyState: requires the population to hold at least its maximum size. The code runs on a smaller population as long as every slot the stride-2 loop writes lies below the size, and throws `IndexOutOfBoundsException` in `getIndividual` otherwise: with 4 individuals and a maximum of 5, SteadyStateBreeder.java:97-135 breeds nothing, or slots 2 and 3 when 2 are replaced, and returns normally; with 4 individuals, a maximum of 8 and 2 replaced it throws at slot 4.
- Breeders.BreedSteadyStateExact: the same requirement as `Breeders.BreedSteadyState`, for the same reason.
- Breeders.BreedDynamicNSGA: requires the population to hold at least its maximum size. The code runs on a smaller population as long as every slot the stride-2 loop writes lies below the size, and throws `IndexOutOfBoundsException` in `getIndividual` otherwise: with 5 individuals and a maximum of 6, DynamicNSGABreeder.java:93-124 breeds slots 3 and 4, then slot 4 again in the odd-size block, and returns normally; with 4 individuals and a maximum of 8 it throws at slot 4.
- Breeders.BreedDynamicNSGAExact: the same requirement as `Breeders.BreedDynamicNSGA`, for the same reason.
- Evolution.Problem: one class stands for both the simple problem and the deterministic-crowding problem, chosen by `crowding`. The breeder is fixed by that kind: generational for the simple problem, crowding for the other.
- Evolution.Problem.Initialize: the initializer's output is a parameter (`initial`). The initializer list is a count.
- Evolution.Problem.Breed, ReplaceElitist and ReplaceCrowding require two populations (or one) where the code would throw on a missing index.
- Evolution.Problem.Breed: requires the child population to be at least as large as the parent population. The code throws `IndexOutOfBoundsException` in `child_pop.getIndividual` otherwise.
- Evolution.Problem.Evaluate: the evaluator's results are a parameter.
- Evolution.Problem: the `setProblem` back reference from a population is not modelled.
- The pre-evaluate and post-evaluate evaluator hooks, `writeStatistics` and `migrate` are recorded only as calls in the stepper's trace.
- Evolution.Stepper: it records the problem calls it makes as a `trace`, and it takes each problem's `getDone` answer per step as `reports` rather than calling into the problems.
- Evolution.Stepper: its `double` generation counters are integers, which is exact for the counts a run reaches. Screen output is left out.
- Pareto sort: individuals with different numbers of objectives are excluded by `SameObjectives`. The code would read past a shorter fitness array.
- Pareto sort: the empty-front exit (`break`) is proved never to run.
- Pareto.ParetoRanksMeaning: NSGA-II's non-dominated sort, which the Javadoc of `sortParetoRank` names (MultiObjectivePopulation.java:101-106), puts every member of rank `r + 1` behind a member of rank `r` that dominates it, and makes rank 0 the members nobody dominates. The code compares objectives within a `1e-10` tolerance. That comparison is not transitive, and it is not symmetric on the tolerance boundary. So the lemma promises less: a beater of at least the rank below, and no domination within a rank. `Pareto.RankNotBeatenFromPreviousRank` exhibits a member of rank 1 beaten by no member of rank 0, and `Pareto.IntransitiveBeatsRankZero` a member of rank 0 beaten by one of rank 1 (see Findings).
- Sorting by fitness reads a missing objective as 0. It is a stable insertion sort, which meets the same contract as Java's merge sort.
- Populations.Population.AddIndividualAt: an out-of-range index returns `ok == false`, where `ArrayList.add` throws.
- The NT-NSGA breeder's `instanceof` assertions and `resetTotalNumEvaluations` are modelled by the `evaluations` field.
- Checkpoint files, readable population output, statistics classes, the user interface and migration are I/O or presentation and are not part of this model.
- The multi-threaded problem is not part of this model: its point is concurrency.
- Gene classes, the float operators and the other selectors are not part of this model.
- NTNSGAProblem, DynamicNSGAProblem and ConstrainedReproductionBreeder are not part of this model.

## Findings

| source | as written | input that shows it | evidently intended | confidence | as-written member | corrected member |
|---|---|---|---|---|---|---|
| src/main/java/com/ridderware/jevolve/SteadyStateBreeder.java:123-135 | the odd-size block always breeds the last slot, even when it belongs to the retained best part | 3 individuals, maximum 3, 10% replacement: `num_replaced` is 0, yet slot 2 is bred over | only slots from the pool size up to the maximum are bred | not executed | Breeders.SteadyStateRebreedsRetained | Breeders.WorstReplacedExact |
| src/main/java/com/ridderware/jevolve/DynamicNSGABreeder.java:93-124 | the odd-slot test uses the population size, not the length of the bred range | maximum 6: the range 3..5 has odd length, the size 6 is even, so slot 5 keeps the worst individual | every slot from `max/2` to `max - 1` is bred | not executed | Breeders.DynamicNSGAKeepsWorst | Breeders.BreedDynamicNSGAExact |
| src/main/java/com/ridderware/jevolve/NTNSGABreeder.java:93-151 | the loop starts at `max - h` and the parity test of the closing block never holds | maximum 6 with 3 kept: 3 + 2 = 5 individuals, not 6 | the population is refilled to its maximum size | not executed | Breeders.NTNSGASize | Breeders.NTNSGAFilledSize |
| src/main/java/com/ridderware/jevolve/TwoPointCrossover.java:73-80 | the second cut point is redrawn until it differs from the first | 2 genes: every draw gives point 0, so the redraw loop never ends | genomes too small for two distinct points are copied, as a declined crossover is | not executed | Recombination.NoDistinctDrawForTinyGenome | TwoPointCrossover.GuardedRecombine |
| src/main/java/com/ridderware/jevolve/OrderCrossover.java:55-90 | only genotypes of at most 1 gene are copied; the redraw loop follows | 2 genes with recombination: every draw gives point 0, so the redraw loop never ends | genotypes of fewer than 3 genes are copied | not executed | Recombination.NoDistinctDrawForTinyGenome | OrderCrossover.GuardedRecombine |
| src/main/java/com/ridderware/jevolve/GAIndividual.java:243-249 | the genes are boxed objects compared with `!=`, by reference | two equal `Integer` genes above 127, boxed separately: the distance counts them as different | genes are compared by value (`equals`) | not executed | GAIndividuals.BoxDistanceCountsEqualValues | GAIndividuals.GenotypeDistance |
| src/main/java/com/ridderware/jevolve/MultiObjectivePopulation.java:141-175 | fronts are found with dominance within a `1e-10` tolerance, which is not transitive | `TolerancePopulation`: `z` gets rank 1, and only the member of rank 2 beats it | each member of rank `r + 1` is dominated by a member of rank `r`, as it is wherever dominance is a strict order | not executed | Pareto.RankNotBeatenFromPreviousRank | Pareto.ParetoRanksFromPreviousRank |
| src/main/java/com/ridderware/jevolve/MultiObjectivePopulation.java:141-175 | a member joins the first front when the members already there find it incomparable, and dominance within the `1e-10` tolerance is not transitive: once a member is evicted, nothing in the front stands in for it against the members it beats | `IntransitivePopulation` (fitness `y = (0, 9e-11)`, `w = (-1.5e-10, 1.8e-10)`, `x = (1.5e-10, 0)`, in that order, no two objectives exactly one tolerance apart): `w` beats `y` and `y` beats `x`, but `w` does not beat `x`; so `w` evicts `y`, `x` stays beside `w` with rank 0, and `y`, given rank 1, beats `x` (`Pareto.IntransitiveOffBoundary`). Being clear of the boundary is not enough on its own either: `Pareto.StrictOrderOnBoundary` is a strict order on the boundary with rank 0 beaten | rank 0 holds exactly the members nobody dominates, as it does wherever dominance is a strict order and no two objectives are exactly one tolerance apart | not executed | Pareto.IntransitiveBeatsRankZero | Pareto.ParetoRankZeroUnbeaten |
