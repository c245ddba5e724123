# Artifact combination optimizer: a Dafny model

The repository searches for the best set of five Genshin Impact artifacts, one each for the
flower, plume, sands, goblet and circlet slots. It does this in two programs that share their
scoring and loading code:

- `optimisasi_recursive/main.cpp` enumerates the cartesian product of the per-slot pools by
  depth-first recursion. It uses a shared scratch combination with push/pop.
- `optimisasi_iterative/main.cpp` runs a mixed-radix odometer over a vector of indices.

Both score every combination with `evaluateCombination`. Each substat counts by key: `atk`
times 1, `critRate_` times 2, `critDMG_` times 1.5, any other key 0. Both keep the first
combination whose score is strictly greater than the best so far.

The model has these parts:

- `Artifacts` (artifacts.dfy): the records.
- `Scoring` (scoring.dfy): the score as a function, and `evaluateCombination` as a loop proved
  equal to it.
- `BestSoFar` (best.dfy): the strictly-greater update rule as a function `Offer`, and its fold
  `Scan` over any visiting order.
- `Combinations` (combinations.dfy): the two visiting orders as specification functions.
  - `DepthFirst`: slot 0 outermost, the last slot varies fastest.
  - `Odometer`: slot 0 varies fastest.
  - The mixed-radix `Rank` of an index vector, slot 0 the least significant digit.
- `RecursiveOptimizer` (recursive.dfy): a class `Search` whose fields are the state that
  `optimizeRecursiveHelper` shares through its reference parameters (`currentCombination`,
  `bestScore`, `bestCombination`). `Helper` is proved against `Scan` over `DepthFirst`.
- `IterativeOptimizer` (iterative.dfy): `optimizeIterative` with its index array and its
  carry loop, proved against `Scan` over `Odometer`.
- `Equivalence` (equivalence.dfy): how the two strategies relate. Scores add up slot by slot.
  So in both orders the first maximum is the combination that takes, in every slot, the first
  artifact with the best score in that slot's pool (`Greedy`). Both optimizers therefore return
  the same combination, ties included, even though they visit the product in different orders
  (`VisitingOrders`).
- `Loading` (loading.dfy): the substat parser `parseSubstats` and the five-bucket slot routing
  of `loadArtifacts`.

`evaluateCombination`, `parseSubstats` and `loadArtifacts` are the same text in both files.
The table cites the copy in `optimisasi_recursive/main.cpp` for the first two, and the copy
in `optimisasi_iterative/main.cpp` for `loadArtifacts`.

The two programs visit the product in different orders:

- In `optimizeIterative` the carry starts at `indices[0]`, so slot 0 varies fastest
  (`optimisasi_iterative/main.cpp:67-75`).
- The recursion puts slot 0 outermost, so the last slot varies fastest
  (`optimisasi_recursive/main.cpp:56`).

The orders differ (`Equivalence.VisitingOrders`). Even so, both programs return the same
combination (`Equivalence.StrategiesAgree`). That result rests on exact arithmetic; see
"Left out".

Scores are `real`. The initial best score, negative infinity in the source, is `None` in an
`Option<real>`. Every real score is strictly greater than it.

## Model

| member | source | states |
|---|---|---|
| Scoring.EvaluateCombination | optimisasi_recursive/main.cpp:27-41 | The nested loop over artifacts and substats returns `Score(combination)`: the in-order sum of weight(key) * value. |
| Scoring.ScoreByKey | optimisasi_recursive/main.cpp:27-41 | The score is the `atk` total + 2 * the `critRate_` total + 1.5 * the `critDMG_` total over all substats of all artifacts. Every other key contributes nothing. |
| Scoring.SubstatsScoreByKey | optimisasi_recursive/main.cpp:30-37 | The same weighted-sum formula for the substats of one artifact. |
| Scoring.SubstatsScoreCons | optimisasi_recursive/main.cpp:30-37 | The contribution of one substat and the rest add up whichever end is split off. |
| Scoring.ScoreAppend | optimisasi_recursive/main.cpp:29-39 | The score of a concatenation is the sum of the scores of its parts. |
| Scoring.ScoreCons | optimisasi_recursive/main.cpp:29-39 | The score of a combination headed by `a` is `a`'s score plus the score of the rest. |
| Scoring.ScoreExample | optimisasi_recursive/main.cpp:27-41 | Five one-substat artifacts (atk 100, critRate_ 10, critDMG_ 20, atk 50, atk 0) score 200. |
| BestSoFar.Offer | optimisasi_recursive/main.cpp:48-52 | After scoring `c` there is a best score, and it is at least `Score(c)` and at least the old one. The best is either unchanged or replaced by `c` with its score. A score that is not strictly greater leaves it unchanged. |
| BestSoFar.FirstMax | optimisasi_recursive/main.cpp:49 | The position returned holds the maximum, and every earlier position is strictly smaller. |
| BestSoFar.Scores | optimisasi_recursive/main.cpp:48 | One score per combination. |
| BestSoFar.ScanAppend | optimisasi_recursive/main.cpp:56-60 | Scoring `xs` and then `ys` with the shared best is scoring `xs + ys`. |
| BestSoFar.ScanStep | optimisasi_iterative/main.cpp:61-65 | Scoring one more combination of a sequence extends the scan by one `Offer`. |
| BestSoFar.ScanMonotone | optimisasi_recursive/main.cpp:49-52 | Once set, the best score stays set and never decreases. |
| BestSoFar.ScanFrom | optimisasi_recursive/main.cpp:49-52 | Continuing from an earlier best equals scanning from scratch and then letting the new best win only if strictly greater. |
| BestSoFar.ScanConcat | optimisasi_recursive/main.cpp:56-60 | The best of a concatenation is the merge of the bests of its parts, the earlier part winning ties. |
| BestSoFar.ScanFirstMax | optimisasi_recursive/main.cpp:49-52 | Tie-break: the result is the first combination in visiting order with the largest score, recorded with its score. |
| BestSoFar.ScanOptimal | optimisasi_recursive/main.cpp:49-52 | On a non-empty run the result is one of the scored combinations, its score is recorded, and no scored combination scores higher. |
| Combinations.CountPositive | optimisasi_iterative/main.cpp:48-53 | The product of the pool sizes is non-zero exactly when every pool is non-empty. |
| Combinations.PrependAllLength | optimisasi_recursive/main.cpp:56-60 | One level of the recursion yields `|pool| * |completions|` leaves. |
| Combinations.SpreadAllLength | optimisasi_iterative/main.cpp:67-75 | Slot 0 varying fastest over `ts` yields `|ts| * |pool|` tuples. |
| Combinations.DepthFirstLength | optimisasi_recursive/main.cpp:47-58 | The depth-first order has exactly the product of the pool sizes many leaves, and none when a pool is empty. |
| Combinations.OdometerLength | optimisasi_iterative/main.cpp:55-78 | The odometer order has exactly the product of the pool sizes many entries. |
| Combinations.PrependAllMembers | optimisasi_recursive/main.cpp:56-60 | A leaf below one level is a pool element followed by a completion, and every such pair is a leaf. |
| Combinations.SpreadAllMembers | optimisasi_iterative/main.cpp:67-75 | The same membership for one odometer digit. |
| Combinations.IsCombinationCons | optimisasi_recursive/main.cpp:56-58 | A combination of the pools is an element of pool 0 followed by a combination of the other pools. |
| Combinations.DepthFirstMembers | optimisasi_recursive/main.cpp:43-58 | A sequence is a depth-first leaf exactly when it takes one artifact from each pool, in slot order. |
| Combinations.OdometerMembers | optimisasi_iterative/main.cpp:55-59 | A sequence is in the odometer order exactly when it takes one artifact from each pool, in slot order. |
| Combinations.TupleCons | optimisasi_iterative/main.cpp:57-59 | The combination assembled from an index vector is the artifact at slot 0 followed by the one assembled from the rest. |
| Combinations.RankBound | optimisasi_iterative/main.cpp:67-75 | An in-bounds index vector has a rank below the product of the pool sizes. |
| Combinations.SpreadAllAt | optimisasi_iterative/main.cpp:67-75 | Position `q * |pool| + i` of one odometer digit holds `pool[i]` in front of tail `q`. |
| Combinations.PrependAllAt | optimisasi_recursive/main.cpp:56-60 | Position `q * |tails| + j` of one recursion level holds `pool[q]` in front of tail `j`. |
| Combinations.OdometerAt | optimisasi_iterative/main.cpp:56-59 | The combination assembled from index vector `idx` is the entry at position `Rank(idx)` of the odometer order. |
| Combinations.DepthFirstAt | optimisasi_recursive/main.cpp:56-58 | The same for the depth-first order, with the last slot the least significant digit. |
| Combinations.RankZero | optimisasi_iterative/main.cpp:46 | The all-zero index vector has rank 0: the first combination visited. |
| Combinations.RankIncrement | optimisasi_iterative/main.cpp:67-71 | Carrying through the full slots below `slot` and incrementing `slot` adds one to the rank. |
| Combinations.RankLast | optimisasi_iterative/main.cpp:72-77 | The vector with every index at its maximum has rank product - 1: the last one. |
| Combinations.RankInjective | optimisasi_iterative/main.cpp:67-75 | Two in-bounds index vectors with the same rank are equal. |
| Equivalence.PoolScores | optimisasi_recursive/main.cpp:27-41 | One score per artifact of a pool. |
| Equivalence.ScanExtend | optimisasi_recursive/main.cpp:56-60 | Putting the same artifact in front of every completion keeps the same winner, with that artifact's score added. |
| Equivalence.FirstBestStep | optimisasi_recursive/main.cpp:49-52 | The first best artifact of a pool is the first best of all but the last, unless the last is strictly better. |
| Equivalence.ScanPrependAll | optimisasi_recursive/main.cpp:56-60 | One recursion level: the winner is the pool's first best artifact in front of the winner of the completions. |
| Equivalence.ScanSpread | optimisasi_iterative/main.cpp:67-75 | One turn of the odometer's slot-0 digit picks the first best artifact of pool 0. |
| Equivalence.ScanSpreadAll | optimisasi_iterative/main.cpp:67-75 | One odometer digit: the winner is the pool's first best artifact in front of the winner of the rest. |
| Equivalence.GreedyCons | optimisasi_recursive/main.cpp:56 | The slot-wise first best combination is the first best of pool 0 followed by that of the other pools. |
| Equivalence.DepthFirstPicksGreedy | optimisasi_recursive/main.cpp:43-69 | With every pool non-empty, the recursive result is, in every slot, the first artifact of that slot's pool with the highest score. |
| Equivalence.OdometerPicksGreedy | optimisasi_iterative/main.cpp:42-81 | The same for the iterative result. |
| Equivalence.StrategiesAgree | optimisasi_iterative/main.cpp:42-81 | The two strategies end with the same best score and the same combination, ties included. With an empty pool both end with no best. |
| Equivalence.DepthFirstBestIsOptimal | optimisasi_recursive/main.cpp:63-69 | With every pool non-empty the recursive result takes one artifact from each pool, and no combination of the product scores higher. |
| Equivalence.OdometerBestIsOptimal | optimisasi_iterative/main.cpp:42-81 | The same for the iterative result. |
| Equivalence.OneSlot | optimisasi_recursive/main.cpp:56 | With one slot both orders list the pool in order. |
| Equivalence.VisitingOrders | optimisasi_iterative/main.cpp:67-75 | On two slots of two artifacts each, the recursion visits `xu, xv, yu, yv` and the odometer visits `xu, yu, xv, yv`. When `x != y` the two sequences are unequal. |
| RecursiveOptimizer.Search.constructor | optimisasi_recursive/main.cpp:64-66 | The search starts with an empty scratch combination, no best score (negative infinity), an empty best combination and no leaves. |
| RecursiveOptimizer.Search.Helper | optimisasi_recursive/main.cpp:43-61 | It is called at `depth` with a scratch combination of that length whose i-th artifact is from pool i, so each leaf takes one artifact per slot. It scores every completion in depth-first order. The new best is the old best scanned over those completions. The leaf count grows by their number. The scratch combination is restored, because every push is matched by a pop. |
| RecursiveOptimizer.LeafOrder | optimisasi_recursive/main.cpp:47-53 | At full depth the scratch combination is the one leaf scored. |
| RecursiveOptimizer.ExtendStep | optimisasi_recursive/main.cpp:56-60 | The leaves below head `k` come right after those below heads `0..k-1`. |
| RecursiveOptimizer.OptimizeRecursive | optimisasi_recursive/main.cpp:63-69 | The result is the first maximum of the depth-first order, and the product-of-sizes many leaves are scored. With an empty pool it returns the empty combination. Otherwise it takes one artifact per pool and no combination scores higher. |
| IterativeOptimizer.OptimizeIterative | optimisasi_iterative/main.cpp:42-81 | The result is the first maximum of the odometer order. With an empty pool it returns the empty combination before any index is read. Otherwise the loop visits product-of-sizes many in-bounds index vectors, the k-th with rank k, and the result takes one artifact per pool with no combination scoring higher. |
| IterativeOptimizer.Visit | optimisasi_iterative/main.cpp:56-65 | Assembling the combination from the indices, scoring it and updating on a strictly greater score is one `Offer` of the combination at those indices. |
| IterativeOptimizer.Advance | optimisasi_iterative/main.cpp:67-77 | The carry loop keeps the indices in bounds. If it stops inside the vector, the rank grows by one. If it runs off the end, the vector was the last one and every index is back at 0. |
| IterativeOptimizer.VisitsEachOnce | optimisasi_iterative/main.cpp:55-78 | Every in-bounds index vector is visited exactly once, at the position of its rank. |
| Loading.TokenEnd | optimisasi_recursive/main.cpp:75 | A word ends at the first white space after its start, or at the end of the text. |
| Loading.TokensAreTokens | optimisasi_recursive/main.cpp:75 | Every word `ss >> pair` delivers is non-empty and has no white space. |
| Loading.TokenEndOfWord | optimisasi_recursive/main.cpp:75 | A word followed by white space is delivered whole. |
| Loading.TokensJoin | optimisasi_recursive/main.cpp:75 | Words written out with a space after each are read back as the same words. |
| Loading.Find | optimisasi_recursive/main.cpp:76 | `find(':')` gives nothing exactly when there is no ':'. Otherwise it gives the first position holding ':'. |
| Loading.ParsePair | optimisasi_recursive/main.cpp:76-82 | A word yields a substat exactly when it holds a ':'. The key is the text before the first ':' and has no ':' in it. The value is `stod` of the text after it. |
| Loading.ParseSubstats | optimisasi_recursive/main.cpp:71-85 | The loop returns the substats of the words of the text, in order, skipping words without ':'. |
| Loading.ParseTokensAppend | optimisasi_recursive/main.cpp:75-83 | Parsing keeps input order: the substats of a concatenation are those of each part in turn. |
| Loading.ParseTokensSound | optimisasi_recursive/main.cpp:75-83 | There are no more substats than words. Every substat has a key without ':' and comes from one of the words. |
| Loading.PairParses | optimisasi_recursive/main.cpp:76-82 | `key:text` with a key free of ':' splits back into that key and `stod(text)`. |
| Loading.WrittenParses | optimisasi_recursive/main.cpp:75-83 | A list of `key:text` words parses into the corresponding substats. |
| Loading.WrittenAreTokens | optimisasi_recursive/main.cpp:75 | `key:text` words built from pieces without white space are single words. |
| Loading.ParseSubstatsRoundTrip | optimisasi_recursive/main.cpp:71-85 | Substats written out as space-separated `key:text` words parse back to the same keys and converted values, when no key holds ':' and no piece holds white space. |
| Loading.SlotIndex | optimisasi_iterative/main.cpp:120-124 | A slot key is routed to bucket `k` exactly when it is the k-th of flower, plume, sands, goblet, circlet. Any other key is routed nowhere. |
| Loading.RouteArtifacts | optimisasi_iterative/main.cpp:99-128 | There are always five buckets. Bucket `k` holds exactly the records whose slot key is the k-th slot name, in input order. |
| Loading.OfSlotMembers | optimisasi_iterative/main.cpp:120-124 | A record is in a slot's bucket exactly when it is an input record with that slot key. |
| Loading.RoutingPartition | optimisasi_iterative/main.cpp:120-124 | The five buckets together with the dropped records account for every input record exactly once. |

## Left out

- Floating point: scores and substat values are `real`. `double` rounding, NaN and infinite
  values are not modelled. The equal results of the two strategies (`Equivalence.StrategiesAgree`)
  rest on exact addition. With `double` rounding, a sum that depends on the order of addition
  could in principle break a tie differently.
- `stod` is a parameter of type `string -> real`. The exceptions it throws on text that is not
  a number are not modelled.
- File and console I/O are not modelled: `ifstream` and `getline` over the artifact file, the
  Y/N prompt, and the `cout`/`cerr` messages, including the message printed before the early
  return for an empty pool.
- `loadArtifacts` line splitting: the extraction of the first five fields of a line
  (`ss >> slotKey >> setKey >> rarity >> level >> mainStatKey`) and its failure modes for
  rarity and level are not modelled. `Loading.RouteArtifacts` takes the records already built.
- The `chrono` timing in `main`, and the check `artifactsBySlot.empty()` in `main`. That check
  can never be true, since `loadArtifacts` always builds five buckets (`Loading.RouteArtifacts`).
- Fields that scoring ignores (`setKey`, `rarity`, `level`, `mainStatKey`) are carried along
  unchanged and play no part in any proof.
- Integer widths: `size_t` indices are unbounded `nat`. The number of passes of the outer loop
  of `optimizeIterative` is not bounded by `size_t`.
- Update in place of C++ vectors: the scratch combination and the bucket vectors are Dafny
  sequences that the code reassigns. The iterative index vector is an `array<nat>`.
- The loop body of `optimizeIterative` is split into two methods with their own contracts:
  `IterativeOptimizer.Visit` (lines 56-65) and `IterativeOptimizer.Advance` (lines 67-77).
  The statements are the same as in the source.
- RecursiveOptimizer.Search.Helper: the ghost record of the scored leaves is a count, not the
  list itself. Their order is fixed instead by the best-so-far contract, which is stated as a
  scan over the depth-first order.
