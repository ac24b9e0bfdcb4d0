# CareerPilot: verified models

Dafny models of the logic CareerPilot's guarantees rest on, with proofs about whole runs rather than single
calls. What a component computes is written as functions on values; where the source works with loops and mutable
objects, the program is written that way too and proved equal to the functions; the theorems are about the
functions. `dafny verify dfyconfig.toml` checks everything.

| files | component |
|---|---|
| `UnionFind`, `Clustering`, `ClusterTheory`, `ClusterLocations`, `ClusterBridges`, `ClusterOrder`, `ClusterProgram`, `Blocking` | posting deduplication: union-find, staged merge, graph closure, location guard, output |
| `SimHash` | fingerprints, distances, signed storage |
| `Ranking`, `Agreement`, `FleissKappa` | NDCG, Cohen's and Fleiss' kappa |
| `TaskQueue`, `QueueProtocol` | durable queue, and every interleaving of its workers |
| `RefreshTokens` | refresh-token families over login, rotation, revocation, deletion and erasure |
| `Scoring`, `PreferenceFit`, `PreferenceTheory`, `PreferenceLoss`, `PersonalWeights`, `Aggregate` | preference fit, bounded weights, match score |
| `RateBudget`, `RetryLoop`, `KeyPool`, `FallbackChain` | rate budgets, retries, API keys, provider fallback |
| `Spacing`, `Spans`, `SpanTheory`, `SpanLimits`, `Lines`, `Bullets`, `BulletTheory`, `BulletRuns`, `Requirements`, `RequirementTheory` | quote search and segmentation with offsets into the original text |
| `Prelude`, `RealFacts`, `Text` | shared vocabulary, real arithmetic, strings |

## Reading the models

- Posting, posting-label, user, token, task and provider identities are integers; only equality and order are used.
- Floats are exact reals and results are taken before the final `round`. `math.isclose` keeps its relative tolerance
  of 1e-9 and the projection its 1e-15.
- A missing string and an empty one are both "unknown", as they are falsy in Python. Python slices with negative
  bounds, `int()` truncation and Python's notion of whitespace are written out.
- Functions the source gets from elsewhere are parameters: the shingle hash, the semantic similarity, the rank
  discount (positive and strictly decreasing, as 1/log2(rank + 1) is), the logarithm, tanh (strictly increasing
  between -1 and 1), the sigmoid (tied to `exp` by `SplitSigmoid`), NFKC with casefold as one function on texts,
  the password hasher, section headings and the requirement vocabularies, and what a remote server or provider answers.
- Clock readings are inputs; runs assume they never go back. One locked section or one database transaction is one
  step, and a run is any sequence of steps, so every interleaving is covered. New ids and hashes are fresh.
- The fold theorems ask of NFKC with casefold that whitespace folds to one whitespace character, the texts around it
  fold apart, and visible text stays visible (`KeepsSpaces`). Everything else is asked of the document.
- The token theorems assume serial transactions: `rotate` reads its row without a lock, and two exchanges that overlap
  inside the database are not covered.
- Training labels are two-valued, as the field's description says.

## Where the code and its words differ

The models follow the code. Each difference is a theorem.

- `clustering.py:153-158` says the location is tracked per root, but line 165 reads the entries of the two items.
  `ItemRuleLosesLocation` gives a four-posting run that ends with two cities in one cluster. `OneLocationIffSafe` gives
  the exact condition on the locations: at most one posting lacks one, or at most one is named. `MergeKeepsRecordIff`
  gives it for one merge, and `OneLocationPerCluster` proves the intended merge correct on all inputs.
- NDCG is bounded by 1 for non-negative cut-offs only, because negative ones slice from the other end
  (`BoundHoldsIffCutoffNotNegative`).
- `max_attempts` below one still allows one run. `PlainBoundIffAtLeastOne` shows that max_attempts plus reclaims bounds
  the claims exactly when it is at least one; `ClaimsAreBounded` gives the bound that always holds.
- The docstring of `reap_stale` speaks of dead workers; the query goes by time alone. `ReapIsSafeIffConsiderate`
  shows that stopped workers are exactly what safety needs, and `DoubleCommitIffInconsiderate` that otherwise, from
  every reachable world, a task's effects can be committed twice.
- `auth.py:249-255` promises that reuse of a token revokes the family. The endpoint turns the refusal into an HTTP error
  (`api/v1/auth.py:92-98`) and `api/deps.py:20-30` rolls back on any exception, the revocation included.
  `FamilySurvivesReplayIff` gives the exact condition and `ReplayByRequestLeavesFamily` such a run.
- `metrics.py:146` and `:182` compare with a relative tolerance, so from 1,000,000,000 items, or 2,000,000,000 ratings, one
  disagreement scores a perfect kappa (`CohenIsOneIffIdentical`, `FleissIsOneIffUnanimous`).
- `spans.py:89-93` promises offsets into the original text; they are offsets into the folded text. `AnswerIsRightIff`
  says for any text before a passage that they agree exactly when folding keeps its length. `LigatureMisplaces` shows a
  character that folds to two, `AccentMisplaces` two characters, each folding to one, that are composed into one, and
  `ComposedLetterIsMissed` a quote that composition hides.
- The reported `log_loss` belongs to the model before the last step, not to the returned coefficients
  (`FitStopsWhenSettled`), and it leaves out the penalty on the rank control that the descent includes
  (`LossIsObjective`).
- `requirements.py:114-116` says a bullet under "Nice to have" stays one even when worded as mandatory; the code
  lets the wording win (`WordingBeatsSection`, `MandatoryWordingUnderNiceToHave`).
- After a transport error on the last attempt, the HTTP client sleeps once more before it gives up
  (`SleepsBeforeGivingUpIff`).
- `keypool.py:10-16` says a key is parked for as long as it asked to be; a second, shorter penalty un-parks it earlier
  (`ShorterPenaltyUnparks`). `AllRestIffEndsNeverDrop` gives the exact condition on a run.

## Model

| member | source | states |
|---|---|---|
| DisjointSets.UnionFind.constructor | backend/app/domain/dedup/clustering.py:65-67 | A new structure holds every item in a class of its own, balanced, with all sizes one. |
| DisjointSets.UnionFind.Find | backend/app/domain/dedup/clustering.py:69-75 | Terminates at the representative of the item, changes no class and no other representative, only shortcuts parents to it, and follows a number of links whose power of two is at most the class size. |
| DisjointSets.UnionFind.Union | backend/app/domain/dedup/clustering.py:77-85 | Joins exactly the two classes, the smaller below the larger and the second argument's on a tie; returns true only when they differed; keeps the forest balanced. |
| DisjointSets.UnionFind.Groups | backend/app/domain/dedup/clustering.py:87-91 | Returns every class exactly once, in full and in item order, keyed by its root in the order the classes are first met. |
| DisjointSets.JoinSound | backend/app/domain/dedup/clustering.py:81-84 | After a join the size kept at each root is still the cardinality of its class. |
| DisjointSets.JoinMergesExactly | backend/app/domain/dedup/clustering.py:77-85 | Two items are together after a join if and only if they were before or the join brought their classes together. |
| DisjointSets.LookupsAreLogarithmic | backend/app/domain/dedup/clustering.py:69-75 | For every item of a balanced forest, two to the depth is at most its class size, hence at most the number of items. |
| DisjointSets.CompressionKeepsBalance | backend/app/domain/dedup/clustering.py:73-74 | Pointing a node straight at its root keeps every representative and every depth bound. |
| DisjointSets.LinkKeepsBalance | backend/app/domain/dedup/clustering.py:81-84 | Linking the smaller root below the larger keeps two to the depth within the class size for every node. |
| ClusterProgram.GroupBy | backend/app/domain/dedup/clustering.py:174-185 | The dictionary-of-lists loops produce the groups in first-key order with members in input order. |
| ClusterProgram.Clusterer.MergePair | backend/app/domain/dedup/clustering.py:160-165 | `merge` on the mutable union-find, reasons and locations ends in the abstract merge that consults the items, not their roots. |
| ClusterProgram.Clusterer.TextMergeAllowed | backend/app/domain/dedup/clustering.py:167-171 | The location guard compares the entries of the two current roots and leaves the clusters as they are. |
| ClusterProgram.Clusterer.ConsiderPair | backend/app/domain/dedup/clustering.py:209-244 | The body of the double loop, with its order of refusals, is one abstract step on the pair. |
| ClusterProgram.Clusterer.MergeExactGroups | backend/app/domain/dedup/clustering.py:177-195 | Stages 1 and 2: every group within the cap joins its first posting, in order. |
| ClusterProgram.Clusterer.CompareBlock | backend/app/domain/dedup/clustering.py:205-244 | Stages 4 and 5 on one block: every pair once, in order. |
| ClusterProgram.Clusterer.CompareBlocks | backend/app/domain/dedup/clustering.py:204-244 | The same over all blocks in order. |
| ClusterProgram.RunStages | backend/app/domain/dedup/clustering.py:149-244 | All stages on the mutable structures end exactly in the state of the abstract run. |
| ClusterProgram.ClusterPostings | backend/app/domain/dedup/clustering.py:130-260 | The program returns the clusters of the abstract run, sorted by canonical id, and an empty list for no input. |
| ClusterProgram.ClustersDescribeRun | backend/app/domain/dedup/clustering.py:246-260 | The returned list is the final partition: every class once and in full, with sorted members, its canonical posting, its key and a reason for each member, in order of canonical id. |
| ClusterTheory.ClustersBetweenExactAndAllEvidence | backend/app/domain/dedup/clustering.py:173-244 | On every input: together implies connected by evidence; exact evidence always joins; text evidence in a block is passed over only where the two final classes hold different known locations. |
| ClusterTheory.ClustersAreComponents | backend/app/domain/dedup/clustering.py:173-260 | When at most one location is named, two postings share a cluster if and only if a chain of evidence connects them. |
| ClusterTheory.ReasonsAreTrue | backend/app/domain/dedup/clustering.py:160-164 | "singleton" is reported exactly for postings alone in their cluster; any other reason names a stage whose test holds between the posting and another one. |
| ClusterTheory.MergeRecords | backend/app/domain/dedup/clustering.py:160-164 | A merge of two classes records its reason for those of the two postings that have none yet, and changes no other. |
| ClusterTheory.ExactReasonsStay | backend/app/domain/dedup/clustering.py:160-244 | What stages 1 and 2 record the text stages never change. |
| ClusterTheory.EvidenceExact | backend/app/domain/dedup/clustering.py:105-107 | For a pair of one block the text stages record title_exact, simhash or semantic exactly by the fields of the two postings: sources, lengths against 400, titles, fingerprints, similarity; at most one applies. |
| Blocking.SameBlockIff | backend/app/domain/dedup/blocking.py:17-32 | Two postings are compared if and only if they have the same employer, unresolved ones counting as "?", and the same first words of the title, provided no employer name holds a bar. |
| Blocking.BarsCollide | backend/app/domain/dedup/blocking.py:30-32 | With a bar in a name, two employers can share a block. |
| ClusterLocations.MergeKeepsRecordIff | backend/app/domain/dedup/clustering.py:153-165 | The exact condition under which a permitted merge keeps the location recorded at the root true; with roots consulted it always holds, with items consulted it is a restriction. |
| ClusterLocations.OneLocationPerCluster | backend/app/domain/dedup/clustering.py:153-171 | If stages 1 and 2 leave one known location per cluster, so does the whole run: for every input when the merge consults roots, and for the code as written when at most one posting lacks a location or at most one location is named. |
| ClusterLocations.ExactStagesIgnoreLocations | backend/app/domain/dedup/clustering.py:173-195 | The partition after stages 1 and 2 is the same under both readings of the merge. |
| ClusterLocations.ItemRuleLosesLocation | backend/app/domain/dedup/clustering.py:165 | Cairo, none, none, Giza at consecutive distance three: the code as written puts two known locations into one cluster although stages 1 and 2 merge nothing. |
| ClusterBridges.BridgesLoseLocation | backend/app/domain/dedup/clustering.py:160-171 | With two postings that lack a location and two different known ones, whatever else is in the input and whatever the settings, some titles and fingerprints make the code as written end with two locations in one cluster. |
| ClusterBridges.OneLocationIffSafe | backend/app/domain/dedup/clustering.py:153-171 | For every list of locations: the code as written keeps one known location per cluster for all orders of postings and all evidence that stages 1 and 2 leave sound, if and only if at most one posting lacks a location or at most one location is named. |
| ClusterOrder.BucketSizeIgnoresOrder | backend/app/domain/dedup/clustering.py:182-192 | How many postings share a key, hence whether the URL cap applies, does not depend on input order. |
| ClusterOrder.ClustersIgnoreOrder | backend/app/domain/dedup/clustering.py:130-260 | With at most one location named and a symmetric similarity, every reordering of the postings gives the same clusters. |
| ClusterOrder.PickIsFirst | backend/app/domain/dedup/clustering.py:119-127 | The pick is a member that no other member precedes in the tuple order. |
| ClusterOrder.PickIsExact | backend/app/domain/dedup/clustering.py:110-127 | The pick is among the employer's own postings if there are any, there among the longest, there among the earliest dated with undated ones last, and of those the one with the least id. |
| ClusterOrder.CanonicalPickIsStable | backend/app/domain/dedup/clustering.py:110-127 | The canonical posting depends on the set of members only, and comes from the employer's own system whenever one of them does. |
| SimHash.HammingIsMetric | backend/app/domain/dedup/simhash.py:85-87 | Distance is zero exactly for words equal in 64 bits, symmetric, at most 64, and obeys the triangle inequality. |
| SimHash.BitsDetermineWord | backend/app/domain/dedup/simhash.py:85-87 | Words that agree on 64 bits are equal modulo 2^64. |
| SimHash.SignedRoundTrip | backend/app/domain/dedup/simhash.py:90-98 | The signed form fits a bigint and the two conversions are inverse to each other on their ranges. |
| SimHash.SignedFormKeepsDistance | backend/app/domain/dedup/simhash.py:85-98 | Converting either way changes no distance. |
| SimHash.TrailingOnesApart | backend/app/domain/dedup/simhash.py:85-87 | Words of j and k trailing ones are exactly |k - j| bits apart. |
| SimHash.CountGrams | backend/app/domain/dedup/simhash.py:66-68 | The counts dictionary weighs every shingle by its number of occurrences, for every bit. |
| SimHash.WeighBits | backend/app/domain/dedup/simhash.py:70-76 | The nested loops leave in each of the 64 slots the occurrence-weighted sum of votes. |
| SimHash.Simhash64 | backend/app/domain/dedup/simhash.py:59-82 | The three loops compute the fingerprint of the shingles, and zero for no shingles. |
| SimHash.FingerprintIsMajority | backend/app/domain/dedup/simhash.py:64-82 | Each of the 64 bits is set if and only if strictly more shingle occurrences have it set than not. |
| SimHash.ShinglesAreWindows | backend/app/domain/dedup/simhash.py:48-52 | Every run of `size` tokens is a shingle, the last one included; a shorter text is a single one. |
| SimHash.NegativeSlices | backend/app/domain/dedup/simhash.py:48-52 | For sizes below one, shingles are what Python slices: all but that many tokens counted from each start while the end is counted from the back, then nothing. |
| SimHash.WeightMovesByEdit | backend/app/domain/dedup/simhash.py:70-76 | An edit moves a bit's weight by at most the number of occurrences removed plus added. |
| SimHash.EditFlipsOnlyThinBits | backend/app/domain/dedup/simhash.py:64-87 | Bits whose margin exceeds the edit size never flip, so the distance is at most the number of bits within it. |
| SimHash.TokenEditIsLocal | backend/app/domain/dedup/simhash.py:48-56 | Replacing one token removes and adds at most as many shingle occurrences each as a shingle holds tokens: `size`, or all but `-size` for the slices of a negative size. |
| Ranking.DominatedDcg | backend/app/eval/metrics.py:27-28 | If no prefix sum of one gain list exceeds the other's, neither does its discounted sum. |
| Ranking.LeadingSumIsLargest | backend/app/eval/metrics.py:41 | No choice of as many gains sums to more than the leading ones of the sorted list. |
| Ranking.ChosenGains | backend/app/eval/metrics.py:40 | Distinct ranked ids contribute no more gains than the label set holds. |
| Ranking.GainsAreExact | backend/app/eval/metrics.py:40-41 | Grades earn 0, 1, 3, 7 and so on, each twice the one before plus one; an item without a label earns nothing. |
| Ranking.PlaceCounts | backend/app/eval/metrics.py:27-28 | Replacing the gain at one place changes the sum by the difference times the discount of that place. |
| Ranking.PromotionRaisesScore | backend/app/eval/metrics.py:31-43 | Within the cut-off, exchanging a better item below with a worse one above raises the score by their difference in gain times that of the discounts, over the ideal. |
| Ranking.NdcgAtMostOne | backend/app/eval/metrics.py:31-43 | For rankings without repetition and non-negative cut-offs the score lies between 0 and 1. |
| Ranking.NdcgIsOneIff | backend/app/eval/metrics.py:31-43 | For a non-negative cut-off the score is 1 if and only if the cut-off keeps a place, some label has a positive grade, and the first k gains are the k largest, largest first. |
| Ranking.NegativeCutoffExceedsOne | backend/app/eval/metrics.py:40-43 | For every negative cut-off there is a ranking without repetition that scores above 1. |
| Ranking.BoundHoldsIffCutoffNotNegative | backend/app/eval/metrics.py:31-43 | The bound holds for all labels and all rankings without repetition if and only if the cut-off is not negative. |
| Agreement.ComputeCohensKappa | backend/app/eval/metrics.py:124-148 | The loop over categories computes kappa, with the length error and the empty case. |
| Agreement.KappaIsExact | backend/app/eval/metrics.py:134-148 | For lists of n entries with x matches and p equal cross pairs kappa is (xn - p)/(nn - p), or 1 or 0 by x when p is within the tolerance of nn. |
| Agreement.KappaEdges | backend/app/eval/metrics.py:131-134 | Lists of different lengths are refused and empty ones score 0. |
| Agreement.ChanceIsBelowSquares | backend/app/eval/metrics.py:138-144 | Twice the chance agreement is at most one plus the square of the observed agreement. |
| Agreement.ChanceIsAtMostHalfway | backend/app/eval/metrics.py:138-144 | Twice the chance agreement is at most one plus the observed agreement. |
| Agreement.CohenRange | backend/app/eval/metrics.py:124-148 | Kappa lies in [-1, 1] for every pair of lists of one length. |
| Agreement.CohenIsOneIff | backend/app/eval/metrics.py:146-148 | For all non-empty lists kappa is 1 if and only if they are identical or the tolerance takes both expected and observed agreement for 1; expected agreement of exactly 1 comes with observed agreement 1. |
| Agreement.OneOddItemScores | backend/app/eval/metrics.py:146-148 | A constant list against the same list with one odd item scores 1.0 from 1,000,000,000 items on and 0.0 below, which is the exact value throughout. |
| Agreement.CohenIsOneIffIdentical | backend/app/eval/metrics.py:146-148 | Over all pairs of lists of n items, kappa is 1 exactly for identical ones, if and only if n is below 1,000,000,000. |
| Agreement.ToleranceIsIdleIff | backend/app/eval/metrics.py:146-147 | Over all pairs of lists of n items, expected agreement is taken for 1 on identical lists only, if and only if n is below 1,000,000,000. |
| Agreement.FallbackTakenIff | backend/app/eval/metrics.py:146-147 | For each n, some pair of lists of n items is scored by the 0.0 fallback if and only if, with d = n // 10^9 + 1 differing items, 10^9 (nd - d*d//2) is at most n squared. |
| Agreement.FallbackIsDead | backend/app/eval/metrics.py:146-147 | The 0.0 fallback is never taken on lists of up to n items if and only if n is below 1,999,999,999. |
| Agreement.CohenIsSymmetric | backend/app/eval/metrics.py:124-148 | Swapping the annotators changes nothing. |
| FleissKappa.ColumnCauchy | backend/app/eval/metrics.py:176-180 | The square of a column total is at most the number of items times its sum of squares. |
| FleissKappa.ItemSquares | backend/app/eval/metrics.py:171-174 | An item's squared counts are r squared if it is unanimous, and otherwise at least 2(r-1) short of it. |
| FleissKappa.ChanceIsUncertain | backend/app/eval/metrics.py:176-180 | With two grades in use and m ratings, the column squares are at most m squared less 2(m-1). |
| FleissKappa.FleissRange | backend/app/eval/metrics.py:151-184 | With r ratings per usable item kappa lies in [-1/(r-1), 1]. |
| FleissKappa.FleissIsOneIff | backend/app/eval/metrics.py:157-184 | For all inputs kappa is 1 if and only if every usable item is unanimous or, with two grades in use, the tolerance takes both agreements for 1; chance agreement is then never exactly 1. |
| FleissKappa.OneOddRatingScoresOne | backend/app/eval/metrics.py:182-183 | From 2,000,000,000 ratings on, unanimous items but for one odd rating score 1.0. |
| FleissKappa.FleissIsOneIffUnanimous | backend/app/eval/metrics.py:157-184 | Over all inputs with n usable items of r ratings, kappa is 1 exactly when every usable item is unanimous, if and only if n times r is below 2,000,000,000. |
| FleissKappa.FleissIsExact | backend/app/eval/metrics.py:163-184 | With m ratings, r to each usable item, kappa is determined by the equal pairs on items and the equal pairs overall alone, with the tolerance spelled out. |
| FleissKappa.FleissEdges | backend/app/eval/metrics.py:157-165 | Nothing usable scores 0, a single grade 1, and unequal numbers of ratings are refused. |
| FleissKappa.UsableIsExact | backend/app/eval/metrics.py:157 | The usable items are those with two ratings or more, each as often as given. |
| FleissKappa.FallbacksAreDead | backend/app/eval/metrics.py:182-183 | Over all inputs with n usable items of r ratings and two grades in use, chance agreement is never taken for 1, so that neither branch of the tolerance is taken, if and only if n times r is below 1,999,999,999. |
| TaskQueue.Queue.Enqueue | backend/app/db/queue.py:59-93 | Inserts a fresh pending row, or nothing when a pending or running row holds the same non-null key. |
| TaskQueue.Queue.Claim | backend/app/db/queue.py:96-130 | Takes a due row that no other due row precedes by priority and time, marks it running and counts the attempt; nothing happens only if no row is due. |
| TaskQueue.Queue.Complete | backend/app/db/queue.py:133-144 | The row becomes done and unlocked; no other row changes. |
| TaskQueue.Queue.Fail | backend/app/db/queue.py:159-209 | On the n-th attempt: dead once n reaches the limit or, without a hint, leaves the schedule; otherwise pending after the n-th delay in minutes, or after the whole seconds of the hint. |
| TaskQueue.FailedIsExact | backend/app/db/queue.py:147-209 | The same for every row, schedule and hint. |
| TaskQueue.Queue.ReapStale | backend/app/db/queue.py:212-231 | Exactly the running rows locked before the timeout become pending; returns how many. |
| TaskQueue.Queue.RunOnce | backend/app/workers/runner.py:298-349 | Claims at most one task and settles it by what its handler did; false exactly when nothing is due. |
| QueueProtocol.OnlyEnqueueAddsLiveRows | backend/app/db/models.py:735-740 | No transaction but an insert brings a row among the pending and running ones or changes its key, so no update hits the unique index. |
| QueueProtocol.RunsMoveRows | backend/app/db/queue.py:59-231 | At every step of every run each row stays, or is inserted when no waiting or running row has its key, claimed when due, settled by its holder, or taken back from an old lock, with exactly the stated effect on its fields. |
| QueueProtocol.RunsAreSafe | backend/app/workers/runner.py:298-349 | The invariant holds in every world reachable by interleaved transactions, crashes and reclaims of stopped workers' rows. |
| QueueProtocol.QueueSafety | backend/app/db/queue.py:96-144 | Over any run: one executor per task; effects committed at most once and exactly when the row is done; no non-null key twice among pending and running rows. |
| QueueProtocol.FinishedStays | backend/app/db/queue.py:133-188 | Done and dead rows are never touched again. |
| QueueProtocol.LockedExactlyWhileRunning | backend/app/db/queue.py:104-109 | In every reachable world a row carries a lock, with owner and time, if and only if it is running. |
| QueueProtocol.FailFollowsSchedule | backend/app/db/queue.py:147-209 | Over any run, the failure of a task claimed n times takes the n-th delay of the schedule or the hint, and kills the task exactly when n reaches its limit or, without a hint, exceeds the schedule. |
| QueueProtocol.RetriesKeepTheirDelay | backend/app/db/queue.py:147-200 | Over any run, after a failure that is retried the next claim comes no earlier than the n-th delay of the schedule, or within a second of the Retry-After, reclaims included. |
| QueueProtocol.ClaimsAreBounded | backend/app/db/queue.py:96-130 | A task is claimed at most max(1, max_attempts) times plus once per reclaim. |
| QueueProtocol.PlainBoundIffAtLeastOne | backend/app/db/queue.py:147-188 | max_attempts plus the reclaims bounds the claims of every row with that max_attempts in every run, if and only if max_attempts is at least one; below that, one claim exceeds it. |
| QueueProtocol.QuietClaimsAreBounded | backend/app/db/queue.py:147-209 | Without reclaims and Retry-After, claims are also at most the schedule length plus one. |
| QueueProtocol.ReapIsSafeIffConsiderate | backend/app/db/queue.py:212-231 | Reclaiming keeps the invariant if and only if no busy worker's row is reclaimed. |
| QueueProtocol.DoubleCommitIffInconsiderate | backend/app/db/queue.py:212-231 | From every reachable world, after a reclaim some continuation commits one task's effects twice if and only if the reclaim took a busy worker's row. |
| QueueProtocol.SlowWorkerCommitsTwice | backend/app/db/queue.py:212-231 | A worker slower than the lock timeout: the same task's effects are committed twice. |
| QueueProtocol.SlowWorkerReclaimed | backend/app/db/queue.py:212-231 | In that run the first step that breaks an assumption is the reclaim of the busy worker's row. |
| RefreshTokens.AuthService.Authenticate | backend/app/services/auth.py:158-185 | Answers with a user if and only if that user has the normalised e-mail address, is not deleted and the password verifies; every other case is the same refusal; only a dated hash is replaced. |
| RefreshTokens.AuthService.Login | backend/app/api/v1/auth.py:79-89 | On right credentials takes exactly the login step of the protocol, and otherwise leaves the tokens alone. |
| RefreshTokens.AuthService.IssueTokens | backend/app/services/auth.py:189-232 | Adds one unrevoked token, to the given family or a new one, and changes nothing else. |
| RefreshTokens.AuthService.Rotate | backend/app/services/auth.py:249-292 | Refuses unknown, deleted-user, revoked and expired tokens in that order; a revoked one takes its family down; success revokes the token and issues its successor. |
| RefreshTokens.AuthService.Refresh | backend/app/api/v1/auth.py:92-99 | A success is kept as rotated; any refusal leaves the store as it was, the revocation included. |
| RefreshTokens.AuthService.RevokeRefreshToken | backend/app/services/auth.py:294-302 | Revokes that one token if it is not revoked yet, changes no other token and no user, and says whether it did. |
| RefreshTokens.AuthService.RevokeAll | backend/app/services/auth.py:304-312 | Revokes every live token of the user and returns how many. |
| RefreshTokens.AuthService.RequestDeletion | backend/app/services/account.py:182-200 | Marks the user deleted once and revokes all their tokens, returning how many. |
| RefreshTokens.FamilyHasOneLiveToken | backend/app/services/auth.py:249-292 | Over any run a family never has two unrevoked tokens. |
| RefreshTokens.DeadFamilyStaysDead | backend/app/services/auth.py:272-281 | A family without an unrevoked token never regains one. |
| RefreshTokens.TokenExchangedOnce | backend/app/services/auth.py:249-292 | No token is exchanged successfully twice in any run. |
| RefreshTokens.ReplayKillsFamilyIff | backend/app/services/auth.py:272-281 | Presenting a revoked token leaves its family without a live token if and only if the revocation is kept or there was none left. |
| RefreshTokens.ReplayEndsFamily | backend/app/services/auth.py:272-281 | After a replay whose revocation is kept no token of that family is ever exchanged again. |
| RefreshTokens.FamilySurvivesReplayIff | backend/app/api/deps.py:20-30 | In any run, after a replay the family can still be exchanged if and only if the revocation was rolled back and the family could be exchanged before. |
| RefreshTokens.ReplayByRequestLeavesFamily | backend/app/api/v1/auth.py:92-98 | A run of requests: the replayed token is refused and rolled back, and its successor in the same family is exchanged next. |
| RefreshTokens.DeletionEndsSessions | backend/app/services/account.py:182-200 | After deletion, including later erasure, no token of that user is ever exchanged. |
| RefreshTokens.ExchangeSucceedsIff | backend/app/services/auth.py:249-292 | Over any run an exchange succeeds if and only if a login or an exchange issued the token less than thirty days before and nothing has ended it since: its exchange, its logout, a logout everywhere, deletion or erasure of its user, or a kept replay in its family. |
| RefreshTokens.LogoutEndsSession | backend/app/api/v1/auth.py:102-110 | After the logout of a token ever issued it is never exchanged again, nor is any of its family if it was the live one. |
| RefreshTokens.LogoutRevokesOne | backend/app/services/auth.py:294-302 | Logging out revokes that token and changes nothing else. |
| RefreshTokens.LogoutAllRevokesUser | backend/app/services/auth.py:304-312 | Logging out everywhere revokes that user's tokens and nobody else's. |
| RefreshTokens.DeletionRevokesUser | backend/app/services/account.py:182-200 | A deletion request closes the account, revokes that user's tokens and touches nobody else. |
| RefreshTokens.ExchangeHandsOver | backend/app/services/auth.py:286-292 | A successful exchange leaves exactly the successor live in the family, under the same user. |
| RefreshTokens.SessionsLapse | backend/app/services/auth.py:283-292 | Every exchange presents a token that a login or an exchange issued less than one refresh lifetime before. |
| PreferenceFit.OnePass | backend/app/domain/scoring/preferences.py:193-214 | One pass over the rows leaves in each accumulator the sum over all examples. |
| PreferenceFit.MovedWeights | backend/app/domain/scoring/preferences.py:218-221 | The in-place update moves each weight by its averaged, regularised gradient. |
| PreferenceFit.Iterate | backend/app/domain/scoring/preferences.py:191-228 | One iteration of the program is one abstract step: loss of the old model, new model, convergence test. |
| PreferenceFit.FitLogistic | backend/app/domain/scoring/preferences.py:142-237 | The nested loops compute the specified fit, with the class-count refusal. |
| PreferenceLoss.ScoreMoves | backend/app/domain/scoring/preferences.py:198-201 | The zero model scores 0, and moving the coordinates moves the score by what the row has at each: its features, its rank and one. |
| PreferenceLoss.LossGrowsByLabel | backend/app/domain/scoring/preferences.py:198-214 | Each example adds the negative logarithm of the probability given to its label, clamped at 1e-12, with the score written out. |
| PreferenceLoss.LossAboveTangent | backend/app/domain/scoring/preferences.py:193-214 | With -log(sigmoid) above its tangents and nothing clamped, the summed loss of any other model is at least that of this one plus the accumulated gradients times the moves. |
| PreferenceLoss.StepIsDescent | backend/app/domain/scoring/preferences.py:218-223 | Each iteration moves every coordinate against the derivative of the penalised loss, by the rate over the number of examples. |
| PreferenceLoss.ObjectiveAboveTangent | backend/app/domain/scoring/preferences.py:193-223 | The loss with every coordinate but the intercept penalised lies above its tangent planes: those derivatives are its gradient. |
| PreferenceLoss.FixedModelIsOptimal | backend/app/domain/scoring/preferences.py:191-223 | A model that an iteration leaves unchanged has the least penalised loss of all. |
| PreferenceLoss.LossIsObjective | backend/app/domain/scoring/preferences.py:216 | The reported loss is that objective per example, less the penalty on the rank control. |
| PreferenceLoss.RowsAreExact | backend/app/domain/scoring/preferences.py:165-176 | Each row has the example's sub-scores, zero for missing ones, its label, and its rank as a share of the highest; an unknown rank is one half. |
| PreferenceLoss.RefusedIff | backend/app/domain/scoring/preferences.py:158-163 | The fit is refused if and only if there are fewer than twenty positive or twenty other examples. |
| PreferenceTheory.FitStopsWhenSettled | backend/app/domain/scoring/preferences.py:191-237 | The result is plain descent stopped at the first iteration whose loss is settled, or at the limit; the reported loss is that of the model before the last step. |
| PreferenceTheory.FitIgnoresOrder | backend/app/domain/scoring/preferences.py:163-237 | Reordering the examples changes nothing in the result. |
| PreferenceTheory.SplitSigmoid | backend/app/domain/scoring/preferences.py:133-139 | Both branches equal the one-line logistic function, lie strictly between 0 and 1, and satisfy s(-z) = 1 - s(z), given exp positive with exp(z)exp(-z) = 1. |
| PreferenceTheory.MirrorSymmetry | backend/app/domain/scoring/preferences.py:142-237 | Flipping every label negates every coefficient, the intercept and the rank control, and keeps loss, iterations, convergence and refusal. |
| PreferenceTheory.CollinearFeaturesShare | backend/app/domain/scoring/preferences.py:158-163 | Two sub-scores equal on every example get the same coefficient, never opposite ones. |
| PreferenceTheory.CoefficientsBounded | backend/app/domain/scoring/preferences.py:218-228 | With sub-scores in [0, 1], ranks not negative and rate times l2 at most n, every sub-score coefficient and the rank control stay within n / l2 wherever the fit stops. |
| PreferenceTheory.PositiveSignalIsRewarded | backend/app/domain/scoring/preferences.py:203-228 | A sub-score that only positive examples show never gets a negative coefficient, and after one iteration a positive one. |
| PersonalWeights.ProjectToSimplex | backend/app/domain/scoring/preferences.py:285-330 | The in-place shift computes the specified projection, both early returns included. |
| PersonalWeights.HeadroomSuffices | backend/app/domain/scoring/preferences.py:313-321 | The available headroom is the surplus plus the bound: the second early return is never taken and the whole surplus can move. |
| PersonalWeights.ProjectionIsShift | backend/app/domain/scoring/preferences.py:323-330 | Every weight gives up the same share of its headroom and the final clamp changes nothing. |
| PersonalWeights.ProjectionMeetsSimplex | backend/app/domain/scoring/preferences.py:285-330 | The result is within the bound of every default and sums to one, within 1e-15 on the early return. |
| PersonalWeights.FixedExactlyWhenFeasible | backend/app/domain/scoring/preferences.py:285-330 | The projection leaves an input alone if and only if it is within the bounds and sums to one within 1e-15. |
| PersonalWeights.AdjustmentsFollowCoefficients | backend/app/domain/scoring/preferences.py:266-281 | Relative adjustments are ordered exactly as the coefficients, ties included, whatever the projection shifts. |
| PersonalWeights.WeakFitsStayWeak | backend/app/domain/scoring/preferences.py:250-260 | The relative adjustment is at most three times the bound times the largest squashed coefficient, projection included: a weak fit moves weights little. |
| PersonalWeights.WeightsBounded | backend/app/domain/scoring/preferences.py:240-282 | Whatever was fitted, the personalised weights stay in the band and sum to one within 1e-15. |
| PersonalWeights.WeightsAreExact | backend/app/domain/scoring/preferences.py:240-330 | The weights in closed form: each default times 1 + bound tanh(coefficient / 2), after all these factors have gone the same share, surplus over surplus plus bound, of their way to one end of the band. |
| PersonalWeights.NothingFitted | backend/app/domain/scoring/preferences.py:266-267 | With no non-zero coefficient the defaults come back and every adjustment is zero. |
| PersonalWeights.AdjustmentsAreRelative | backend/app/domain/scoring/preferences.py:276-279 | Each weight is its default times one plus the adjustment, which is zero for a default of zero. |
| Aggregate.Aggregate | backend/app/domain/scoring/aggregate.py:94-156 | Popping the unavailable terms and summing computes the specified score, contributions, cap and assessed weight; a failed gate gives zero. |
| Aggregate.ScoreIsExact | backend/app/domain/scoring/aggregate.py:135-156 | Behind a passed gate exactly the available terms contribute, each weight times sub-score; the total is the sum of those five written out, cut at 1, and the assessed weight that of their weights. |
| Aggregate.PerfectScoresAssessedWeight | backend/app/domain/scoring/aggregate.py:144-149 | With all sub-scores 1 the total is the assessed weight, at most 1. |
| Aggregate.FailedGateScoresNothing | backend/app/domain/scoring/aggregate.py:126-133 | A failed gate gives total zero and no contributions. |
| Aggregate.ScoreWithinAssessedWeight | backend/app/domain/scoring/aggregate.py:107-121 | A score is never negative and never above the weight that could be assessed or one. |
| Aggregate.UnavailableNeverHelps | backend/app/domain/scoring/aggregate.py:107-121 | Making more terms unavailable never raises a score. |
| Aggregate.PersonalTotalWithinBand | backend/app/domain/scoring/aggregate.py:135-149 | With personalised weights every total stays within the bound of the default-weight total, for any fit and any unavailable set. |
| Aggregate.ShippedDefaultsAreValid | backend/app/domain/scoring/aggregate.py:26-30 | The shipped weights are positive and sum to one, so the band theorem applies at 40 percent. |
| RateBudget.Budget.Attempt | backend/app/adapters/http.py:126-134 | One locked pass filters the window, grants below the rate, and otherwise names the sleep. |
| RateBudget.Budget.Consume | backend/app/adapters/http.py:122-135 | Alone on its key, a caller is granted after at most one sleep of at most a minute. |
| RateBudget.OneSleepIsEnough | backend/app/adapters/http.py:131-135 | The sleep is positive, at most a minute, and enough for the next pass to grant. |
| RateBudget.SleepIsNeeded | backend/app/adapters/http.py:131-135 | Nor is it longer than needed: until a hundredth of a second before its end a lone caller would still be refused. |
| RateBudget.BudgetHolds | backend/app/adapters/http.py:122-135 | Over any interleaving, a key with fixed rate R has at most R grants in any half-open 60-second window. |
| RateBudget.GrantedExactlyWhenRoom | backend/app/adapters/http.py:128-132 | A caller is let through if and only if fewer than R grants are less than a minute old: the budget is never stricter than promised. |
| RateBudget.HostThrottle.Wait | backend/app/adapters/http.py:55-66 | A wait ends no earlier than the interval after the last completion for that host, which it replaces. |
| RateBudget.WaitsNoLongerThanNeeded | backend/app/adapters/http.py:60-65 | Lateness aside, a wait ends at the earliest time that is not before the call and respects the interval. |
| RateBudget.CompletionsAreSpaced | backend/app/adapters/http.py:42-66 | Any two completions for one host are at least the minimum interval apart. |
| RetryLoop.Request | backend/app/adapters/http.py:166-225 | The loop takes the specified steps and ends in the specified verdict. |
| RetryLoop.ReturnsFirstSettled | backend/app/adapters/http.py:169-221 | A response is returned if and only if it is the first that settles, within the attempts, after replies that were each worth a retry. |
| RetryLoop.RequestIsExact | backend/app/adapters/http.py:166-225 | Verdict and all steps follow from the first reply that earns no other try: which codes retry and when, each sleep as the hint or 1, 5, 25 seconds and so on with two minutes at most for a rate limit, and how the loop ends. |
| RetryLoop.SendsArePoliteAndBounded | backend/app/adapters/http.py:169-172 | Sends number at most max_retries, and each directly follows a budget grant and a host wait. |
| RetryLoop.CapIsKept | backend/app/adapters/http.py:184-206 | No rate-limit wait exceeds two minutes, nor the caller's cap when there is one. |
| RetryLoop.SleepsBeforeGivingUpIff | backend/app/adapters/http.py:177-182 | The loop sleeps before giving up if and only if its last allowed attempt met a transport error. |
| KeyPool.MakePool | backend/app/adapters/llm/keypool.py:79-104 | Blank and repeated keys are dropped, an empty pool is refused, and every key starts unused. |
| KeyPool.UniqueIsExact | backend/app/adapters/llm/keypool.py:85-95 | The keys kept are exactly the stripped values that are not blank. |
| KeyPool.UniqueKeepsOrder | backend/app/adapters/llm/keypool.py:85-95 | They are kept in the order in which they first appear. |
| KeyPool.ApiKeyPool.Acquire | backend/app/adapters/llm/keypool.py:120-135 | Hands out the chosen key and counts the use, or refuses with the wait; nothing else changes. |
| KeyPool.ApiKeyPool.Penalise | backend/app/adapters/llm/keypool.py:137-153 | Parks the named key for the hint or the default; an unknown key changes nothing. |
| KeyPool.ChosenIsLeast | backend/app/adapters/llm/keypool.py:128-133 | The choice is free and least by uses, then position; there is none if and only if every key is parked. |
| KeyPool.RefusalIsExact | backend/app/adapters/llm/keypool.py:129-131 | A refused pool, left alone, answers at exactly the times from its retry_after on. |
| KeyPool.UsesAreHandouts | backend/app/adapters/llm/keypool.py:120-135 | Over any run a key's use count is the number of times it was handed out. |
| KeyPool.RateLimitsAreReports | backend/app/adapters/llm/keypool.py:137-144 | And its rate-limit count the number of times it was reported. |
| KeyPool.ParkedKeysRest | backend/app/adapters/llm/keypool.py:137-144 | Over any run, a key is not handed out before the cooldown of its latest penalty has passed. |
| KeyPool.AllRestIffEndsNeverDrop | backend/app/adapters/llm/keypool.py:10-16 | In a run, at every point every key stays parked for as long as each of its penalties asked, if and only if no penalty of a key ends before an earlier one of that key. |
| KeyPool.PenalisedKeysRest | backend/app/adapters/llm/keypool.py:10-16 | Under that condition no key is handed out before the end of any penalty it has had. |
| KeyPool.ShorterPenaltyUnparks | backend/app/adapters/llm/keypool.py:137-144 | A key parked until 100 and then asked to rest until 2 is handed out at 2. |
| KeyPool.RoundRobin | backend/app/adapters/llm/keypool.py:120-135 | Without penalties acquisition m takes key m mod n, and use counts never differ by more than one. |
| FallbackChain.MakeChain | backend/app/adapters/llm/chain.py:55-68 | A chain without providers is refused. |
| FallbackChain.Fallback.Ask | backend/app/adapters/llm/chain.py:77-123 | The loop over providers makes the specified calls, cooldowns and errors and returns the first answer. |
| FallbackChain.CallsAreTurns | backend/app/adapters/llm/chain.py:83-103 | A provider is called if and only if its turn came and was not skipped; only the first is asked for the caller's model. |
| FallbackChain.CalledIff | backend/app/adapters/llm/chain.py:83-100 | Called are exactly those whom no answer preceded and who are not cooling down, and the last of the chain even then, when nobody before was called. |
| FallbackChain.ErrorsAreFailures | backend/app/adapters/llm/chain.py:101-123 | The failures reported are those of the providers called without answering. |
| FallbackChain.CooldownsAreRefusals | backend/app/adapters/llm/chain.py:73-75 | A name cools down until one cooldown after its latest refusal, and nothing else changes a cooldown. |
| FallbackChain.SomeoneIsCalled | backend/app/adapters/llm/chain.py:83-90 | Every chat of a non-empty chain calls at least one provider. |
| FallbackChain.CoolingOnlyAsLastResort | backend/app/adapters/llm/chain.py:84-90 | A cooling provider is called if and only if it is last and nobody before it was called. |
| FallbackChain.FirstAnswerWins | backend/app/adapters/llm/chain.py:92-100 | After a called provider answers, its answer is returned and nobody later is called. |
| FallbackChain.GivesUpOnlyWhenAllFailed | backend/app/adapters/llm/chain.py:101-123 | The chain gives up if and only if every provider was called without answering or left out while cooling. |
| FallbackChain.RefusedProvidersRest | backend/app/adapters/llm/chain.py:73-75 | Over any run of chats, within a cooldown of a refusal that provider is called later only as the last resort. |
| Spans.NormalizeWithOffsets | backend/app/domain/profile/spans.py:118-137 | The two loops over the folded source produce the collapsed text and, per character, its index in the folded source, trailing spaces popped. |
| SpanTheory.NormalisationsAgree | backend/app/domain/profile/spans.py:64-71 | Substituting whitespace runs and stripping gives the same text as the offset walk. |
| SpanTheory.NormalizedIsWords | backend/app/domain/profile/spans.py:64-71 | The normalised text is the folded words joined by single spaces. |
| SpanTheory.SpanOfOccurrence | backend/app/domain/profile/spans.py:112-115 | The offsets of an occurrence slice out text whose normalisation is exactly the occurrence. |
| SpanTheory.CoreOfSliceOccurs | backend/app/domain/profile/spans.py:104-111 | The normalised form of any slice occurs in the normalised source. |
| SpanTheory.SayingSliceIsFound | backend/app/domain/profile/spans.py:89-115 | If some slice of the source normalises to the normalised non-blank quote and the source folds apart at its ends, the search answers, whatever folding does to lengths. |
| SpanTheory.FindSpanIsExact | backend/app/domain/profile/spans.py:89-115 | Where every slice of the source is folded in place: the search answers if and only if the quote is not blank and some slice of the source normalises to the normalised quote, and the answer is such a slice. |
| SpanTheory.FoundSpanSaysQuote | backend/app/domain/profile/spans.py:89-115 | An answer that is verbatim, or around which the source folds apart and up to whose end it keeps its length, is a non-empty slice of the original source that normalises to the normalised quote. |
| SpanLimits.AnswerIsRightIff | backend/app/domain/profile/spans.py:112-129 | For any text followed by a space and a passage that alone says a quote not there verbatim, the answer says the quote if and only if folding keeps the length of the text before. |
| SpanLimits.WordShiftsAnswer | backend/app/domain/profile/spans.py:112-129 | After any word that folds without whitespace, the answer for "a b" in "A B" is displaced by what folding adds to the word or takes from it, and says the quote if and only if that is nothing. |
| SpanLimits.AnswersAreRightIff | backend/app/domain/profile/spans.py:89-137 | For a fold in which joining characters always shows in the length: answers say their quotes on all documents and quotes if and only if no text changes its length. |
| SpanLimits.LigatureMisplaces | backend/app/domain/profile/spans.py:112-129 | A ligature before "A B" shifts the span of the quote "a b" by one, so that it slices out " B". |
| SpanLimits.AccentMisplaces | backend/app/domain/profile/spans.py:112-129 | A letter and its combining accent before "A B" shift the span back by one, so that it slices out " A ". |
| SpanLimits.ComposedLetterIsMissed | backend/app/domain/profile/spans.py:104-111 | Where composition folds a letter and its accent into one character, a document says the letter and the search does not find it. |
| SpanTheory.VerbatimComesFirst | backend/app/domain/profile/spans.py:95-101 | If the stripped quote occurs verbatim, its first occurrence is the answer. |
| SpanTheory.GroundedExactlyWhenSaid | backend/app/domain/profile/spans.py:140-154 | Where every slice of the source is folded in place: a field is grounded if and only if the source says its quote somewhere; it then carries such a span, and otherwise none. |
| SpanTheory.StatusIsExact | backend/app/domain/profile/spans.py:74-81 | Exact is reported, with the span given, if and only if that span lies in the document and says a non-blank quote; relocated comes with the answer of the search, not found without one. |
| Lines.LinesConcat | backend/app/domain/profile/bullets.py:75 | Splitting into lines loses nothing. |
| Lines.LinesAreWhole | backend/app/domain/profile/bullets.py:75 | No line has a break before its end, and every line but the last ends in one. |
| Lines.MarkerIsExact | backend/app/domain/profile/bullets.py:22 | A marker is spaces, one of nine glyphs, and all the spaces after it, at least one. |
| Spacing.StripIsExact | backend/app/domain/profile/bullets.py:79 | Stripping cuts whitespace off both ends and leaves none there. |
| Bullets.Flush | backend/app/domain/profile/bullets.py:58-73 | Emits the open bullet when long enough, cut to the maximum, and closes it. |
| Bullets.TakeLine | backend/app/domain/profile/bullets.py:76-108 | One line: blank, heading, new bullet or continuation, in that order. |
| Bullets.ExtractBullets | backend/app/domain/profile/bullets.py:44-111 | The loop over lines computes the specified bullets. |
| Bullets.VerifyBulletSpans | backend/app/domain/profile/bullets.py:114-126 | Keeps exactly the bullets whose span recovers the first forty respaced characters of their text. |
| Spacing.RespacedIsCore | backend/app/domain/profile/bullets.py:122-123 | Splitting on whitespace and joining with spaces gives the collapsed, trimmed text. |
| BulletTheory.BulletsKeepTheirOffsets | backend/app/domain/profile/bullets.py:44-111 | Bullets have valid, non-empty, ascending, disjoint spans that recover their text, text lengths within the limits, and ordinals in order; a bare marker line is no exception. |
| BulletTheory.BulletsAreLongPieces | backend/app/domain/profile/bullets.py:58-73 | The bullets are exactly the closed pieces whose text reaches the minimum length, in order. |
| BulletRuns.BulletsAreRuns | backend/app/domain/profile/bullets.py:44-111 | The bullets are exactly those of the runs of text lines, cut at markers and sentence ends: text of 25 characters or more cut to 600, span, section of the last heading before the run, and ordinal. |
| BulletTheory.NothingVisibleIsLost | backend/app/domain/profile/bullets.py:75-111 | Every visible character is in a section heading, in a bullet marker, or in a piece: only headings, markers and short fragments are dropped. |
| BulletTheory.VerificationDropsNothing | backend/app/domain/profile/bullets.py:114-126 | Verification keeps every extracted bullet. |
| BulletRuns.VerifiedIsExact | backend/app/domain/profile/bullets.py:114-126 | Kept are exactly the bullets whose span slices out text that begins with the first forty characters of theirs, up to spacing. |
| Requirements.TakeLine | backend/app/domain/jobs/requirements.py:124-172 | One line: blank, heading, ignored prose or a candidate, with the length limits and the must-have rule. |
| Requirements.ExtractRequirements | backend/app/domain/jobs/requirements.py:109-177 | The loop with its early break computes the specified requirements. |
| Requirements.RequirementsKeepTheirOffsets | backend/app/domain/jobs/requirements.py:109-177 | At most thirty requirements, with ascending disjoint spans each slicing out exactly its text, of 15 to 400 characters. |
| RequirementTheory.ExtractedAreStated | backend/app/domain/jobs/requirements.py:109-177 | The one-pass loop returns the first thirty of the lines that state a requirement, each judged from the headings and bullets before it alone. |
| RequirementTheory.WordingBeatsSection | backend/app/domain/jobs/requirements.py:159-163 | Over a whole description: every requirement stands on a line, and is a must-have if and only if it is not worded as a nice-to-have and is worded as a must-have or stands under a demanding heading. |
| RequirementTheory.MandatoryWordingUnderNiceToHave | backend/app/domain/jobs/requirements.py:114-116 | Under any nice-to-have heading, any bullet worded as mandatory is extracted as a must-have. |
| RequirementTheory.MustHaveSql | backend/app/domain/jobs/requirements.py:114-116 | "Must have SQL or Go" below "Nice to have" is one. |

## Left out

- ClusterTheory.ClustersAreComponents: assumes at most one known location in the input; with several, ClustersBetweenExactAndAllEvidence says what remains true.
- QueueProtocol.QueueSafety: assumes that reclaimed rows belong to stopped workers, and handlers that keep their effects in the settling transaction; a handler that commits midway is outside the claim.
- RefreshTokens.TokenExchangedOnce: overlapping exchanges of one token; the theorem is about serial transactions.
- RateBudget.Budget.Consume: one caller on its key, whose history is that of a fixed rate; on a busy key other callers may take the free place first.
- SpanTheory.FindSpanIsExact: documents that are not folded in place have the one-sided results and the conditions in `SpanLimits` only.
- SpanLimits.AnswersAreRightIff: folds that reorder characters without changing the length, as NFKC does with several accents on one letter, or put a space into visible text, as it does with free-standing accents; the theorems on a document do not exclude them.
- PreferenceLoss.ObjectiveAboveTangent: models that predict some label with probability below 1e-12, where the loss is clamped and no longer convex.
- PreferenceFit.FitLogistic: infinities other than the first previous loss, NaN and float rounding are not modelled.
- RetryLoop.Request: transport, headers, conditional requests and the parsing of Retry-After; a negative hint, which `time.sleep` refuses, is passed on as a number.
- KeyPool.ApiKeyPool.Penalise: logging, fingerprints and the second clock reading inside the log call.
- TaskQueue.Queue.Claim: row locking is represented by the atomicity of the step; `last_error` and `updated_at` are not kept.
- RefreshTokens.AuthService.Authenticate: the hashing itself, and the extra hash that equalises timing for unknown addresses.
- Frontend, routers, CLI, configuration, migrations and logging.
- Source adapters, document extraction, embedding and language models, robots.txt.
- Group persistence in `DedupService`, company directories and match upserts, whose guarantees live in SQL conflict clauses.
- Cryptography and the contents of access tokens.
- Regular-expression engines, Arabic vocabularies, NFKC tables and fuzzy string scores.
- MRR, precision, recall, percentiles, gates, freshness and other single-branch scores: they would add only easy members.
- Skill-group expansion and grounding of model-extracted requirements, which reuse the quote search.
