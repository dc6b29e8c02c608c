# OLMS path selection, modelled in Dafny

OLMS chooses which MPTCP subflows ("paths") carry traffic in each round. A user-space program
treats this choice as a multiple-play bandit problem. A Linux kernel scheduler then sends each
segment over the subflows the program prefers.

This project models the deterministic core of that system and proves properties of it:

- **Selection helpers.** Top-l by value with stable tie-breaking, sums and dot products, string
  splitting, random permutations, the Bernoulli trial and `Metric` arithmetic.
- **Dependent rounding.** A fractional vector that sums to l becomes exactly l ascending indices.
- **The seven policies.** ConMPTS-Latency, -Bandwidth and -Loss, MPTS, KL-UCB, EXP3.M and Random:
  their Beta counters, weights and averages, and for the constrained policies the LP each one
  builds.
- **The LP wrapper around GLPK.** How row bounds, column bounds and the 1-based coefficient
  triplets are laid out, and the status and result contract around the simplex call.
- **The simulator's round loop.** Select, then measure every path, then update. Results go into
  the P×T and P×T×K logs, and the `forever` mode keeps nothing.
- **The two simulated path kinds.** Fixed-value paths and Bernoulli paths.
- **The user-space kernel glue.** Measurement normalisation, the fetch-and-retry logic and the
  path-id mapping.
- **Parts of the MPTCP scheduler in `mptcp_olms.c`.** The subflow choice, the availability test,
  the bit-counting path map, the preference bitmask and the ioctl command check.

How the model treats what it cannot compute:

- `double` is modelled as `real`.
- The process-wide generator is an input stream `rng: nat -> real` read from a cursor, and
  each operation that draws from it returns the cursor's new position. Integer draws use
  `draw: nat -> nat`. In the simulator, the paths' measurements read the stream directly; the
  number of uniforms each round's policy takes before and after the measurements is the input
  `policyDraws`, and the cursor moves on by those draws too.
- Beta samples are inputs.
- The simplex call is an oracle: its return code `simplexRet` and its column values `colPrim`.
- `log` and `exp` are function parameters.
- Stateful objects are classes whose methods state their whole new state. Pure helpers are
  functions, and the properties that relate several calls are lemmas.

## Model

| member | source | states |
|---|---|---|
| BanditUtil.BernoulliTrial | user-program/src/bandit/bandit_util.hpp:37-45 | the trial is 0 or 1, and it is 1 exactly when the draw is below the mean |
| BanditUtil.Plus | user-program/src/bandit/bandit_util.hpp:80-91 | `Metric` addition (and `+=`) adds r, b and l componentwise |
| BanditUtil.AverageOver | user-program/src/bandit/bandit_util.hpp:93-96 | `averageOver(n)` gives each component of the average times n back as the original component |
| BanditUtil.AverageOfRepeatedSum | user-program/src/bandit/bandit_util.hpp:80-96 | adding a metric to itself n times and averaging over n returns that metric |
| BanditUtil.RepeatedSumScales | user-program/src/bandit/bandit_util.hpp:80-86 | adding a metric to itself n times scales each component by n |
| BanditUtil.VectorSumAppend | user-program/src/bandit/bandit_util.hpp:199-207 | the left-to-right sum of a concatenation is the sum of the parts |
| BanditUtil.VectorSumUpdate | user-program/src/bandit/bandit_util.hpp:199-207 | changing one entry changes the sum by exactly the difference |
| BanditUtil.VectorSumPositive | user-program/src/bandit/bandit_util.hpp:199-207 | a non-empty vector of positive entries has a positive sum |
| BanditUtil.VectorDot | user-program/src/bandit/bandit_util.hpp:232-246 | it fails (abort) exactly when the sizes differ; otherwise it is the sum of pairwise products |
| BanditUtil.DotWithOnes | user-program/src/bandit/bandit_util.hpp:232-246 | the dot product with an all-ones vector is the plain sum |
| BanditUtil.VectorMax | user-program/src/bandit/bandit_util.hpp:187-197 | the result is an element of the vector and at least every element |
| BanditUtil.VectorMaxIndex | user-program/src/bandit/bandit_util.hpp:141-153 | the index of a maximum, and the first one (ties keep the earlier index) |
| BanditUtil.VectorLTHIndices | user-program/src/bandit/bandit_util.hpp:209-219 | ascending indices, and k is listed exactly when its value is at most h |
| BanditUtil.NewVectorWithIndices | user-program/src/bandit/bandit_util.hpp:221-230 | the i-th entry of the result is the entry at the i-th given index |
| BanditUtil.PickedBelowThreshold | user-program/src/bandit/bandit_util.hpp:209-230 | picking at the LTH indices gives exactly `AtMost(s, h)`, the entries at most h in index order, one per qualifying index |
| BanditUtil.PermutedPick | user-program/src/bandit/bandit_util.hpp:221-230 | picking at a rearrangement of all the indices gives back the same entries, each as often |
| BanditUtil.TallyStep | user-program/src/policy/policy_mpts.hpp:35-42 | one more selected path adds its increment to its own counter and to no other |
| BanditUtil.Tally | user-program/src/policy/policy_mpts.hpp:35-42 | each counter ends as its start plus the increments of the steps that selected it |
| BanditUtil.SumWhereIndicator | user-program/src/policy/policy_mpts.hpp:35-42 | with 0/1 increments, a counter grows by the number of its successful occurrences |
| BanditUtil.CounterPair | user-program/src/policy/policy_mpts.hpp:35-42 | the success counter grows by the successes and the failure counter by the other occurrences; an unselected path keeps both |
| BanditUtil.HitsSplit | user-program/src/policy/policy_mpts.hpp:35-42 | a path's tally over the selections is its start plus the increments of its occurrences |
| BanditUtil.HitsAbsent | user-program/src/policy/policy_mpts.hpp:35-42 | a path that is never selected keeps its counter |
| BanditUtil.TrialStep | user-program/src/policy/policy_mpts.hpp:35-42 | one trial raises exactly one of the success and failure counters by one |
| BanditUtil.TallyTotal | user-program/src/policy/policy_mpts.hpp:32-44 | over all trials, successes plus failures grow by exactly the number of selections |
| BanditUtil.DistinctCard | user-program/src/bandit/bandit_util.hpp:155-185 | a duplicate-free index list has as many members as entries |
| BanditUtil.IndexSetCard | user-program/src/bandit/simulator.hpp:54-56 | the indices below n number exactly n |
| BanditUtil.Iota | user-program/src/bandit/simulator.hpp:54-56 | `all_paths`: the ascending list 0..n−1 |
| TopIndices.SortIndices | user-program/src/bandit/bandit_util.hpp:155-185 | the indices below n sorted by (value, index): every index exactly once, in order |
| TopIndices.VectorMinIndices | user-program/src/bandit/bandit_util.hpp:171-185 | min(l, n) in-range indices in ascending (value, index) order; every chosen index precedes every unchosen one |
| TopIndices.VectorMaxIndices | user-program/src/bandit/bandit_util.hpp:155-169 | min(l, n) in-range indices, largest value first with ties to the lower index; every chosen index outranks every unchosen one |
| TopIndices.RandomIndices | user-program/src/bandit/bandit_util.hpp:264-277 | a permutation of 0..K-1 whose order is non-decreasing in the drawn keys |
| TopIndices.InsertBehindHead | user-program/src/bandit/bandit_util.hpp:155-185 | inserting behind the least element keeps the list sorted |
| TopIndices.Insert | user-program/src/bandit/bandit_util.hpp:155-185 | inserting an index into a sorted list keeps it sorted and adds exactly that index |
| Strings.FindChar | user-program/src/bandit/bandit_util.hpp:301 | `find_first_of` from `current`: the first occurrence of the character at or after it |
| Strings.Split | user-program/src/bandit/bandit_util.hpp:296-307 | joining the pieces with the delimiter gives back the input; no piece holds the delimiter; there is one piece more than the delimiter occurs |
| Strings.FindFrom | user-program/src/bandit/bandit_util.hpp:314 | `find(delim, current)`: the first occurrence at or after `current`, or none anywhere after it; an empty delimiter is found at `current` |
| Strings.Split2StallsOnEmpty | user-program/src/bandit/bandit_util.hpp:314-317 | as written, with an empty delimiter `find` succeeds at the cursor and the cursor does not advance |
| Strings.Split2Guarded | user-program/src/bandit/bandit_util.hpp:309-320 | corrected: an empty delimiter leaves the input as one piece; any other delimiter splits as `split2` does |
| Strings.Split2 | user-program/src/bandit/bandit_util.hpp:309-320 | joining with the delimiter string gives back the input; no piece contains it; every piece but the last ends where the first occurrence starts |
| Strings.CountAppend | user-program/src/bandit/bandit_util.hpp:296-307 | delimiter counts add over concatenation |
| Strings.SplitStep | user-program/src/bandit/bandit_util.hpp:301-304 | one loop step of `split` keeps the join, freedom and count invariant |
| Strings.Split2Step | user-program/src/bandit/bandit_util.hpp:314-317 | one loop step of `split2` keeps the join and freedom invariant |
| Strings.Split2Last | user-program/src/bandit/bandit_util.hpp:318-319 | the final push of `split2` completes the join and freedom invariant |
| Strings.PieceEndsAtFirst | user-program/src/bandit/bandit_util.hpp:314-316 | a piece cut at the first occurrence does not contain the delimiter |
| Strings.CountAbsent | user-program/src/bandit/bandit_util.hpp:296-307 | a string free of the delimiter counts zero occurrences |
| Strings.SplitLast | user-program/src/bandit/bandit_util.hpp:305-306 | the final push of `split` completes the join, freedom and count invariant |
| BetaTrials.TrialOutcomes | user-program/src/policy/policy_conmpts_latency.hpp:151-167 | the trial of the i-th selected path succeeds exactly when draw pos + 2i + offset is below the measured signal |
| BetaTrials.Readings | user-program/src/policy/policy_conmpts_latency.hpp:155-162 | the signal read from each measurement, one per measurement |
| BetaTrials.PairedTrials | user-program/src/policy/policy_conmpts_latency.hpp:151-167 | each selected path adds one to the success or the failure counter of each of two signals, per occurrence; unselected paths keep theirs; two draws per selection |
| DependentRounding.Classify | user-program/src/bandit/bandit_util.hpp:408-416 | an entry above 0.999 is selected, below 0.001 excluded, otherwise undetermined |
| DependentRounding.Prob | user-program/src/bandit/bandit_util.hpp:455-457 | for two undetermined entries the probability beta/(alpha+beta) lies strictly between 0 and 1 |
| DependentRounding.PairStep | user-program/src/bandit/bandit_util.hpp:455-467 | the pair's sum is kept, both new values are in [0, 1], and at least one of them is 0 or 1 |
| DependentRounding.PairStepKeepsMean | user-program/src/bandit/bandit_util.hpp:455-467 | the expected new value of the first entry equals its old value |
| DependentRounding.CountUndeterminedSet | user-program/src/bandit/bandit_util.hpp:468-485 | settling an undetermined entry lowers the undetermined count by one |
| DependentRounding.MassUpdate | user-program/src/bandit/bandit_util.hpp:468-485 | changing one entry changes the mass by exactly that entry's difference |
| DependentRounding.InitialMarks | user-program/src/bandit/bandit_util.hpp:408-416 | the initial marks classify each entry |
| DependentRounding.InitialMass | user-program/src/bandit/bandit_util.hpp:408-416 | the initial thresholding moves the total mass by at most 0.001 per entry |
| DependentRounding.FindPair | user-program/src/bandit/bandit_util.hpp:423-439 | the first one or two undetermined entries in the random order, or none |
| DependentRounding.SettleEffect | user-program/src/bandit/bandit_util.hpp:468-485 | settling a new value either fixes the entry or stores it, with the count and mass change stated |
| DependentRounding.Settle | user-program/src/bandit/bandit_util.hpp:468-485 | the arrays become exactly the settled sequences |
| DependentRounding.PairMarks | user-program/src/bandit/bandit_util.hpp:452-485 | a pairing step keeps the marks consistent, keeps determined entries, and strictly lowers the undetermined count |
| DependentRounding.PairMass | user-program/src/bandit/bandit_util.hpp:452-485 | a pairing step moves the mass only by the thresholding error of the entries it fixes |
| DependentRounding.PairDrift | user-program/src/bandit/bandit_util.hpp:455-485 | two settled entries whose values keep their sum drift the mass by at most the error of those fixed |
| DependentRounding.PairOnce | user-program/src/bandit/bandit_util.hpp:452-485 | one pairing step in place: consistent marks, determined entries kept, fewer undetermined ones, bounded mass change |
| DependentRounding.ResolveLone | user-program/src/bandit/bandit_util.hpp:443-451 | a lone undetermined entry is selected exactly when it exceeds 0.5 |
| DependentRounding.PairingStep | user-program/src/bandit/bandit_util.hpp:418-486 | the loop invariant of the pairing loop survives one step |
| DependentRounding.PairingLast | user-program/src/bandit/bandit_util.hpp:443-451 | the lone-entry exit keeps determined entries, and the drift stays within the slack plus 0.5 |
| DependentRounding.NoneLeft | user-program/src/bandit/bandit_util.hpp:440-442 | when the scan finds nothing, every entry is determined |
| DependentRounding.PairingRound | user-program/src/bandit/bandit_util.hpp:419-485 | one pass of the `while (true)` body: it ends the loop with everything determined, or strictly lowers the undetermined count |
| DependentRounding.PairUntilDetermined | user-program/src/bandit/bandit_util.hpp:418-486 | the loop ends with every entry determined and determined entries kept; it uses at most one draw per undetermined entry; the mass drift is bounded |
| DependentRounding.DetermineAll | user-program/src/bandit/bandit_util.hpp:408-486 | every entry ends selected or excluded, the thresholded marks are kept, at most two draws per entry are used, and the mass is within the slack plus 0.5 of the thresholded mass |
| DependentRounding.Threshold | user-program/src/bandit/bandit_util.hpp:408-416 | the initial marks are the classification of each entry |
| DependentRounding.CollectSelected | user-program/src/bandit/bandit_util.hpp:487-492 | ascending in-range indices, exactly those marked selected, as many as are selected |
| DependentRounding.ErrorsBelowOne | user-program/src/bandit/bandit_util.hpp:493-496 | an integer count within the accumulated error of l, for at most 498 entries, equals l |
| DependentRounding.RoundingDrift | user-program/src/bandit/bandit_util.hpp:402-492 | the number of selected entries differs from the sum of ps by at most the accumulated threshold error plus 0.5 |
| DependentRounding.TotalDrift | user-program/src/bandit/bandit_util.hpp:408-496 | the thresholding error and the pairing drift add up to at most the slack for all entries plus 0.5 |
| DependentRounding.SelectIndices | user-program/src/bandit/bandit_util.hpp:408-492 | ascending in-range indices that include every entry above 0.999 and no entry below 0.001 |
| DependentRounding.Round | user-program/src/bandit/bandit_util.hpp:398-499 | fails on the sum check exactly when the sum of ps is more than 0.001 away from l; success gives l ascending in-range indices that keep the thresholded entries; inputs in [0, 1] with an accepted sum and at most 498 entries always succeed |
| LPSolving.Zeros | user-program/src/lpsolver/lpsolver.cpp:17-27 | an all-zero rows×cols matrix |
| LPSolving.SlotInRange | user-program/src/lpsolver/lpsolver.cpp:49-63 | entry (i, j) lands in a slot between 1 and M·N |
| LPSolving.TripletsCoverMatrix | user-program/src/lpsolver/lpsolver.cpp:49-63 | every non-dummy slot names one matrix cell and carries that cell's value |
| LPSolving.SatisfiesDescribed | user-program/src/lpsolver/lpsolver.cpp:106-125 | a point satisfies the described problem exactly when it is in the unit box, rows 1..M-1 are within b, and row M equals Fix |
| LPSolving.RowBounds | user-program/src/lpsolver/lpsolver.cpp:106-114 | rows 1..M-1 are bounded above by b[row-1], and row M is fixed at Fix |
| LPSolving.ColumnCoefs | user-program/src/lpsolver/lpsolver.cpp:117-125 | every column is bounded to [0, 1] with objective coefficient c[j] |
| LPSolving.Triplets | user-program/src/lpsolver/lpsolver.cpp:49-63 | a dummy slot 0, then entry (i, j) at slot i·N+j+1, M·N entries in all |
| LPSolving.LPSolver.constructor | user-program/src/lpsolver/lpsolver.cpp:17-27 | keeps A, b, c and Fix and builds the described problem, minimising |
| LPSolving.LPSolver.Copy | user-program/src/lpsolver/lpsolver.cpp:29-39 | copies every field, Fix included, into a fresh problem |
| LPSolving.LPSolver.InitProblem | user-program/src/lpsolver/lpsolver.cpp:42-64 | the problem becomes the description of the stored data |
| LPSolving.LPSolver.Assign | user-program/src/lpsolver/lpsolver.cpp:71-83 | copies sizes, c, b and A and rebuilds the problem, but keeps its own Fix |
| LPSolving.LPSolver.SetMaximization | user-program/src/lpsolver/lpsolver.cpp:95-98 | only the direction changes, to maximise |
| LPSolving.LPSolver.SetMinimization | user-program/src/lpsolver/lpsolver.cpp:100-103 | only the direction changes, to minimise |
| LPSolving.LPSolver.Solve | user-program/src/lpsolver/lpsolver.cpp:127-155 | feasible exactly when the simplex returns 0, and then the result is the N column values; on error the result is untouched |
| LPSolving.DotUnitRow | user-program/src/lpsolver/lpsolver.cpp:106-125 | a row with one non-zero entry v at column i picks v·x[i] |
| ConMPTSLatencyPolicy.LatencyLPMeaning | user-program/src/policy/policy_conmpts_latency.hpp:116-137 | v satisfies the latency LP exactly when it is in the unit box, every rtt[i]·v[i] is at most Cr, and the weights sum to M |
| ConMPTSLatencyPolicy.LatencyMatrix | user-program/src/policy/policy_conmpts_latency.hpp:116-124 | a (K+1)×K matrix |
| ConMPTSLatencyPolicy.LatencyRow | user-program/src/policy/policy_conmpts_latency.hpp:116-121 | row i of the matrix gives rtt[i]·v[i] |
| ConMPTSLatencyPolicy.LatencyLastRow | user-program/src/policy/policy_conmpts_latency.hpp:122-124 | the last row gives the sum of v |
| ConMPTSLatencyPolicy.ConMPTSLatency.constructor | user-program/src/policy/policy_conmpts_latency.hpp:25-40 | the counters are filled with s and f, the averages with 0.5, and the selection counts with zeros |
| ConMPTSLatencyPolicy.ConMPTSLatency.BuildMatrix | user-program/src/policy/policy_conmpts_latency.hpp:116-124 | the (K+1)×K matrix with rtt on the diagonal and an all-ones last row |
| ConMPTSLatencyPolicy.ConMPTSLatency.SolveConTSLP | user-program/src/policy/policy_conmpts_latency.hpp:93-149 | the solver is handed that matrix with b = K copies of Cr, c = bw and Fix = M, maximising; status and result follow the simplex outcome |
| ConMPTSLatencyPolicy.ConMPTSLatency.SelectNextPaths | user-program/src/policy/policy_conmpts_latency.hpp:42-75 | a feasible LP gives the dependent rounding of its solution; otherwise the M paths of smallest sampled rtt |
| ConMPTSLatencyPolicy.ConMPTSLatency.SelectNextPathsAvg | user-program/src/policy/policy_conmpts_latency.hpp:209-231 | the same decision over the running averages |
| ConMPTSLatencyPolicy.ConMPTSLatency.SelectWith | user-program/src/policy/policy_conmpts_latency.hpp:56-74 | the shared decision: dependent rounding of a feasible LP, otherwise the M smallest rtts |
| ConMPTSLatencyPolicy.ConMPTSLatency.ComputeOracleLatency | user-program/src/policy/policy_conmpts_latency.hpp:78-91 | fails (abort) exactly when the LP errs, and otherwise gives v*·bw |
| ConMPTSLatencyPolicy.ConMPTSLatency.UpdateState | user-program/src/policy/policy_conmpts_latency.hpp:151-167 | each selection adds one to sb or fb and one to sr or fr, decided by its two draws; nothing else changes |
| ConMPTSLatencyPolicy.ConMPTSLatency.UpdateStateDamped | user-program/src/policy/policy_conmpts_latency.hpp:169-207 | every counter ends at least 1.0 unless no step touched it; an unselected path's counters decay |selected| times |
| ConMPTSLatencyPolicy.ConMPTSLatency.DampPath | user-program/src/policy/policy_conmpts_latency.hpp:173-205 | one path's counters after the inner loop: at least 1.0 or unchanged, and the decay when the path is not selected |
| ConMPTSLatencyPolicy.Shrink | user-program/src/policy/policy_conmpts_latency.hpp:199-203 | every counter is floored at 1.0 |
| ConMPTSLatencyPolicy.BelowAll | user-program/src/policy/policy_conmpts_latency.hpp:173-205 | when every selection lies below path j, every selection is counted |
| ConMPTSLatencyPolicy.BelowAppend | user-program/src/policy/policy_conmpts_latency.hpp:173-205 | one more selection is counted exactly when it lies below j |
| ConMPTSLatencyPolicy.ConMPTSLatency.UpdateStateAvg | user-program/src/policy/policy_conmpts_latency.hpp:233-251 | selection counts grow by occurrences; each average times its count is the old total plus the new measurements; unselected averages stay |
| ConMPTSLatencyPolicy.RunningAverage | user-program/src/policy/policy_conmpts_latency.hpp:244-245 | the new average times n+1 is the old total plus the new value |
| ConMPTSLatencyPolicy.FirstObservation | user-program/src/policy/policy_conmpts_latency.hpp:244-245 | after a path's first observation its average equals that measurement |
| ConMPTSLatencyPolicy.Absorb | user-program/src/policy/policy_conmpts_latency.hpp:236-248 | the averaging loop keeps "average times count equals total" |
| ConMPTSLatencyPolicy.AbsorbStep | user-program/src/policy/policy_conmpts_latency.hpp:240-247 | one averaging step keeps "average times count equals total" |
| ConMPTSLatencyPolicy.Totals | user-program/src/policy/policy_conmpts_latency.hpp:244-245 | each path's total is its average times its count |
| ConMPTSBandwidthPolicy.BandwidthBounds | user-program/src/policy/policy_conmpts_bandwidth.hpp:111-112 | b is K zeros followed by Cb |
| ConMPTSBandwidthPolicy.Objective | user-program/src/policy/policy_conmpts_bandwidth.hpp:116-117 | c is (1, 0, ..., 0) |
| ConMPTSBandwidthPolicy.ObjectiveValue | user-program/src/policy/policy_conmpts_bandwidth.hpp:116-117 | the objective is x[0] |
| ConMPTSBandwidthPolicy.LatencyBoundRowValue | user-program/src/policy/policy_conmpts_bandwidth.hpp:91-98 | row i gives hatr[i]·x[i+1] − x[0] |
| ConMPTSBandwidthPolicy.LatencyBoundRow | user-program/src/policy/policy_conmpts_bandwidth.hpp:91-98 | one latency row has K+1 entries |
| ConMPTSBandwidthPolicy.BandwidthMatrix | user-program/src/policy/policy_conmpts_bandwidth.hpp:91-109 | the intended matrix is (K+2)×(K+1) |
| ConMPTSBandwidthPolicy.BandwidthMatrixAsWritten | user-program/src/policy/policy_conmpts_bandwidth.hpp:91-109 | the as-written matrix is (K+2)×(K+1) |
| ConMPTSBandwidthPolicy.BandwidthRows | user-program/src/policy/policy_conmpts_bandwidth.hpp:91-109 | in the corrected matrix, the rows are the latency rows, hatb·v, and the sum of v |
| ConMPTSBandwidthPolicy.BandwidthLPMeaning | user-program/src/policy/policy_conmpts_bandwidth.hpp:82-125 | corrected LP: x satisfies it exactly when it is in the unit box, every hatr[i]·v[i] is at most x[0], hatb·v is at most Cb, and v sums to M |
| ConMPTSBandwidthPolicy.AsWrittenInfeasible | user-program/src/policy/policy_conmpts_bandwidth.hpp:100-109 | as written, no point satisfies the LP when M ≠ 0 |
| ConMPTSBandwidthPolicy.AsWrittenIgnoresBandwidth | user-program/src/policy/policy_conmpts_bandwidth.hpp:100-108 | as written, row K is the plain sum of v and holds no bandwidth |
| ConMPTSBandwidthPolicy.FillLatencyRows | user-program/src/policy/policy_conmpts_bandwidth.hpp:91-98 | the first K rows have −1 in column 0 and hatr[i] in column i+1; the last two rows stay zero |
| ConMPTSBandwidthPolicy.BuildMatrixAsWritten | user-program/src/policy/policy_conmpts_bandwidth.hpp:91-109 | the matrix the loops actually build: row K is (0, 1, ..., 1) and row K+1 is all zero, whatever hatb holds |
| ConMPTSBandwidthPolicy.BuildMatrix | user-program/src/policy/policy_conmpts_bandwidth.hpp:91-109 | the intended matrix: row K is (0, hatb) and row K+1 is (0, 1, ..., 1) |
| ConMPTSBandwidthPolicy.ConMPTSBandwidth.constructor | user-program/src/policy/policy_conmpts_bandwidth.hpp:20-31 | the counters are filled with s and f |
| ConMPTSBandwidthPolicy.ConMPTSBandwidth.SolveConTSLP | user-program/src/policy/policy_conmpts_bandwidth.hpp:82-138 | as written: the solver is handed the matrix the loops build (row K all ones past column 0, row K+1 all zero) with bounds (0, ..., 0, Cb), objective x[0] and Fix = M, minimising; status and result follow the simplex outcome; when M ≠ 0 no point satisfies that problem |
| ConMPTSBandwidthPolicy.ConMPTSBandwidth.SolveConTSLPIntended | user-program/src/policy/policy_conmpts_bandwidth.hpp:82-138 | corrected: the same call on the intended matrix, row K = (0, hatb) bounded by Cb and row K+1 = (0, 1, ..., 1) fixed at M; status and result follow the simplex outcome |
| ConMPTSBandwidthPolicy.ConMPTSBandwidth.SelectNextPaths | user-program/src/policy/policy_conmpts_bandwidth.hpp:33-58 | on the as-written LP: a simplex success gives the dependent rounding of GLPK's column values without entry 0; otherwise the M paths of smallest sampled rtt, with no draw taken |
| ConMPTSBandwidthPolicy.ConMPTSBandwidth.ComputeOracleBandwidth | user-program/src/policy/policy_conmpts_bandwidth.hpp:61-80 | on the as-written LP: fails exactly when the simplex call errs, and otherwise gives lp_x[0] |
| ConMPTSBandwidthPolicy.ConMPTSBandwidth.UpdateState | user-program/src/policy/policy_conmpts_bandwidth.hpp:140-156 | each selection adds one to sb or fb and one to sr or fr; nothing else changes |
| ConMPTSLossPolicy.LossLPMeaning | user-program/src/policy/policy_conmpts_loss.hpp:91-113 | v satisfies the loss LP exactly when it is in the unit box, hatl·v is at most Cl, and v sums to M |
| ConMPTSLossPolicy.LossMatrix | user-program/src/policy/policy_conmpts_loss.hpp:91-113 | a 2×K matrix |
| ConMPTSLossPolicy.BuildMatrix | user-program/src/policy/policy_conmpts_loss.hpp:91-113 | the 2×K matrix: the row hatl, then the all-ones row |
| ConMPTSLossPolicy.ConMPTSLoss.constructor | user-program/src/policy/policy_conmpts_loss.hpp:20-31 | the counters are filled with s and f |
| ConMPTSLossPolicy.ConMPTSLoss.SolveConTSLP | user-program/src/policy/policy_conmpts_loss.hpp:91-113 | b = [Cl], c = hatb, Fix = M, maximising; status and result follow the simplex outcome |
| ConMPTSLossPolicy.ConMPTSLoss.SelectNextPaths | user-program/src/policy/policy_conmpts_loss.hpp:33-57 | a feasible LP gives the dependent rounding of its solution; otherwise the M paths of smallest sampled loss |
| ConMPTSLossPolicy.ConMPTSLoss.ComputeOracleLoss | user-program/src/policy/policy_conmpts_loss.hpp:62-79 | fails exactly when the LP errs, and otherwise gives v*·Ab |
| ConMPTSLossPolicy.ConMPTSLoss.UpdateState | user-program/src/policy/policy_conmpts_loss.hpp:123-139 | each selection adds one to sb or fb and one to sl or fl; nothing else changes |
| MPTSPolicy.Wins | user-program/src/policy/policy_mpts.hpp:37 | a measurement is a success exactly when its b exceeds 0.5 |
| MPTSPolicy.MPTS.constructor | user-program/src/policy/policy_mpts.hpp:12-19 | K alphas equal to alpha and K betas equal to beta |
| MPTSPolicy.MPTS.SelectNextPaths | user-program/src/policy/policy_mpts.hpp:21-30 | min(m, K) distinct in-range paths, each with a theta at least that of every unchosen path |
| MPTSPolicy.MPTS.UpdateState | user-program/src/policy/policy_mpts.hpp:32-44 | alpha grows on a success and beta otherwise, once per occurrence; unselected paths keep theirs; the total grows by |is| |
| KLUCBPolicy.Clamp | user-program/src/policy/policy_klucb.hpp:53 | a Newton iterate is clamped into [p, 1 − DELTA] |
| KLUCBPolicy.NewtonStaysClamped | user-program/src/policy/policy_klucb.hpp:44-54 | after any number of the 20 steps the iterate stays clamped |
| KLUCBPolicy.UpperInRange | user-program/src/policy/policy_klucb.hpp:39-59 | the bound is 1 when the mean is at least 1, always lies in (0, 1 + DELTA], and is at least min(mean, 1 − DELTA) |
| KLUCBPolicy.UCBIndices | user-program/src/policy/policy_klucb.hpp:65-74 | unplayed paths get index 1e8; played ones get their KL-UCB bound |
| KLUCBPolicy.UnplayedFirst | user-program/src/policy/policy_klucb.hpp:65-76 | an unplayed path is chosen whenever a played one is |
| KLUCBPolicy.Means | user-program/src/policy/policy_klucb.hpp:79-82 | the ranking value (Gi+1)/(Ni+1) of each path |
| KLUCBPolicy.MaxIndicesDistinct | user-program/src/bandit/bandit_util.hpp:155-169 | the top-l indices are pairwise distinct |
| KLUCBPolicy.Pigeonhole | user-program/src/policy/policy_klucb.hpp:99-107 | l distinct UCB choices cannot all lie among l−1 kept paths |
| KLUCBPolicy.TopTakesLarger | user-program/src/policy/policy_klucb.hpp:99-107 | the first unkept UCB choice outranks every other unkept path |
| KLUCBPolicy.FirstNew | user-program/src/policy/policy_klucb.hpp:99-107 | some of the top-l UCB choices is not among the l−1 kept paths, so the loop always adds a path |
| KLUCBPolicy.KLUCB.constructor | user-program/src/policy/policy_klucb.hpp:27-31 | Ni and Gi are K zeros |
| KLUCBPolicy.KLUCB.Reset | user-program/src/policy/policy_klucb.hpp:33-37 | Ni and Gi become K zeros |
| KLUCBPolicy.KLUCB.GetKLUCBUpper | user-program/src/policy/policy_klucb.hpp:39-59 | the KL-UCB bound of path k after n rounds |
| KLUCBPolicy.KLUCB.NewtonIteration | user-program/src/policy/policy_klucb.hpp:44-54 | the result of at most 20 clamped Newton steps from p + DELTA |
| KLUCBPolicy.KLUCB.Indices | user-program/src/policy/policy_klucb.hpp:65-74 | the loop computes the UCB index of every path |
| KLUCBPolicy.KLUCB.PathIndex | user-program/src/policy/policy_klucb.hpp:66-73 | one path's UCB index |
| KLUCBPolicy.KLUCB.SelectNextPathsBasic | user-program/src/policy/policy_klucb.hpp:61-77 | the top l by UCB index: distinct paths, with every unplayed path chosen before a played one |
| KLUCBPolicy.KLUCB.SelectNextPathsNonBasic | user-program/src/policy/policy_klucb.hpp:78-109 | the top l−1 by mean, then the best-UCB path not among them; l distinct paths |
| KLUCBPolicy.KLUCB.Chosen | user-program/src/policy/policy_klucb.hpp:84-87 | the set of the first n kept paths |
| KLUCBPolicy.KLUCB.UpdateState | user-program/src/policy/policy_klucb.hpp:114-121 | Ni[k] grows by the occurrences of k and Gi[k] by their measured b; nothing else changes |
| Exp3MPolicy.Clipped | user-program/src/policy/policy_exp3m.hpp:51-59 | wsd[i] = min(alpha, wi[i]) when S0 is not empty, and wsd = wi otherwise |
| Exp3MPolicy.Clip | user-program/src/policy/policy_exp3m.hpp:51-59 | a clipped weight is at most the weight, and either the weight or the cap, never above the cap |
| Exp3MPolicy.SortedDescending | user-program/src/policy/policy_exp3m.hpp:45-46 | a rearrangement of the weights (same multiset) in non-increasing order, whose first entry is the largest weight |
| Exp3MPolicy.CapEquation | user-program/src/policy/policy_exp3m.hpp:27-40 | a found alpha satisfies alpha·(1 − k·rhs) = rhs·s, with s the sum of the weights not yet passed |
| Exp3MPolicy.AlphaFrom | user-program/src/policy/policy_exp3m.hpp:27-40 | the candidate search gives a cap or nothing, never "unclipped" |
| Exp3MPolicy.AlphaShare | user-program/src/policy/policy_exp3m.hpp:27-40 | capping the weights at the found alpha makes alpha exactly rhs times the capped sum |
| Exp3MPolicy.NextAlpha | user-program/src/policy/policy_exp3m.hpp:44-60 | S0 is empty (alpha_t = −1) exactly when the top weight is below the threshold; otherwise alpha_t is the `getAlpha` result |
| Exp3MPolicy.ProbabilitiesSum | user-program/src/policy/policy_exp3m.hpp:61-64 | the probabilities sum to exactly l |
| Exp3MPolicy.Probabilities | user-program/src/policy/policy_exp3m.hpp:61-64 | pi[i] = l·((1−γ)·w[i]/Σw + γ/K) for each path |
| Exp3MPolicy.ProbabilityFloor | user-program/src/policy/policy_exp3m.hpp:61-64 | every probability is at least l·γ/K |
| Exp3MPolicy.ClippedPositive | user-program/src/policy/policy_exp3m.hpp:51-59 | clipped weights stay positive, so the normaliser is positive |
| Exp3MPolicy.Reweighted | user-program/src/policy/policy_exp3m.hpp:68-79 | the weights after the update loop, as written or as intended |
| Exp3MPolicy.ReweightedFrame | user-program/src/policy/policy_exp3m.hpp:68-79 | the update loop leaves unselected paths' weights alone |
| Exp3MPolicy.AsWrittenUnclippedFrozen | user-program/src/policy/policy_exp3m.hpp:56-75 | as written, with alpha_t = −1 no weight ever changes |
| Exp3MPolicy.IntendedUnclippedUpdatesAll | user-program/src/policy/policy_exp3m.hpp:68-79 | corrected, with S0 empty every selected path's weight is multiplied by its exp factor |
| Exp3MPolicy.UniformWeightsUnclipped | user-program/src/policy/policy_exp3m.hpp:21-56 | from the reset weights with 1 ≤ l < K and 0 ≤ γ < 1, S0 is empty |
| Exp3MPolicy.Exp3M.constructor | user-program/src/policy/policy_exp3m.hpp:9-19 | weights and probabilities are K ones, and alpha_t starts at −1 |
| Exp3MPolicy.Exp3M.Reset | user-program/src/policy/policy_exp3m.hpp:21-25 | weights and probabilities become K ones, and alpha_t is kept |
| Exp3MPolicy.Exp3M.GetAlpha | user-program/src/policy/policy_exp3m.hpp:27-40 | the first candidate alpha above the k-th largest weight, or none (abort) |
| Exp3MPolicy.Exp3M.ChooseAlpha | user-program/src/policy/policy_exp3m.hpp:44-60 | the alpha_t chosen for the current weights |
| Exp3MPolicy.Exp3M.SelectNextPaths | user-program/src/policy/policy_exp3m.hpp:42-66 | weights unchanged; alpha_t and pi are set from them; pi sums to l with each entry at least lγ/K; the rounding never fails its sum check |
| Exp3MPolicy.Exp3M.ApplyAlpha | user-program/src/policy/policy_exp3m.hpp:51-65 | clipping, probabilities and rounding for a chosen alpha_t |
| Exp3MPolicy.Exp3M.ClipAll | user-program/src/policy/policy_exp3m.hpp:51-59 | the loop computes the clipped weights |
| Exp3MPolicy.Exp3M.SetProbabilities | user-program/src/policy/policy_exp3m.hpp:61-64 | pi becomes the probability vector, which sums to l with each entry at least lγ/K and positive |
| Exp3MPolicy.Exp3M.UpdateState | user-program/src/policy/policy_exp3m.hpp:68-79 | as written: only selected paths below alpha_t are reweighted, so nothing changes when alpha_t = −1 |
| Exp3MPolicy.Exp3M.UpdateStateIntended | user-program/src/policy/policy_exp3m.hpp:68-79 | corrected: when S0 is empty every selected path is reweighted |
| RandomPolicy.DrawnMeaning | user-program/src/policy/policy_random.hpp:17-20 | the drawn set holds exactly the first n draws |
| RandomPolicy.DrawnNext | user-program/src/policy/policy_random.hpp:17-20 | one more draw adds its value to the drawn set |
| RandomPolicy.DrawnBelow | user-program/src/policy/policy_random.hpp:18-19 | draws below K give paths below K |
| RandomPolicy.DrawnBound | user-program/src/policy/policy_random.hpp:18-19 | the draws, all below K, give at most K distinct paths |
| RandomPolicy.Random.constructor | user-program/src/policy/policy_random.hpp:10-13 | K is kept |
| RandomPolicy.Random.DrawUntil | user-program/src/policy/policy_random.hpp:17-20 | it draws until l distinct paths are held, or until the draw budget runs out |
| RandomPolicy.Random.InOrder | user-program/src/policy/policy_random.hpp:21-24 | the map's keys come out ascending, each once |
| RandomPolicy.Random.SelectNextPaths | user-program/src/policy/policy_random.hpp:15-26 | l distinct ascending in-range paths, exactly the drawn ones; success needs l ≤ K |
| Simulation.AscendingSelectionAligned | user-program/src/bandit/simulator.hpp:130-143 | for an ascending duplicate-free selection, the j-th measurement passed on belongs to the j-th selected path |
| Simulation.AscendingSelected | user-program/src/bandit/simulator.hpp:130-141 | the measurements the loop collects, at most one per path |
| Simulation.SelectionOrder | user-program/src/bandit/simulator.hpp:143 | one measurement per selected entry, in selection order |
| Simulation.LastSelected | user-program/src/bandit/simulator.hpp:130-141 | in an ascending selection, the last path is the last entry, and the others stay ascending and below it |
| Simulation.UpdateMisaligned | user-program/src/bandit/simulator.hpp:130-143 | for the selection [1, 0], `updateState` gets path 0's measurement paired with path 1 |
| Simulation.SelectionOrderAppend | user-program/src/bandit/simulator.hpp:130-143 | the selection-ordered measurements extend by one per selected entry |
| Simulation.CountStep | user-program/src/bandit/simulator.hpp:133-136 | recording path i moves the selection counts one path further |
| Simulation.MetricStep | user-program/src/bandit/simulator.hpp:140 | recording path i's measurement moves the metric sums one path further |
| Simulation.MarkRow | user-program/src/bandit/simulator.hpp:133-136 | the counts of the first n paths grow by one exactly when selected |
| Simulation.AddRow | user-program/src/bandit/simulator.hpp:140 | the first n paths' metrics grow by their measurements, the rest stay |
| Simulation.ScheduleCovers | user-program/src/bandit/simulator.hpp:89-99 | every round (p, t) with p < P and t < T is run, and no other |
| Simulation.ScheduleOrdered | user-program/src/bandit/simulator.hpp:89-99 | rounds run in strictly increasing (t, p) order, so each exactly once |
| Simulation.TalliedStep | user-program/src/bandit/simulator.hpp:89-136 | counting one round into its own cell moves the overall tally past that round |
| Simulation.TalliedAll | user-program/src/bandit/simulator.hpp:89-136 | after the run, a cell holds one more count exactly when its round selected the path |
| Simulation.TalliedNone | user-program/src/bandit/simulator.hpp:89-99 | before any round, the tally is the starting counts |
| Simulation.TalliedNextTime | user-program/src/bandit/simulator.hpp:93-98 | finishing all policies at one time starts the next time |
| Simulation.RoundIndexIs | user-program/src/bandit/simulator.hpp:93-94 | with t outer and p inner, round (q, s) is the (s·P + q)-th round of a run |
| Simulation.RoundIndexNext | user-program/src/bandit/simulator.hpp:93-94 | the next policy's round comes right after this one, and the first round of time s + 1 right after the last of time s |
| Simulation.RoundStartNext | user-program/src/bandit/simulator.hpp:93-98 | each round moves the stream cursor on by its policy's draws before the measurements, the K paths' draws and its policy's draws after them; a new time starts where the last policy of the previous time stopped |
| Simulation.ElapsedUniform | user-program/src/bandit/simulator.hpp:93-98 | when every policy takes a uniforms before and b after the measurements, n rounds take n·(a + d + b) uniforms |
| Simulation.RoundStartUniform | user-program/src/bandit/simulator.hpp:93-98 | with such policies round (q, s) starts (s·P + q)·(a + d + b) uniforms after the run's start |
| Simulation.RoundMeasured | user-program/src/bandit/simulator.hpp:130-141 | the K measurements of round (q, s), read after every earlier round's draws and this round's policy draws before measuring; a fixed path gives its mean |
| Simulation.MeasuredAt | user-program/src/bandit/simulator.hpp:130-141 | round (q, s) measures its paths at the cursor where its policy's first draws end |
| Simulation.ProgressStep | user-program/src/bandit/simulator.hpp:94-96 | counting round (p, t)'s selection and adding its measurements into its own cell moves the count and metric invariants past that round |
| Simulation.SummedNone | user-program/src/bandit/simulator.hpp:89-99 | before any round, the metrics are the starting ones |
| Simulation.SummedStep | user-program/src/bandit/simulator.hpp:130-141 | recording one round's measurements into its own cell moves the metric invariant past that round |
| Simulation.SummedNextTime | user-program/src/bandit/simulator.hpp:93-98 | finishing all policies at one time starts the next time for the metrics |
| Simulation.ScheduleExit | user-program/src/bandit/simulator.hpp:89-122 | a run that stops early has run a prefix of the schedule |
| Simulation.Simulator.constructor | user-program/src/bandit/simulator.hpp:37-56 | `all_paths` is 0..K−1, and nothing has run yet |
| Simulation.Simulator.Create | user-program/src/bandit/simulator.hpp:42-45 | construction aborts exactly when M > K |
| Simulation.Simulator.BeginRound | user-program/src/bandit/simulator.hpp:103-123 | the selection comes first, then in a kernel build the preference and the fetch; in forever mode a negative status ends the run before any measurement |
| Simulation.Simulator.MeasureRound | user-program/src/bandit/simulator.hpp:130-141 | every path is measured once, in path order; each is recorded once, and selected ones are counted |
| Simulation.Simulator.RecordPath | user-program/src/bandit/simulator.hpp:131-140 | one path's log calls keep the recorded-so-far invariant |
| Simulation.Simulator.ExecSingleRound | user-program/src/bandit/simulator.hpp:101-158 | as written: select, measure every path, then update with the selected measurements in ascending path order |
| Simulation.Simulator.ExecSingleRoundIntended | user-program/src/bandit/simulator.hpp:101-158 | corrected: the j-th measurement passed to `updateState` is that of the j-th selected path |
| Simulation.Simulator.RunSimulation | user-program/src/bandit/simulator.hpp:89-99 | one `addSimulation` (which counts only outside forever mode), then the P·T rounds in order, each run by the as-written `execSingleRound`, or a prefix ending at a negative status. Outside forever mode each round's cell counts its selection and adds the K measurements read at that round's cursor, which every earlier round's policy and path draws have moved on. A full run leaves the cursor where the policy and path draws of all T·P rounds end |
| Simulation.Simulator.RunTime | user-program/src/bandit/simulator.hpp:94-97 | the inner loop runs the rounds of every policy at one time, keeping the count and metric invariants; unless the run ends, the cursor moves on to where the next time starts |
| Simulation.Simulator.RunRound | user-program/src/bandit/simulator.hpp:94-96 | round (p, t): the policy's draws before measuring, the as-written `execSingleRound`, then the policy's draws after it; it ends the run exactly at a negative status in a forever-mode kernel build; otherwise the cursor stands where round (p + 1, t) starts, and outside forever mode the count and metric invariants move past the round |
| RoundwiseLogs.AddCell | user-program/src/bandit/roundwiselog.hpp:53-58 | the value is added to cell [p][t] and to no other cell |
| RoundwiseLogs.AddCellCommutes | user-program/src/bandit/roundwiselog.hpp:53-58 | two records commute |
| RoundwiseLogs.AddMetric | user-program/src/bandit/roundwiselog.hpp:167-172 | m is added componentwise to cell [p][t][i] only |
| RoundwiseLogs.AddCount | user-program/src/bandit/roundwiselog.hpp:174-179 | cell [p][t][i] grows by one, and no other |
| RoundwiseLogs.RoundwiseLog.constructor | user-program/src/bandit/roundwiselog.hpp:34-43 | three P×T zero tables, no simulation yet and a zero oracle reward |
| RoundwiseLogs.RoundwiseLog.AddSimulation | user-program/src/bandit/roundwiselog.hpp:46-49 | one more simulation, tables untouched |
| RoundwiseLogs.RoundwiseLog.Record | user-program/src/bandit/roundwiselog.hpp:53-58 | each value goes into cell [p][t] of its own table |
| RoundwiseLogs.RoundwiseFullLog.constructor | user-program/src/bandit/roundwiselog.hpp:145-155 | outside forever mode: P×T×K zero metrics, zero counts and no simulation |
| RoundwiseLogs.RoundwiseFullLog.AddSimulation | user-program/src/bandit/roundwiselog.hpp:158-163 | one more simulation outside forever mode, no change in it |
| RoundwiseLogs.RoundwiseFullLog.RecordMeasurements | user-program/src/bandit/roundwiselog.hpp:167-172 | outside forever mode m is added to cell [p][t][i]; in forever mode nothing changes |
| RoundwiseLogs.RoundwiseFullLog.RecordSelectedPaths | user-program/src/bandit/roundwiselog.hpp:174-179 | outside forever mode cell [p][t][i] counts one more; in forever mode nothing changes |
| Paths.Type | user-program/src/path/path_fixvalue.hpp:42-45 | a fixed path reports FIXVALUE and a Bernoulli path BERNOULLI |
| Paths.Measurement | user-program/src/path/path_bernoulli.hpp:23-35 | a fixed path returns its mean without drawing; a Bernoulli path draws r, b, l in order, each component 0 or 1, and 1 exactly when the draw is below its mean |
| Paths.FixValueRepeats | user-program/src/path/path_fixvalue.hpp:27-30 | repeated measurements of a fixed path agree with each other and with the mean |
| Paths.DegenerateBernoulli | user-program/src/path/path_bernoulli.hpp:23-35 | a Bernoulli path with 0/1 means measures them exactly |
| Paths.MeasureAll | user-program/src/bandit/simulator.hpp:130-131 | one measurement per path; fixed paths give their means |
| KernelUtil.RttShare | user-program/src/bandit/kernel_util.hpp:129-133 | the relative rtt lies in (0, 1], and is 1 exactly when the raw rtt reaches max_rtt |
| KernelUtil.LossRate | user-program/src/bandit/kernel_util.hpp:135-142 | 0 when nothing was delivered, otherwise the ratio lost/delivered |
| KernelUtil.LiveMeaning | user-program/src/bandit/kernel_util.hpp:123-127 | the kept entries are exactly the non-zero raw rtts, ascending |
| KernelUtil.RelativeShape | user-program/src/bandit/kernel_util.hpp:123-144 | the three vectors always have equal length; relative rtts are in (0, 1]; with nothing delivered every loss is 0 |
| KernelUtil.PreferredIds | user-program/src/bandit/kernel_util.hpp:208-211 | one 32-bit id per selected path, in order |
| KernelUtil.PreferredIdsDecode | user-program/src/bandit/kernel_util.hpp:208-211 | without overflow each id is (K+1)·i, and dividing by K+1 gives i back |
| KernelUtil.OlmsKernel.constructor | user-program/src/bandit/kernel_util.hpp:42-51 | MAX_NUM_PATHS zeros in each vector and a zero max_rtt |
| KernelUtil.OlmsKernel.SetNumPaths | user-program/src/bandit/kernel_util.hpp:53 | only num_paths changes |
| KernelUtil.OlmsKernel.SetMaxRtt | user-program/src/bandit/kernel_util.hpp:54 | only max_rtt changes |
| KernelUtil.OlmsKernel.SetMaxBtlbw | user-program/src/bandit/kernel_util.hpp:55 | only max_btlbw changes |
| KernelUtil.OlmsKernel.Normalise | user-program/src/bandit/kernel_util.hpp:123-144 | the loop builds exactly the normalised rtt, bandwidth and loss of the live entries |
| KernelUtil.OlmsKernel.FetchMeasurements | user-program/src/bandit/kernel_util.hpp:70-203 | −2 with no request when there are no paths; a failed request's code is passed on; requests repeat while fewer than num_paths entries are live; the vectors are replaced only on success |
| KernelUtil.OlmsKernel.SetPreferredPaths | user-program/src/bandit/kernel_util.hpp:205-224 | the ids sent are the mapped selection; the status is the ioctl error or the count sent |
| OlmsKernelModule.TempUnavailable | kernel-module/mptcp_olms.c:73-130 | in-flight ≥ cwnd, or a loss state without Reno, makes a subflow unavailable; on an available one the unsent bytes fit the free congestion window, and with the window test the write sequence is before the window's end |
| OlmsKernelModule.AnyFreshMeaning | kernel-module/mptcp_olms.c:184-211 | the scan for an eligible unused subflow succeeds exactly when one exists among the first n |
| OlmsKernelModule.Scheduler.constructor | kernel-module/mptcp_olms.c:41 | last_srtt starts at 0xffffffff |
| OlmsKernelModule.Scheduler.GetSubflowFromSelectors | kernel-module/mptcp_olms.c:164-269 | the result is eligible and in the competing pool (unused ones when any exist), with the smallest srtt and the earliest winning ties; with no result none competes; `force` and `last_srtt` follow the source's rules |
| OlmsKernelModule.CountBitsMonotone | kernel-module/mptcp_olms.c:694-705 | the count of set bits grows with the range |
| OlmsKernelModule.FirstReachUnique | kernel-module/mptcp_olms.c:694-705 | the scan's stopping position is determined |
| OlmsKernelModule.FirstReachSetBit | kernel-module/mptcp_olms.c:694-705 | a scan that stops inside the range stops on the goal-th set bit |
| OlmsKernelModule.CountReaches | kernel-module/mptcp_olms.c:694-705 | any goal up to the total count is reached somewhere in the range |
| OlmsKernelModule.FirstReachExhausted | kernel-module/mptcp_olms.c:694-705 | the scan runs past the range exactly when fewer than goal bits are set |
| OlmsKernelModule.Ioc | kernel-module/olms-helper.h:37-52 | the encoded command decodes back to its direction, type, number and size |
| OlmsKernelModule.SanityCheck | kernel-module/mptcp_olms.c:759-778 | −ENOTTY exactly for a foreign type or a number above OLMS_IOC_MAXNR; otherwise 0, or 1 when a transfer's buffer fails `access_ok` |
| OlmsKernelModule.OlmsCommandsPass | kernel-module/mptcp_olms.c:759-778 | every `_IOWR` command of the module passes, failing only on a bad buffer |
| OlmsKernelModule.PathMap.constructor | kernel-module/mptcp_olms.c:30-45 | the ids, counts and bitmasks start at zero |
| OlmsKernelModule.PathMap.SetKernelPath | kernel-module/mptcp_olms.c:685-707 | kernel_path_id becomes the position of the (user_path_id+1)-th set status bit in 1..target_num_subflows, or target_num_subflows+1 when there are fewer |
| OlmsKernelModule.PathMap.UpdatePreference | kernel-module/mptcp_olms.c:671-682 | exactly the bits paths[i]+1 are set, and pref[i] records them; other state is unchanged |
| OlmsKernelModule.PathMap.SetPreferredPaths | kernel-module/mptcp_olms.c:736-747 | as written: it reports success for a valid buffer and leaves the preference untouched |
| OlmsKernelModule.PathMap.SetPreferredPathsIntended | kernel-module/mptcp_olms.c:736-747 | corrected: an accepted buffer makes the preference exactly paths[i]+1; a rejected one changes nothing |

## Left out

- **Floating point.** IEEE rounding is not modelled; all arithmetic is on `real`. A division by
  zero that would give an infinity or a NaN is modelled where its outcome is determined:
  - a zero `max_rtt` clamps to 1;
  - a zero `1 − k·rhs` in `getAlpha` gives no candidate.

  EXP3.M's divisions by `1 − γ` and `l` are excluded by a precondition.
- KLUCBPolicy.Div: maps a zero divisor to 0.0, where the source's `double` division gives an
  infinity or a NaN. So `Kl` and `Dkl` are total. For p in [1 − Δ, 1), the first q = p + Δ is at
  least 1, so the source's `1 − q` is at most 0 and `kl` is not finite there; the model's
  value at that point does not follow the source. The Newton step's `f/df` uses `Div` too.
- BanditUtil.AverageOver: requires n > 0; the source's `averageOver(0)` divides by zero.
- Strings.Split2: requires a non-empty delimiter. With an empty one, `find` returns the cursor
  and the source's loop never ends (see Findings); Strings.Split2Guarded handles that case.
- OlmsKernelModule.PathMap.SetKernelPath: requires `targetNumSubflows < LongBits`. The source's
  `test_bit`/`set_bit` past the end of the `unsigned long` bitmap is not modelled.
- OlmsKernelModule.PathMap.UpdatePreference: requires `Inc32(paths[i]) < LongBits` for every
  requested path, for the same reason.
- ConMPTSLatencyPolicy.ConMPTSLatency.UpdateStateAvg: the `uint` counters `selected_times` are
  unbounded `nat`s; their wrap-around after 2^32 selections is not modelled.
- KernelUtil.BwShare has no contract. It divides by max_btlbw, and with a zero max_btlbw the
  source gives an infinity or a NaN, which the model replaces by 0.
- **External calls.** Beta sampling and GLPK's simplex are inputs: sampled vectors, and the
  return code with column values. `log` and `exp` are parameters.
- **Random generator.** The process-wide Mersenne Twister is an input stream. Its state is not
  modelled, only the order in which draws are read.
- KLUCBPolicy.KLUCB.UpdateState: `Ni` is a C++ `int`; its overflow after 2^31 plays is not
  modelled.
- ConMPTSLatencyPolicy.ConMPTSLatency.UpdateStateDamped: states the floor of 1.0 and the decay
  of unselected paths, but not the exact value of a selected path's counters.
- ConMPTSBandwidthPolicy.BuildMatrixAsWritten: the read of `hatb[K]` past the end of the vector
  is undefined in C++. It is modelled as an arbitrary value `beyond`, which row K then
  overwrites.
- RandomPolicy.Random.SelectNextPaths: the source's draw loop is unbounded and never ends when
  l > K. The model bounds it by `maxDraws` and reports the exhausted case as None.
- RandomPolicy.Random.UpdateState: it has no effect, so it has no contract; its empty frame
  states that.
- The empty `selectNextPathsAvg`/`updateStateAvg` of the Bandwidth, Loss, MPTS, KL-UCB, EXP3.M
  and Random policies have no behaviour to model.
- Simulation.Simulator.RunSimulation: the number of uniforms each round's policy takes is the
  input `policyDraws`, not derived from the policy models. Those draws happen in the policies'
  Beta sampling and rounding (policy_conmpts_latency.hpp:53-54, policy_mpts.hpp:25,
  bandit_util.hpp:458 and others), and the Beta samples themselves are inputs.
- **Policy dispatch.** The `Policy` and `Path` interfaces and their virtual dispatch are not
  modelled. The simulator takes each round's selection as an input indexed by (p, t), and the
  policy's `updateState` appears as the list of measurements handed to it.
- The oracle block of the simulator constructor sits under `if (0)` and never runs.
- `execSingleRoundDamped` and `execSingleRoundAvg` are not modelled. `runSimulation` calls only
  `execSingleRound`; the damped and averaged updates themselves are modelled in ConMPTS-Latency.
- **Process control.** `sleep_for` has no effect in the model. `exit(0)` in forever mode becomes
  the `exited` outcome, which ends the run.
- **Not part of this model.**
  - The log writers, `main.cpp` and `init_util.hpp`: file output and wiring.
  - `client.hpp`: socket I/O.
  - `path_kernel.hpp` and `path_normal.hpp`: a reader of the kernel vectors, and empty bodies.
  - The print helpers, `readlines`, `itos`/`dtos`, `doubleSetToString` and the `randomKey…`/
    `randomElement…` helpers of `bandit_util.hpp`: formatting and sampling that the modelled
    code does not use.
- **Kernel I/O.** The device `open`, every `ioctl` and the buffer management of
  `kernel_util.hpp` are abstracted to their outcomes: the return code, the length and the raw
  arrays.
  - `getNumPaths` is the function `NumPaths`, which has no contract of its own.
  - `CONSTANT_BOUND` is taken as set, so `max_rtt` is never raised from the data.
- LPSolving.Zeros: `Matrix(r, c)` is assumed to start zero-filled, because its implementation
  is not shown.
- **Kernel module.** The module is modelled on records of the socket fields it reads, with
  `access_ok` as a boolean input. Not modelled:
  - the spinlocks and concurrency;
  - the char device, read/write and `copy_to_user` paths;
  - module registration and `check_olms_target`;
  - the restart logic of `olms_get_available_subflow` and the receive-buffer optimisation;
  - `olms_read`, which uses an undeclared `ret`;
  - the body of `mptcp_is_def_unavailable`, whose outcome is a field of the subflow record;
    `mptcp_olms_dont_reinject_skb` is computed by `Unused` from the skb's path mask.

## Findings

| source | as written | input that shows it | evidently intended | confidence | as-written member | corrected member |
|---|---|---|---|---|---|---|
| user-program/src/policy/policy_conmpts_bandwidth.hpp:100-109 | the bandwidth loop writes `hatb[i]` with i = 1..K into row K, reading `hatb[K]` past the end; the next loop then overwrites row K with ones and leaves the equality row K+1 all zero | any M ≠ 0: row K+1 is fixed at M but is all zero, so the LP has no feasible point; what the policy then selects depends on GLPK's return code | row K holds (0, hatb[0..K−1]) bounded by Cb, and row K+1 holds (0, 1, ..., 1) fixed at M | not executed | ConMPTSBandwidthPolicy.ConMPTSBandwidth.SolveConTSLP | ConMPTSBandwidthPolicy.ConMPTSBandwidth.SolveConTSLPIntended |
| user-program/src/bandit/simulator.hpp:130-143 | measurements are collected in ascending path order and handed to `updateState` beside `is` | `is = [1, 0]` with paths measuring a and b: `updateState` receives [a, b], crediting path 1 with a | the j-th measurement belongs to the j-th selected path | not executed | Simulation.UpdateMisaligned | Simulation.Simulator.ExecSingleRoundIntended |
| user-program/src/policy/policy_exp3m.hpp:56-75 | when S0 is empty alpha_t becomes −1, and `wi[k] < alpha_t` never holds for positive weights | the reset state (all weights 1) with 1 ≤ l < K and 0 ≤ γ < 1: S0 is empty, so no weight ever changes | with S0 empty every selected path's weight is updated | not executed | Exp3MPolicy.AsWrittenUnclippedFrozen | Exp3MPolicy.Exp3M.UpdateStateIntended |
| user-program/src/bandit/bandit_util.hpp:314-317 | `split2` moves its cursor on by the delimiter's length after each `find` | an empty delimiter: `find("", current)` returns `current`, so the cursor never moves and the loop never ends | an empty delimiter leaves the input as one piece | not executed; the intended result for an empty delimiter is inferred | Strings.Split2StallsOnEmpty | Strings.Split2Guarded |
| kernel-module/mptcp_olms.c:741-746 | `olms_set_preferred_paths` returns the `access_ok` verdict before calling `olms_update_preference` | any request with a valid buffer: it returns 0 and the preference bits are unchanged | an accepted buffer updates the preference | not executed | OlmsKernelModule.PathMap.SetPreferredPaths | OlmsKernelModule.PathMap.SetPreferredPathsIntended |
