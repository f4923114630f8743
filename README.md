# Dihedral fitting bookkeeping of FFLiP

This project models the discrete core of the torsion-parameter fit in `fflip/ljpme/dihedralfit.py`. The fit adjusts cosine-series force constants `k` for a set of dihedral types. The aim is for the molecular-mechanics (MM) energy to reproduce a quantum-mechanical (QM) energy scan.

The model covers these parts:

- **Dihedral types.** A type is named by the canonical orientation of its four atom types. The canonical orientation is the smaller of the header and its reverse, in Python's list order.
- **Ingestion (`DihedralFitter.__init__`).** Series files are grouped by type. The first file of a type fixes its multiplicities, phase restrictions and restraint forces, and later files must agree with them. The type names are sorted, each type's terms are counted, and the parameter dimension is the total of those counts. The weights are computed once, unless the criterion is "cross".
- **Splitting the parameter vector (`separate_k`).** The flat vector of force constants is cut into one contiguous segment per type, in sorted order, with Python's clamping slices.
- **Phase helpers.** `phase_penalty`, `k_correct_phase` and `phase_from_k`, with `zip` stopping at the shorter list.
- **The objective (`ObjfuncDihFit`).** `rmsd` adds every type's series energies to a copy of the baseline MM energy, resolves the weights and scores the weighted RMSD. `__call__` does the same and adds the summed phase penalties.
- **Simulated annealing.** This covers:
  - the default bounds and the start point;
  - the shape assertion;
  - the running `rmsd_old`, `rmsd_best` and `x_best`;
  - the per-step log of the best RMSD;
  - the in-place perturb-and-clamp of the parameter array;
  - the exceptions the method can raise.
- **`quick_rmsd` and `show_optimum`.** The rows `show_optimum` prints are returned as data.

Errors are values. The outcome datatype `Result` carries the Python exception that the code would raise: IndexError, ValueError, AssertionError, AttributeError, UnboundLocalError, or the exception for an unknown weighting criterion.

Randomness and floating-point kernels are parameters:

- `accept(step, rmsd, rmsdOld)` is the outcome of the Metropolis test at a step.
- `draws(step, i)` and `startDraw(i)` are the values `random.random()` and `np.random.uniform` drew.
- A `Kernels` record holds the cosine term, the Boltzmann factor and the weighted RMSD as uninterpreted function values.

Everything around those kernels is modelled exactly: which samples and terms are combined, the shifts to zero minimum, the clamps, the branches and the error paths, including numpy's broadcast errors, for real-valued energy arrays (see "Left out" for integer arrays).

Modules, one per file:

- `outcomes.dfy`: `Option`, `Result`, exceptions.
- `lexorder.dfy`: Python string and list ordering; the sort.
- `dihedraltype.dfy`: the canonical key.
- `numerics.dfy`: `mm_energy`, `generate_weights`, `rmsd_qm_mm`, numpy `+=`.
- `partition.dfy`: `separate_k`.
- `phase.dfy`: the phase helpers.
- `ingestion.dfy`: the grouping of `__init__` as functions.
- `objective.dfy`: the `ObjfuncDihFit` class.
- `annealing.dfy`: step bookkeeping and moves.
- `annealing_run.dfy`: the loop over the parameter array.
- `report.dfy`: `show_optimum`'s rows.
- `fitter.dfy`: the `DihedralFitter` class.

## Model

| member | source | states |
|---|---|---|
| LexOrder.SortNames | fflip/ljpme/dihedralfit.py:285 | `list.sort()` leaves the names in ascending Python string order and as a permutation of the input |
| LexOrder.Insert | fflip/ljpme/dihedralfit.py:285 | inserting a name into an ascending list keeps it ascending and adds exactly that name |
| LexOrder.SortedPermutationUnique | fflip/ljpme/dihedralfit.py:285 | two ascending permutations of the same names are equal, so the sorted order does not depend on the sorting algorithm |
| LexOrder.StrLeTotal | fflip/ljpme/dihedralfit.py:285 | any two names are comparable under Python's `<=` on strings |
| LexOrder.StrLeTransitive | fflip/ljpme/dihedralfit.py:285 | Python's `<=` on strings is transitive |
| LexOrder.StrLeAntisymmetric | fflip/ljpme/dihedralfit.py:285 | two names each `<=` the other are equal |
| LexOrder.TokensLtTrichotomous | fflip/ljpme/dihedralfit.py:55 | two atom-type lists are ordered one way or the other or are equal, as `min` on lists needs |
| LexOrder.TokensLtAsymmetric | fflip/ljpme/dihedralfit.py:55 | list order is asymmetric |
| LexOrder.PermutationKeepsDistinct | fflip/ljpme/dihedralfit.py:283-286 | sorting names that occur once each leaves every name occurring once |
| LexOrder.SortedDistinctStrict | fflip/ljpme/dihedralfit.py:285-286 | sorted names with no repeats are strictly ascending |
| DihedralType.ReverseInvolutive | fflip/ljpme/dihedralfit.py:55 | reversing twice gives the header back |
| DihedralType.Canonical | fflip/ljpme/dihedralfit.py:55 | `min(atoms, atoms[::-1])` is the header or its reverse |
| DihedralType.CanonicalIsLeast | fflip/ljpme/dihedralfit.py:55 | the key is at most both orientations in Python's list order |
| DihedralType.CanonicalReverseInvariant | fflip/ljpme/dihedralfit.py:55 | a header and its reverse give the same key |
| DihedralType.CanonicalIdempotent | fflip/ljpme/dihedralfit.py:55 | canonicalising a key again changes nothing |
| DihedralType.DihedralName | fflip/ljpme/dihedralfit.py:269-272 | the type name exists exactly when the header has at least four tokens; otherwise IndexError |
| DihedralType.DihedralNameReverseInvariant | fflip/ljpme/dihedralfit.py:269-272 | files whose headers are each other's reverse are filed under the same type |
| Numerics.Min | fflip/ljpme/dihedralfit.py:14 | `np.min` is below every sample and is one of them |
| Numerics.ShiftToZero | fflip/ljpme/dihedralfit.py:83-86 | `s - s.min()` fails exactly on an empty series; otherwise it is nonnegative with a zero |
| Numerics.MinOfShifted | fflip/ljpme/dihedralfit.py:14 | the minimum of a series moved by c is its minimum plus c |
| Numerics.ShiftToZeroForgetsConstant | fflip/ljpme/dihedralfit.py:83-86 | shifting to zero minimum forgets any constant added beforehand |
| Numerics.MmEnergy | fflip/ljpme/dihedralfit.py:60-64 | `mm_energy` gives one energy per sampled angle |
| Numerics.TermSumZip | fflip/ljpme/dihedralfit.py:62 | only the first `min(len(ks), len(ms))` terms contribute, as `zip` stops at the shorter list |
| Numerics.MmEnergyOfZeroConstants | fflip/ljpme/dihedralfit.py:60-64 | all-zero force constants give an all-zero energy series |
| Numerics.ClampAbove | fflip/ljpme/dihedralfit.py:22-23 | `np.minimum(s, cutoff)` keeps the length, never raises a sample, and bounds every sample by the cutoff |
| Numerics.GenerateWeights | fflip/ljpme/dihedralfit.py:9-47 | `generate_weights` succeeds exactly when none of its checks fails (empty series, unknown criterion, cross shape, nonpositive cutoff, extra-weight shape); then there is one weight per sample |
| Numerics.UniformWeightsAreOnes | fflip/ljpme/dihedralfit.py:36-37 | the "uniform" criterion without extra weights gives weight 1 to every sample |
| Numerics.WeightsShiftInvariant | fflip/ljpme/dihedralfit.py:13-16 | adding constants to either energy series leaves the weights unchanged |
| Numerics.CrossWeightsSymmetric | fflip/ljpme/dihedralfit.py:17-28 | the "cross" criterion treats its two series symmetrically |
| Numerics.RmsdQmMm | fflip/ljpme/dihedralfit.py:82-97 | `rmsd_qm_mm` succeeds exactly for nonempty series with a known offset method whose lengths broadcast with each other and with the weights; once both series are nonempty, an unknown method gives the unbound `offset` exactly when the series broadcast, and every other failure is numpy's broadcast ValueError |
| Numerics.RmsdShiftInvariant | fflip/ljpme/dihedralfit.py:82-86 | the RMSD compares the curves only up to a constant added to either of them |
| Numerics.RmsdComparesShiftedCurves | fflip/ljpme/dihedralfit.py:82-96 | a curve and a shifted copy of it are scored as the same zero-minimum series when the weights broadcast with the curve, and raise the broadcast ValueError otherwise |
| Partition.PySlice | fflip/ljpme/dihedralfit.py:77 | `force_constants[start:end]` is the ordinary slice within bounds and is clamped to the length beyond them |
| Partition.Clamp | fflip/ljpme/dihedralfit.py:77 | the stop of a clamped slice is the smaller of the requested stop and the length |
| Partition.SeparateK | fflip/ljpme/dihedralfit.py:67-79 | the loop with `start`, `end` and `previous_count` builds the segment dictionary of the sorted names |
| Partition.SegmentsKeys | fflip/ljpme/dihedralfit.py:67-79 | the dictionary has exactly one key per name |
| Partition.SegmentAt | fflip/ljpme/dihedralfit.py:71-77 | for distinct names, name i's segment starts at the total count of the earlier names and spans its own count, clamped to the vector |
| Partition.OffsetMonotone | fflip/ljpme/dihedralfit.py:71-76 | segment offsets only grow along the name list |
| Partition.SegmentLengths | fflip/ljpme/dihedralfit.py:77 | when the vector is long enough every segment has exactly its type's count |
| Partition.ConcatIgnoresOtherKeys | fflip/ljpme/dihedralfit.py:77 | a key outside the name list does not change the concatenated segments |
| Partition.ConcatSegments | fflip/ljpme/dihedralfit.py:67-79 | concatenating the segments in sorted order gives the leading `min(len(x), total)` constants |
| Partition.SeparateKRoundTrip | fflip/ljpme/dihedralfit.py:67-79 | a vector of exactly the total count is reassembled by concatenating its segments |
| Partition.OffsetFrame | fflip/ljpme/dihedralfit.py:287-288 | the total count depends only on the counts of the listed names |
| Partition.OffsetRemove | fflip/ljpme/dihedralfit.py:284 | removing a name from the list removes its count from the total |
| Partition.OffsetPermutation | fflip/ljpme/dihedralfit.py:284-288 | the total count does not depend on the order of the names |
| Phase.PhasePenalty | fflip/ljpme/dihedralfit.py:100-115 | the loop returns the sum of `f*k*k` over the inspected terms with `p != 0` and `p*k > 0` |
| Phase.PenaltyZeroWhenNothingCharged | fflip/ljpme/dihedralfit.py:109-115 | with no charged term the penalty is 0 |
| Phase.PenaltyZeroWhenUnrestricted | fflip/ljpme/dihedralfit.py:111 | if every restriction is 0 the penalty is 0 |
| Phase.PenaltySign | fflip/ljpme/dihedralfit.py:100-115 | with nonnegative forces the penalty is nonnegative; with positive forces it is positive exactly when some term is charged |
| Phase.ChargedIffWrongPhase | fflip/ljpme/dihedralfit.py:103-114 | for restrictions -1 and 1 and a nonzero constant, a term is charged exactly when its phase is not the declared one |
| Phase.Phases | fflip/ljpme/dihedralfit.py:136-151 | one phase per constant, each 0 or 180, and 180 exactly for negative constants |
| Phase.PhaseFromK | fflip/ljpme/dihedralfit.py:136-151 | the append loop of `phase_from_k` produces those phases |
| Phase.Corrected | fflip/ljpme/dihedralfit.py:118-133 | length `min(len(p), len(k))`; magnitudes are kept; nonnegative exactly when `p*k <= 0`; an unrestricted term gives `abs(k)` |
| Phase.KCorrectPhase | fflip/ljpme/dihedralfit.py:118-133 | the append loop of `k_correct_phase` produces that correction |
| Phase.CorrectedNegativeIffCharged | fflip/ljpme/dihedralfit.py:111-132 | the correction is negative exactly on the terms `phase_penalty` charges |
| Phase.CorrectOneByRestriction | fflip/ljpme/dihedralfit.py:129-132 | per term the correction keeps k when p < 0, negates it when p > 0, and takes abs(k) when p = 0 |
| Phase.KCorrectPhaseMissesPhase | fflip/ljpme/dihedralfit.py:118-133 | counterexamples: p = -1, k = -1 keeps phase 180 and is still penalised; p = 1, k = -1 is turned positive and becomes penalised |
| Phase.CorrectedIntended | fflip/ljpme/dihedralfit.py:118-126 | the documented correction keeps magnitudes and has the zipped length |
| Phase.CorrectedIntendedRespectsPhase | fflip/ljpme/dihedralfit.py:118-126 | the documented correction gives every restricted term its declared phase and leaves zero penalty |
| Ingestion.Zip4 | fflip/ljpme/dihedralfit.py:264-266 | the zip of the four per-file lists stops at the shortest; element i pairs the i-th entries |
| Ingestion.Counts | fflip/ljpme/dihedralfit.py:287-288 | there is one term count per type with multiplicities |
| Ingestion.Add | fflip/ljpme/dihedralfit.py:269-284 | a successful turn adds the file's type to the keys and leaves its lists stored under it |
| Ingestion.Group | fflip/ljpme/dihedralfit.py:264-284 | after a loop that does not raise, the four tables share their keys |
| Ingestion.AddKeepsWellFormed | fflip/ljpme/dihedralfit.py:273-283 | a turn keeps the tables keyed by exactly the listed names, each listed once |
| Ingestion.GroupWellFormed | fflip/ljpme/dihedralfit.py:264-284 | after the loop the tables are keyed by exactly the listed names, each listed once |
| Ingestion.AddKeepsDimension | fflip/ljpme/dihedralfit.py:278-284 | a new type adds its term count to the dimension; a known type changes nothing |
| Ingestion.GroupDimension | fflip/ljpme/dihedralfit.py:284 | the dimension is the total term count of the listed types |
| Ingestion.GroupFailurePersists | fflip/ljpme/dihedralfit.py:264-277 | the loop raises the exception of the first failing file |
| Ingestion.GroupPrefixSucceeds | fflip/ljpme/dihedralfit.py:264-284 | a loop that succeeds also succeeds on every prefix of the files |
| Ingestion.GroupKeys | fflip/ljpme/dihedralfit.py:273-283 | a type is in the tables exactly when some file is filed under it |
| Ingestion.GroupNames | fflip/ljpme/dihedralfit.py:279-283 | the name list holds exactly the types that occur, each once |
| Ingestion.GroupSeries | fflip/ljpme/dihedralfit.py:273-279 | each type holds one series per file of that type, in input order |
| Ingestion.GroupSeriesNonempty | fflip/ljpme/dihedralfit.py:279 | every type holds at least one series |
| Ingestion.AddKeepsStored | fflip/ljpme/dihedralfit.py:275-282 | a later turn never changes the lists stored for a type |
| Ingestion.GroupSpecs | fflip/ljpme/dihedralfit.py:275-282 | after a successful loop every file's three lists are the ones stored for its type |
| Ingestion.GroupSucceedsIffConsistent | fflip/ljpme/dihedralfit.py:269-277 | the loop raises exactly when some header is shorter than four tokens, or two files of one type declare different lists |
| Objective.AddSeriesSums | fflip/ljpme/dihedralfit.py:192-193 | adding one type's series with numpy's in-place `+=` succeeds exactly when every series has one energy per sample or a single one; it then adds to each sample the sum of the series' energies at that sample (the single one broadcast), and otherwise raises the broadcast ValueError |
| Objective.AddTypesSums | fflip/ljpme/dihedralfit.py:191-193 | the loop over all sorted types succeeds exactly when every series of every type fits the baseline; each sample then gains the energies of all series of all types at that sample; otherwise the broadcast ValueError |
| Objective.PenaltyLoopSplits | fflip/ljpme/dihedralfit.py:207-221 | interleaving the penalties with the energies changes neither: the loop of `__call__` gives the energies of `rmsd`'s loop and the summed penalties, and fails exactly when that loop fails |
| Objective.PenaltyTotalNonnegative | fflip/ljpme/dihedralfit.py:212-215 | with nonnegative restraint forces the summed penalty is nonnegative |
| Objective.ObjfuncDihFit.Init | fflip/ljpme/dihedralfit.py:155-185 | the constructor stores the tables and settings and derives `mcount_dict` from the sorted names |
| Objective.ObjfuncDihFit.KDict | fflip/ljpme/dihedralfit.py:190 | every sorted name has a segment |
| Objective.ObjfuncDihFit.CallIsRmsdPlusPenalty | fflip/ljpme/dihedralfit.py:187-234 | `__call__(x)` is `rmsd(x)` plus the phase penalties of every type under its segment, and fails exactly when `rmsd(x)` fails |
| Objective.ObjfuncDihFit.CallAtLeastRmsd | fflip/ljpme/dihedralfit.py:207-234 | with nonnegative restraint forces the objective is never below the bare RMSD |
| Objective.ObjfuncDihFit.AccumulateSeries | fflip/ljpme/dihedralfit.py:192-193 | the inner loop of `rmsd` ends with the sum `AddSeries` specifies (Objective.AddSeriesSums: each sample plus every series' energy there, or the broadcast ValueError at the first series that does not fit) |
| Objective.ObjfuncDihFit.EnergyIsBaselinePlusSeries | fflip/ljpme/dihedralfit.py:189-193 | the MM energy of an evaluation exists exactly when every registered series fits the baseline; it has one sample per QM sample, each the baseline plus the energies of all series of all types under their segments of `x`; otherwise the broadcast ValueError |
| Objective.ObjfuncDihFit.Rmsd | fflip/ljpme/dihedralfit.py:187-205 | `rmsd(x)` returns the specified RMSD value; the object's fields are constants, so the baseline is never changed |
| Objective.ObjfuncDihFit.AccumulateWithPenalty | fflip/ljpme/dihedralfit.py:209-219 | the type loop of `__call__` accumulates the energies and penalties |
| Objective.ObjfuncDihFit.Call | fflip/ljpme/dihedralfit.py:207-234 | `__call__(x, grad)` returns the specified objective value whatever `grad` is, and changes nothing |
| Objective.NewObjfuncDihFit | fflip/ljpme/dihedralfit.py:155-185 | construction succeeds exactly when there is a first type with a first series and both energies have that series' length; no first type, or no first series, raises IndexError, and a length mismatch raises AssertionError; the new object holds the given tables |
| Annealing.Record | fflip/ljpme/dihedralfit.py:399-403 | a rejected step changes nothing; the best RMSD never rises, and it drops exactly on an accepted step with a strictly smaller RMSD, which also copies the parameters |
| Annealing.TrackBestBelowOld | fflip/ljpme/dihedralfit.py:384-403 | `rmsd_best <= rmsd_old` throughout |
| Annealing.TrackBestIsMinimum | fflip/ljpme/dihedralfit.py:384-403 | `rmsd_best` is the minimum of 100 and every accepted RMSD |
| Annealing.TrackBindsBest | fflip/ljpme/dihedralfit.py:399-403 | `x_best` is bound exactly when some accepted RMSD fell below 100 |
| Annealing.TrackKeepsBestParameters | fflip/ljpme/dihedralfit.py:399-403 | a bound `x_best` is the parameters of an accepted step whose RMSD is the best |
| Annealing.Log | fflip/ljpme/dihedralfit.py:404 | one log entry per step |
| Annealing.LogNonincreasing | fflip/ljpme/dihedralfit.py:404 | the logged best RMSD never rises, stays at most 100 and ends at the final best |
| Annealing.MovedInBox | fflip/ljpme/dihedralfit.py:405-409 | a moved parameter lies in its box when the bounds are in order; otherwise it is the upper bound |
| Annealing.MovedStepBounded | fflip/ljpme/dihedralfit.py:406-407 | from inside the box a move is at most a quarter of the box width |
| Annealing.Perturbed | fflip/ljpme/dihedralfit.py:405-409 | a sweep keeps the length of the parameter vector |
| Annealing.PerturbedInBox | fflip/ljpme/dihedralfit.py:405-409 | after a sweep every parameter lies in its box, whatever it was before |
| Annealing.PerturbInPlace | fflip/ljpme/dihedralfit.py:405-409 | the in-place loop over the array leaves exactly the swept vector |
| Annealing.Position | fflip/ljpme/dihedralfit.py:387-409 | the parameters are perturbed after every step, accepted or not, and keep their length |
| Annealing.PositionInBox | fflip/ljpme/dihedralfit.py:405-409 | every position after the first sweep lies in the box |
| Annealing.Largest | fflip/ljpme/dihedralfit.py:372 | `max(lower_bounds)` is at least every bound and is one of them |
| Annealing.Smallest | fflip/ljpme/dihedralfit.py:372 | `min(upper_bounds)` is at most every bound and is one of them |
| Annealing.RandomStart | fflip/ljpme/dihedralfit.py:371-373 | the random start has `dimension` entries |
| Annealing.RandomStartInBox | fflip/ljpme/dihedralfit.py:371-373 | when the largest lower bound is at most the smallest upper bound, every random start value lies within every coordinate's bounds |
| Annealing.UniformBetween | fflip/ljpme/dihedralfit.py:371-372 | `uniform(a, b)` lies between a and b when the draw is in [0, 1] |
| AnnealingRun.StartPoint | fflip/ljpme/dihedralfit.py:368-373 | a given start is used as is; a random start needs nonempty bound lists (else ValueError) and has `dimension` entries |
| AnnealingRun.Setup | fflip/ljpme/dihedralfit.py:362-375 | the setup yields bounds and start of one shape, raising AssertionError otherwise; a given start is kept |
| AnnealingRun.SetupDefaultBox | fflip/ljpme/dihedralfit.py:362-375 | default bounds are -3 and 3 in every coordinate; a given start must have `dimension` entries; a random start exists exactly for positive dimension and lies in [-3, 3] |
| AnnealingRun.DefaultBoundsExtremes | fflip/ljpme/dihedralfit.py:363-366 | the default bounds have largest lower bound -3 and smallest upper bound 3 |
| AnnealingRun.Evaluations | fflip/ljpme/dihedralfit.py:390 | a successful run of evaluations has one value per evaluated point |
| AnnealingRun.EvaluationsAt | fflip/ljpme/dihedralfit.py:390 | each recorded value is the objective at that step's point |
| AnnealingRun.EvaluationsFirstFailure | fflip/ljpme/dihedralfit.py:390 | a failing run reports the exception of its first failing evaluation |
| AnnealingRun.EvaluationsFailurePersists | fflip/ljpme/dihedralfit.py:390 | once an evaluation raises, the run raises that exception |
| AnnealingRun.Anneal | fflip/ljpme/dihedralfit.py:384-409 | the `while` loop over the parameter array yields the specified log and final trackers, or the first exception |
| AnnealingRun.RunFrom | fflip/ljpme/dihedralfit.py:384-411 | the loop followed by `self.optimum = x_best` gives the specified run outcome |
| AnnealingRun.RunKeepsEvaluatedBest | fflip/ljpme/dihedralfit.py:399-411 | the optimum is a point evaluated at some step; `rmsd_best` is the objective there and is below 100 |
| AnnealingRun.RunLog | fflip/ljpme/dihedralfit.py:404 | a finished run logs one entry per step (at least one), never rising, ending at `rmsd_best` |
| AnnealingRun.RunBestIsLeast | fflip/ljpme/dihedralfit.py:399-403 | `rmsd_best` is at most the objective at every accepted step |
| AnnealingRun.RunUnbound | fflip/ljpme/dihedralfit.py:387-410 | with no steps, or with no accepted RMSD below 100, the run raises UnboundLocalError at `self.optimum = x_best` |
| AnnealingRun.RunOptimumInBox | fflip/ljpme/dihedralfit.py:405-410 | in a box whose bounds are in order, a start inside it keeps the optimum inside it |
| OptimumReport.Magnitudes | fflip/ljpme/dihedralfit.py:426 | the printed magnitudes are nonnegative and are each constant or its negation |
| OptimumReport.Rows | fflip/ljpme/dihedralfit.py:423-430 | one row per sorted type, named by it, with phases exactly when requested |
| OptimumReport.FlattenRows | fflip/ljpme/dihedralfit.py:428-430 | without phases the printed constants are each type's segment, in sorted order |
| OptimumReport.ReportRoundTrip | fflip/ljpme/dihedralfit.py:420-430 | without phases, for distinct names and a vector of the total count, the printed constants are the whole vector in order |
| OptimumReport.ReportKeepsSigns | fflip/ljpme/dihedralfit.py:423-426 | with phases, each magnitude and its phase give back the signed constant of the segment |
| Fitter.Ingest | fflip/ljpme/dihedralfit.py:264-284 | the ingestion loop produces the specified grouping or its first exception |
| Fitter.IngestOne | fflip/ljpme/dihedralfit.py:269-284 | one turn of the loop: file a new type, or append the series and check the three lists |
| Fitter.CountTerms | fflip/ljpme/dihedralfit.py:287-288 | `mcount_dict` maps exactly the sorted names to their term counts |
| Fitter.SortedNamesKeepTables | fflip/ljpme/dihedralfit.py:285-288 | after sorting, every name has its tables and a series, no name repeats, and the dimension is the total term count in sorted order |
| Fitter.DihedralFitter.Assemble | fflip/ljpme/dihedralfit.py:255-302 | the constructor stores the attributes `__init__` computes; `optimum` is None and no objective or best RMSD exists yet |
| Fitter.NewDihedralFitter | fflip/ljpme/dihedralfit.py:240-302 | `__init__` raises the ingestion exception, or the weighting exception outside "cross" mode, and otherwise holds the grouped tables under sorted names, the weights computed once (or the kept extra weights in "cross" mode) and no optimum |
| Fitter.DihedralFitter.SimulatedAnnealing | fflip/ljpme/dihedralfit.py:342-411 | `simulated_annealing` raises the setup exception, AttributeError outside "cross" mode, or the objective's construction exception (IndexError without any type, AssertionError when the energies do not fit the first series); otherwise it builds a fresh objective from the tables and either stores the run's optimum and best RMSD or raises the run's exception with the optimum unchanged |
| Fitter.DihedralFitter.AnnealFrom | fflip/ljpme/dihedralfit.py:376-411 | after the shape assertion: build the objective (IndexError without any type, AssertionError when the energies do not fit), run the loop, store the optimum and best RMSD |
| Fitter.DihedralFitter.QuickRmsd | fflip/ljpme/dihedralfit.py:413-414 | before any fit `obj_func` is unset (AttributeError); afterwards the result is the objective's RMSD without penalty |
| Fitter.DihedralFitter.ShowOptimum | fflip/ljpme/dihedralfit.py:416-430 | without an optimum the assertion fails; otherwise the rows are the report of the optimum's segments in sorted order |

## Left out

- `nlopt_fit` (lines 304-340) drives the external `nlopt` optimiser, whose behaviour cannot be seen.
- `read_dihedral_series` reads files with `open` and `np.loadtxt`. Ingestion is fed each file's whitespace-split header and its sampled angles as data. Series are one-dimensional lists of angles.
- Logging is left out: the `rmsd.log` handler, deleting the old log with `os.system`, and the `print` calls. The logged best RMSDs are returned by `SimulatedAnnealing` as a list instead of being written. `show_optimum` returns its rows instead of printing them.
- Cosine, exponential and square root are uninterpreted `Kernels` functions. So are the weighted RMSD formula and the real arithmetic inside them. Floating-point rounding is not modelled.
- The temperature schedule and the Metropolis probability (lines 389-398) are not modelled. The accept decision at each step is the parameter `accept`, and the random draws are parameters.
- Annealing.Log: does not model `round(rmsd_best, 4)` in the log line; the log holds the unrounded best RMSD.
- OptimumReport.Magnitudes: does not model `round(abs(k), 3)` in `show_optimum`; the magnitudes are unrounded.
- The comparison at line 183 has no `assert`, so it checks nothing and is not modelled. The loop at lines 180-183 was evidently meant to compare every series' shape with the first one's, but without `assert` it does nothing; construction of the objective therefore checks only the first series of the first type, as the code does.
- Python dictionary lookups with a missing key cannot happen on the paths modelled. Every sorted name has its tables, which `Valid` states. `SeparateK` therefore requires every name to have a count, as all its callers guarantee.
- The `dtype` of an integer `start` array is not modelled. `np.array(start)` of integers would truncate the moved values to integers; starts are real-valued here.
- Integer-typed `qme` and `mme` arrays are not modelled; energies are real-valued here. With an integer `mme`, numpy's in-place `mme += mm_energy(...)` at lines 193 and 217 would raise a casting error that the model does not have.
- `grad` in `__call__` is accepted and never read.
- `__init__` sets `extra_weights` only for the "cross" criterion, yet `simulated_annealing` reads it. The model follows the code: outside "cross" mode `simulated_annealing` raises AttributeError after the setup.
- `generate_weights` is always called with an explicit second series in this file, so a missing second series is not modelled.

## Findings

| source | as written | input that shows it | evidently intended | confidence | as-written member | corrected member |
|---|---|---|---|---|---|---|
| fflip/ljpme/dihedralfit.py:118-133 | `k_correct_phase` makes the constant nonnegative exactly when `p*k <= 0`. For p = -1 it keeps k, and for p = 1 it negates k. | `p = [-1], k = [-1.0]` stays `[-1.0]` (phase 180, still penalised). `p = [1], k = [-1.0]` becomes `[1.0]` (phase 0, newly penalised). | The documented correction: -1 gives `abs(k)` (phase 0) and 1 gives `-abs(k)` (phase 180), leaving nothing for `phase_penalty` to charge. | medium, not executed | Phase.KCorrectPhaseMissesPhase | Phase.CorrectedIntendedRespectsPhase |
