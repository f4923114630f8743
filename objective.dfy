/**
 * `ObjfuncDihFit`: the objective the search strategies minimise. Each
 * evaluation copies the baseline MM energy, adds the cosine-series energy
 * of every registered series of every dihedral type under that type's
 * segment of the parameter vector, resolves the weights (stored, or
 * recomputed from the current MM curve in "cross" mode) and scores the
 * weighted RMSD against the QM energy. `__call__` adds the phase penalties
 * of all types; `rmsd` returns the bare RMSD.
 */
module Objective {
  import opened Outcomes
  import opened Numerics
  import opened Partition
  import opened Phase

  /** `mme += mm_energy(series, ks, ms)` for each series of one type, in order. */
  function AddSeries(kern: Kernels, acc: seq<real>, group: seq<seq<real>>, ks: seq<real>, ms: seq<int>): Result<seq<real>>
    decreases |group|
  {
    if |group| == 0 then Success(acc)
    else
      match AddInPlace(acc, MmEnergy(kern, group[0], ks, ms))
      case Failure(err) => Failure(err)
      case Success(next) => AddSeries(kern, next, group[1..], ks, ms)
  }

  /** `rmsd`'s loop: the energies of every type in `names` added to `acc`. */
  function AddTypes(kern: Kernels, acc: seq<real>, names: seq<string>,
                    dihedralDict: map<string, seq<seq<real>>>, kDict: map<string, seq<real>>,
                    mDict: map<string, seq<int>>): Result<seq<real>>
    requires forall n :: n in names ==> (n in dihedralDict && n in kDict && n in mDict)
    decreases |names|
  {
    if |names| == 0 then Success(acc)
    else
      var dn := names[0];
      match AddSeries(kern, acc, dihedralDict[dn], kDict[dn], mDict[dn])
      case Failure(err) => Failure(err)
      case Success(next) => AddTypes(kern, next, names[1..], dihedralDict, kDict, mDict)
  }

  /** A series adds into `len` samples when numpy's `+=` accepts its energies: one per sample, or a single one. */
  predicate Fits(series: seq<real>, len: nat)
  {
    |series| == len || |series| == 1
  }

  /** What one series contributes to sample `n` of `len` samples: its own sample `n`, or its single energy broadcast. */
  function SampleEnergy(kern: Kernels, series: seq<real>, ks: seq<real>, ms: seq<int>, len: nat, n: nat): real
    requires n < len
  {
    var e := MmEnergy(kern, series, ks, ms);
    if |e| == len then e[n] else if |e| == 1 then e[0] else 0.0
  }

  /** The sum over the series of one type of their contributions to sample `n`. */
  function GroupEnergyAt(kern: Kernels, group: seq<seq<real>>, ks: seq<real>, ms: seq<int>, len: nat, n: nat): real
    requires n < len
    decreases |group|
  {
    if |group| == 0 then 0.0
    else SampleEnergy(kern, group[0], ks, ms, len, n) + GroupEnergyAt(kern, group[1..], ks, ms, len, n)
  }

  /**
   * Adding one type's series succeeds exactly when every series fits the
   * accumulator; it then adds to each sample the sum of the series' energies
   * at that sample, and otherwise fails with numpy's broadcast error.
   */
  lemma {:induction false} AddSeriesSums(kern: Kernels, acc: seq<real>, group: seq<seq<real>>,
                                         ks: seq<real>, ms: seq<int>)
    ensures AddSeries(kern, acc, group, ks, ms).Success? <==>
              forall j :: 0 <= j < |group| ==> Fits(group[j], |acc|)
    ensures AddSeries(kern, acc, group, ks, ms).Failure? ==>
              AddSeries(kern, acc, group, ks, ms).error == ValueError(BroadcastMessage)
    ensures AddSeries(kern, acc, group, ks, ms).Success? ==>
              |AddSeries(kern, acc, group, ks, ms).value| == |acc| &&
              forall n :: 0 <= n < |acc| ==>
                AddSeries(kern, acc, group, ks, ms).value[n] == acc[n] + GroupEnergyAt(kern, group, ks, ms, |acc|, n)
    decreases |group|
  {
    if |group| > 0 {
      var e := MmEnergy(kern, group[0], ks, ms);
      var rest := group[1..];
      assert forall j :: 0 <= j < |rest| ==> rest[j] == group[j + 1];
      match AddInPlace(acc, e)
      case Failure(_) =>
        assert !Fits(group[0], |acc|);
      case Success(next) =>
        AddSeriesSums(kern, next, rest, ks, ms);
        assert Fits(group[0], |acc|);
        forall j | 0 <= j < |group| && j > 0
          ensures Fits(group[j], |acc|) <==> Fits(rest[j - 1], |next|)
        {
        }
        forall n | 0 <= n < |acc|
          ensures next[n] == acc[n] + SampleEnergy(kern, group[0], ks, ms, |acc|, n)
        {
        }
    }
  }

  /** Every series of every listed type fits `len` samples. */
  ghost predicate AllFit(names: seq<string>, dihedralDict: map<string, seq<seq<real>>>, len: nat)
    requires forall n :: n in names ==> n in dihedralDict
  {
    forall i, j :: 0 <= i < |names| && 0 <= j < |dihedralDict[names[i]]| ==> Fits(dihedralDict[names[i]][j], len)
  }

  /** The sum over the listed types of their series' contributions to sample `n`. */
  function TypesEnergyAt(kern: Kernels, names: seq<string>, dihedralDict: map<string, seq<seq<real>>>,
                         kDict: map<string, seq<real>>, mDict: map<string, seq<int>>, len: nat, n: nat): real
    requires forall n :: n in names ==> (n in dihedralDict && n in kDict && n in mDict)
    requires n < len
    decreases |names|
  {
    if |names| == 0 then 0.0
    else
      var dn := names[0];
      GroupEnergyAt(kern, dihedralDict[dn], kDict[dn], mDict[dn], len, n)
        + TypesEnergyAt(kern, names[1..], dihedralDict, kDict, mDict, len, n)
  }

  /**
   * `rmsd`'s loop succeeds exactly when every series of every type fits the
   * baseline; it then adds to each sample the energies of all series of all
   * types at that sample, and otherwise fails with numpy's broadcast error.
   */
  lemma {:induction false} AddTypesSums(kern: Kernels, acc: seq<real>, names: seq<string>,
                                        dihedralDict: map<string, seq<seq<real>>>, kDict: map<string, seq<real>>,
                                        mDict: map<string, seq<int>>)
    requires forall n :: n in names ==> (n in dihedralDict && n in kDict && n in mDict)
    ensures AddTypes(kern, acc, names, dihedralDict, kDict, mDict).Success? <==>
              AllFit(names, dihedralDict, |acc|)
    ensures AddTypes(kern, acc, names, dihedralDict, kDict, mDict).Failure? ==>
              AddTypes(kern, acc, names, dihedralDict, kDict, mDict).error == ValueError(BroadcastMessage)
    ensures AddTypes(kern, acc, names, dihedralDict, kDict, mDict).Success? ==>
              |AddTypes(kern, acc, names, dihedralDict, kDict, mDict).value| == |acc| &&
              forall n :: 0 <= n < |acc| ==>
                AddTypes(kern, acc, names, dihedralDict, kDict, mDict).value[n]
                == acc[n] + TypesEnergyAt(kern, names, dihedralDict, kDict, mDict, |acc|, n)
    decreases |names|
  {
    if |names| > 0 {
      var dn := names[0];
      var rest := names[1..];
      assert forall i :: 0 <= i < |rest| ==> rest[i] == names[i + 1];
      AddSeriesSums(kern, acc, dihedralDict[dn], kDict[dn], mDict[dn]);
      match AddSeries(kern, acc, dihedralDict[dn], kDict[dn], mDict[dn])
      case Failure(_) =>
        assert !AllFit(names, dihedralDict, |acc|) by {
          var j :| 0 <= j < |dihedralDict[dn]| && !Fits(dihedralDict[dn][j], |acc|);
          assert names[0] == dn;
        }
      case Success(next) =>
        AddTypesSums(kern, next, rest, dihedralDict, kDict, mDict);
        assert AllFit(names, dihedralDict, |acc|) <==> AllFit(rest, dihedralDict, |next|) by {
          if AllFit(rest, dihedralDict, |next|) {
            forall i, j | 0 <= i < |names| && 0 <= j < |dihedralDict[names[i]]|
              ensures Fits(dihedralDict[names[i]][j], |acc|)
            {
              if i > 0 {
                assert names[i] == rest[i - 1];
              }
            }
          }
          if AllFit(names, dihedralDict, |acc|) {
            forall i, j | 0 <= i < |rest| && 0 <= j < |dihedralDict[rest[i]]|
              ensures Fits(dihedralDict[rest[i]][j], |next|)
            {
              assert rest[i] == names[i + 1];
            }
          }
        }
    }
  }

  /** `__call__`'s loop: each type's phase penalty, then its energies, type by type. */
  function AddTypesWithPenalty(kern: Kernels, acc: seq<real>, penalty: real, names: seq<string>,
                               dihedralDict: map<string, seq<seq<real>>>, kDict: map<string, seq<real>>,
                               mDict: map<string, seq<int>>, pDict: map<string, seq<int>>,
                               pforceDict: map<string, seq<real>>): Result<(seq<real>, real)>
    requires forall n :: n in names ==>
               (n in dihedralDict && n in kDict && n in mDict && n in pDict && n in pforceDict)
    decreases |names|
  {
    if |names| == 0 then Success((acc, penalty))
    else
      var dn := names[0];
      var charged := penalty + Penalty(pDict[dn], kDict[dn], pforceDict[dn]);
      match AddSeries(kern, acc, dihedralDict[dn], kDict[dn], mDict[dn])
      case Failure(err) => Failure(err)
      case Success(next) =>
        AddTypesWithPenalty(kern, next, charged, names[1..], dihedralDict, kDict, mDict, pDict, pforceDict)
  }

  /** One turn of `__call__`'s loop. */
  lemma PenaltyLoopStep(kern: Kernels, acc: seq<real>, penalty: real, names: seq<string>,
                        dihedralDict: map<string, seq<seq<real>>>, kDict: map<string, seq<real>>,
                        mDict: map<string, seq<int>>, pDict: map<string, seq<int>>,
                        pforceDict: map<string, seq<real>>)
    requires forall n :: n in names ==>
               (n in dihedralDict && n in kDict && n in mDict && n in pDict && n in pforceDict)
    requires |names| > 0
    ensures AddTypesWithPenalty(kern, acc, penalty, names, dihedralDict, kDict, mDict, pDict, pforceDict)
         == match AddSeries(kern, acc, dihedralDict[names[0]], kDict[names[0]], mDict[names[0]])
            case Failure(err) => Failure(err)
            case Success(next) =>
              AddTypesWithPenalty(kern, next, penalty + Penalty(pDict[names[0]], kDict[names[0]], pforceDict[names[0]]),
                                  names[1..], dihedralDict, kDict, mDict, pDict, pforceDict)
  {
  }

  /** The sum over `names` of each type's `phase_penalty`. */
  function PenaltyTotal(names: seq<string>, kDict: map<string, seq<real>>, pDict: map<string, seq<int>>,
                        pforceDict: map<string, seq<real>>): real
    requires forall n :: n in names ==> n in kDict && n in pDict && n in pforceDict
  {
    if |names| == 0 then 0.0
    else Penalty(pDict[names[0]], kDict[names[0]], pforceDict[names[0]])
         + PenaltyTotal(names[1..], kDict, pDict, pforceDict)
  }

  /**
   * Interleaving the penalties with the energies changes neither: `__call__`'s
   * loop yields `rmsd`'s energies and the summed penalties, and fails exactly
   * when `rmsd`'s loop fails, with the same error.
   */
  lemma {:induction false} PenaltyLoopSplits(kern: Kernels, acc: seq<real>, penalty: real, names: seq<string>,
                                             dihedralDict: map<string, seq<seq<real>>>, kDict: map<string, seq<real>>,
                                             mDict: map<string, seq<int>>, pDict: map<string, seq<int>>,
                                             pforceDict: map<string, seq<real>>)
    requires forall n :: n in names ==>
               (n in dihedralDict && n in kDict && n in mDict && n in pDict && n in pforceDict)
    decreases |names|
    ensures AddTypesWithPenalty(kern, acc, penalty, names, dihedralDict, kDict, mDict, pDict, pforceDict)
         == match AddTypes(kern, acc, names, dihedralDict, kDict, mDict)
            case Failure(err) => Failure(err)
            case Success(energy) => Success((energy, penalty + PenaltyTotal(names, kDict, pDict, pforceDict)))
  {
    if |names| > 0 {
      var dn := names[0];
      var charged := penalty + Penalty(pDict[dn], kDict[dn], pforceDict[dn]);
      match AddSeries(kern, acc, dihedralDict[dn], kDict[dn], mDict[dn])
      case Failure(err) =>
      case Success(next) =>
        PenaltyLoopSplits(kern, next, charged, names[1..], dihedralDict, kDict, mDict, pDict, pforceDict);
    }
  }

  /** With nonnegative restraint forces the summed penalty is nonnegative. */
  lemma {:induction false} PenaltyTotalNonnegative(names: seq<string>, kDict: map<string, seq<real>>,
                                                   pDict: map<string, seq<int>>, pforceDict: map<string, seq<real>>)
    requires forall n :: n in names ==> n in kDict && n in pDict && n in pforceDict
    requires forall n, i :: n in names && 0 <= i < |pforceDict[n]| ==> pforceDict[n][i] >= 0.0
    ensures PenaltyTotal(names, kDict, pDict, pforceDict) >= 0.0
  {
    if |names| > 0 {
      var dn := names[0];
      var ps, ks, fs := pDict[dn], kDict[dn], pforceDict[dn];
      PenaltySign(ps, ks, fs, Min2(Min2(|ps|, |ks|), |fs|));
      PenaltyTotalNonnegative(names[1..], kDict, pDict, pforceDict);
    }
  }

  class ObjfuncDihFit {
    const temperature: real
    const dihedralDict: map<string, seq<seq<real>>>
    const mDict: map<string, seq<int>>
    const pDict: map<string, seq<int>>
    const pforceDict: map<string, seq<real>>
    const dihedralNamesSorted: seq<string>
    const mcountDict: map<string, nat>
    const qme: seq<real>
    const mme: seq<real>
    // None stands for the source's `None`: weights are recomputed ("cross") at every evaluation
    const weights: Option<seq<real>>
    const extraWeights: Option<seq<real>>
    const offsetMethod: string
    const weightEnergyCutoff: Option<real>

    /** Every sorted name has its tables, and the checks of `__init__` passed. */
    ghost predicate Valid()
    {
      && (forall n :: n in dihedralNamesSorted ==>
            n in dihedralDict && n in mDict && n in pDict && n in pforceDict)
      && mcountDict == (map n | n in dihedralNamesSorted :: |mDict[n]|)
      && |dihedralNamesSorted| > 0
      && |dihedralDict[dihedralNamesSorted[0]]| > 0
      && |qme| == |dihedralDict[dihedralNamesSorted[0]][0]|
      && |mme| == |dihedralDict[dihedralNamesSorted[0]][0]|
    }

    constructor Init(temperature: real, dihedralDict: map<string, seq<seq<real>>>,
                     mDict: map<string, seq<int>>, pDict: map<string, seq<int>>,
                     pforceDict: map<string, seq<real>>, dihedralNamesSorted: seq<string>,
                     qme: seq<real>, mme: seq<real>, weights: Option<seq<real>>,
                     extraWeights: Option<seq<real>>, offsetMethod: string,
                     weightEnergyCutoff: Option<real>)
      requires forall n :: n in dihedralNamesSorted ==>
                 n in dihedralDict && n in mDict && n in pDict && n in pforceDict
      requires |dihedralNamesSorted| > 0 && |dihedralDict[dihedralNamesSorted[0]]| > 0
      requires |qme| == |dihedralDict[dihedralNamesSorted[0]][0]| == |mme|
      ensures Valid()
      ensures this.temperature == temperature && this.dihedralDict == dihedralDict
      ensures this.mDict == mDict && this.pDict == pDict && this.pforceDict == pforceDict
      ensures this.dihedralNamesSorted == dihedralNamesSorted
      ensures this.qme == qme && this.mme == mme && this.weights == weights
      ensures this.extraWeights == extraWeights && this.offsetMethod == offsetMethod
      ensures this.weightEnergyCutoff == weightEnergyCutoff
    {
      this.temperature := temperature;
      this.dihedralDict := dihedralDict;
      this.mDict := mDict;
      this.pDict := pDict;
      this.pforceDict := pforceDict;
      this.dihedralNamesSorted := dihedralNamesSorted;
      this.mcountDict := map n | n in dihedralNamesSorted :: |mDict[n]|;
      this.qme := qme;
      this.mme := mme;
      this.weights := weights;
      this.extraWeights := extraWeights;
      this.offsetMethod := offsetMethod;
      this.weightEnergyCutoff := weightEnergyCutoff;
    }

    /** The force-constant segments `separate_k` gives for `x`. */
    function KDict(x: seq<real>): (kDict: map<string, seq<real>>)
      requires Valid()
      ensures forall n :: n in dihedralNamesSorted ==> n in kDict
    {
      SegmentsHasNames(x, mcountDict, dihedralNamesSorted);
      Segments(x, mcountDict, dihedralNamesSorted)
    }

    /** The MM energy of one evaluation: a copy of the baseline plus every type's series energies. */
    function Energy(kern: Kernels, x: seq<real>): Result<seq<real>>
      requires Valid()
    {
      AddTypes(kern, mme, dihedralNamesSorted, dihedralDict, KDict(x), mDict)
    }

    /**
     * An evaluation's MM energy exists exactly when every registered series
     * fits the baseline; it then has one sample per QM sample, each the
     * baseline plus the energies of all series of all types at that sample.
     */
    lemma EnergyIsBaselinePlusSeries(kern: Kernels, x: seq<real>)
      requires Valid()
      ensures Energy(kern, x).Success? <==> AllFit(dihedralNamesSorted, dihedralDict, |mme|)
      ensures Energy(kern, x).Failure? ==> Energy(kern, x).error == ValueError(BroadcastMessage)
      ensures Energy(kern, x).Success? ==>
                |Energy(kern, x).value| == |qme| &&
                forall n :: 0 <= n < |mme| ==>
                  Energy(kern, x).value[n]
                  == mme[n] + TypesEnergyAt(kern, dihedralNamesSorted, dihedralDict, KDict(x), mDict, |mme|, n)
    {
      AddTypesSums(kern, mme, dihedralNamesSorted, dihedralDict, KDict(x), mDict);
    }

    /** The stored weights, or "cross" weights of the QM energy against the current MM energy. */
    function WeightsFor(kern: Kernels, energy: seq<real>): Result<seq<real>>
    {
      match weights
      case Some(w) => Success(w)
      case None => GenerateWeights(kern, qme, energy, "cross", weightEnergyCutoff, temperature, extraWeights)
    }

    /** The value `rmsd(x)` returns. */
    function RmsdValue(kern: Kernels, x: seq<real>): Result<real>
      requires Valid()
    {
      match Energy(kern, x)
      case Failure(err) => Failure(err)
      case Success(energy) =>
        match WeightsFor(kern, energy)
        case Failure(err) => Failure(err)
        case Success(w) => RmsdQmMm(kern, qme, energy, w, offsetMethod)
    }

    /** The value `__call__(x, grad)` returns. */
    function CallValue(kern: Kernels, x: seq<real>): Result<real>
      requires Valid()
    {
      var kDict := KDict(x);
      match AddTypesWithPenalty(kern, mme, 0.0, dihedralNamesSorted, dihedralDict, kDict, mDict, pDict, pforceDict)
      case Failure(err) => Failure(err)
      case Success(pair) =>
        match WeightsFor(kern, pair.0)
        case Failure(err) => Failure(err)
        case Success(w) =>
          match RmsdQmMm(kern, qme, pair.0, w, offsetMethod)
          case Failure(err) => Failure(err)
          case Success(rmsd) => Success(rmsd + pair.1)
    }

    /**
     * `__call__(x, grad)` is `rmsd(x)` plus the phase penalties of every
     * type under its segment of `x`, and fails exactly when `rmsd(x)` fails.
     */
    lemma CallIsRmsdPlusPenalty(kern: Kernels, x: seq<real>)
      requires Valid()
      ensures CallValue(kern, x) == match RmsdValue(kern, x)
        case Failure(err) => Failure(err)
        case Success(rmsd) => Success(rmsd + PenaltyTotal(dihedralNamesSorted, KDict(x), pDict, pforceDict))
    {
      PenaltyLoopSplits(kern, mme, 0.0, dihedralNamesSorted, dihedralDict, KDict(x), mDict, pDict, pforceDict);
    }

    /** With nonnegative restraint forces the objective never undercuts the bare RMSD. */
    lemma CallAtLeastRmsd(kern: Kernels, x: seq<real>)
      requires Valid()
      requires forall n, i :: n in dihedralNamesSorted && 0 <= i < |pforceDict[n]| ==> pforceDict[n][i] >= 0.0
      ensures CallValue(kern, x).Success? <==> RmsdValue(kern, x).Success?
      ensures CallValue(kern, x).Success? ==> CallValue(kern, x).value >= RmsdValue(kern, x).value
    {
      CallIsRmsdPlusPenalty(kern, x);
      PenaltyTotalNonnegative(dihedralNamesSorted, KDict(x), pDict, pforceDict);
    }

    /** The energy loop of `rmsd` and `__call__` on a copy of the baseline. */
    method AccumulateSeries(kern: Kernels, acc: seq<real>, group: seq<seq<real>>, ks: seq<real>, ms: seq<int>)
      returns (r: Result<seq<real>>)
      ensures r == AddSeries(kern, acc, group, ks, ms)
    {
      var current := acc;
      for j := 0 to |group|
        invariant AddSeries(kern, acc, group, ks, ms) == AddSeries(kern, current, group[j..], ks, ms)
      {
        assert group[j..][1..] == group[j + 1..];
        var sum := AddInPlace(current, MmEnergy(kern, group[j], ks, ms));
        if sum.Failure? {
          return Failure(sum.error);
        }
        current := sum.value;
      }
      return Success(current);
    }

    /** `rmsd(x)`. */
    method Rmsd(kern: Kernels, x: seq<real>) returns (r: Result<real>)
      requires Valid()
      ensures r == RmsdValue(kern, x)
    {
      var energy := mme;
      var kDict := SeparateK(x, mcountDict, dihedralNamesSorted);
      assert kDict == KDict(x);
      for i := 0 to |dihedralNamesSorted|
        invariant Energy(kern, x)
               == AddTypes(kern, energy, dihedralNamesSorted[i..], dihedralDict, kDict, mDict)
      {
        var dn := dihedralNamesSorted[i];
        assert dihedralNamesSorted[i..][1..] == dihedralNamesSorted[i + 1..];
        var added := AccumulateSeries(kern, energy, dihedralDict[dn], kDict[dn], mDict[dn]);
        if added.Failure? {
          return Failure(added.error);
        }
        energy := added.value;
      }
      var w := WeightsFor(kern, energy);
      if w.Failure? {
        return Failure(w.error);
      }
      r := RmsdQmMm(kern, qme, energy, w.value, offsetMethod);
    }

    /** `__call__`'s loop over the sorted types, on a copy of the baseline. */
    method AccumulateWithPenalty(kern: Kernels, kDict: map<string, seq<real>>) returns (r: Result<(seq<real>, real)>)
      requires Valid()
      requires forall n :: n in dihedralNamesSorted ==> n in kDict
      ensures r == AddTypesWithPenalty(kern, mme, 0.0, dihedralNamesSorted, dihedralDict, kDict,
                                       mDict, pDict, pforceDict)
    {
      var energy := mme;
      var penalty := 0.0;
      for i := 0 to |dihedralNamesSorted|
        invariant AddTypesWithPenalty(kern, mme, 0.0, dihedralNamesSorted, dihedralDict, kDict, mDict, pDict, pforceDict)
               == AddTypesWithPenalty(kern, energy, penalty, dihedralNamesSorted[i..], dihedralDict, kDict,
                                      mDict, pDict, pforceDict)
      {
        var dn := dihedralNamesSorted[i];
        assert dihedralNamesSorted[i..][1..] == dihedralNamesSorted[i + 1..];
        PenaltyLoopStep(kern, energy, penalty, dihedralNamesSorted[i..], dihedralDict, kDict, mDict, pDict, pforceDict);
        var charged := PhasePenalty(pDict[dn], kDict[dn], pforceDict[dn]);
        penalty := penalty + charged;
        var added := AccumulateSeries(kern, energy, dihedralDict[dn], kDict[dn], mDict[dn]);
        if added.Failure? {
          return Failure(added.error);
        }
        energy := added.value;
      }
      return Success((energy, penalty));
    }

    /**
     * `__call__(x, grad)`. The gradient buffer is never read, and neither
     * evaluation changes the stored baseline: the class's fields are
     * constants and the method modifies nothing.
     */
    method Call(kern: Kernels, x: seq<real>, grad: seq<real>) returns (r: Result<real>)
      requires Valid()
      ensures r == CallValue(kern, x)
    {
      var kDict := SeparateK(x, mcountDict, dihedralNamesSorted);
      assert kDict == KDict(x);
      var accumulated := AccumulateWithPenalty(kern, kDict);
      if accumulated.Failure? {
        return Failure(accumulated.error);
      }
      var (energy, penalty) := accumulated.value;
      var w := WeightsFor(kern, energy);
      if w.Failure? {
        return Failure(w.error);
      }
      var rmsd := RmsdQmMm(kern, qme, energy, w.value, offsetMethod);
      if rmsd.Failure? {
        return Failure(rmsd.error);
      }
      r := Success(rmsd.value + penalty);
    }
  }

  /**
   * The checks of `ObjfuncDihFit.__init__`: `dihedral_names_sorted[0]` must
   * exist, so must the first series of that type, and the QM and baseline
   * MM energies must have that series' length. The callers build the tables
   * from the same names, so every name has its tables.
   */
  method NewObjfuncDihFit(temperature: real, dihedralDict: map<string, seq<seq<real>>>,
                          mDict: map<string, seq<int>>, pDict: map<string, seq<int>>,
                          pforceDict: map<string, seq<real>>, dihedralNamesSorted: seq<string>,
                          qme: seq<real>, mme: seq<real>, weights: Option<seq<real>>,
                          extraWeights: Option<seq<real>>, offsetMethod: string,
                          weightEnergyCutoff: Option<real>)
    returns (r: Result<ObjfuncDihFit>)
    requires forall n :: n in dihedralNamesSorted ==>
               n in dihedralDict && n in mDict && n in pDict && n in pforceDict
    ensures r.Success? <==> |dihedralNamesSorted| > 0
                            && |dihedralDict[dihedralNamesSorted[0]]| > 0
                            && |qme| == |dihedralDict[dihedralNamesSorted[0]][0]|
                            && |mme| == |dihedralDict[dihedralNamesSorted[0]][0]|
    ensures |dihedralNamesSorted| == 0 ==> r == Failure(IndexError("dihedral_names_sorted"))
    ensures |dihedralNamesSorted| > 0 && |dihedralDict[dihedralNamesSorted[0]]| == 0 ==>
              r == Failure(IndexError("dihedral_dict[dn0]"))
    ensures |dihedralNamesSorted| > 0 && |dihedralDict[dihedralNamesSorted[0]]| > 0 && r.Failure? ==>
              r.error.AssertionError?
    ensures r.Success? ==> fresh(r.value) && r.value.Valid()
    ensures r.Success? ==> r.value.dihedralNamesSorted == dihedralNamesSorted
    ensures r.Success? ==> r.value.dihedralDict == dihedralDict && r.value.mDict == mDict
    ensures r.Success? ==> r.value.pDict == pDict && r.value.pforceDict == pforceDict
    ensures r.Success? ==> r.value.qme == qme && r.value.mme == mme && r.value.weights == weights
    ensures r.Success? ==> r.value.extraWeights == extraWeights && r.value.offsetMethod == offsetMethod
    ensures r.Success? ==> r.value.weightEnergyCutoff == weightEnergyCutoff
    ensures r.Success? ==> r.value.temperature == temperature
  {
    if |dihedralNamesSorted| == 0 {
      return Failure(IndexError("dihedral_names_sorted"));
    }
    var dn0 := dihedralNamesSorted[0];
    if |dihedralDict[dn0]| == 0 {
      return Failure(IndexError("dihedral_dict[dn0]"));
    }
    if |qme| != |dihedralDict[dn0][0]| {
      return Failure(AssertionError("self.qme.shape == self.dihedral_dict[dn0][0].shape"));
    }
    if |mme| != |dihedralDict[dn0][0]| {
      return Failure(AssertionError("self.mme.shape == self.dihedral_dict[dn0][0].shape"));
    }
    var obj := new ObjfuncDihFit.Init(temperature, dihedralDict, mDict, pDict, pforceDict,
                                      dihedralNamesSorted, qme, mme, weights, extraWeights,
                                      offsetMethod, weightEnergyCutoff);
    r := Success(obj);
  }
}
