/**
 * `DihedralFitter`: it groups the input series by dihedral type, keeps the
 * type names sorted together with every type's term count and the total
 * parameter dimension, chooses the weighting scheme once, minimises the
 * objective by simulated annealing, and reports the optimum type by type.
 */
module Fitter {
  import opened Outcomes
  import opened LexOrder
  import opened DihedralType
  import opened Numerics
  import opened Partition
  import opened Phase
  import opened Ingestion
  import opened Objective
  import opened Annealing
  import opened AnnealingRun
  import opened OptimumReport

  /** The loop of `__init__` over the zipped inputs. */
  method Ingest(entries: seq<Entry>) returns (r: Result<Grouping>)
    ensures r == Group(entries)
  {
    var g := Grouping(map[], map[], map[], map[], [], 0);
    assert entries[..0] == [];
    for i := 0 to |entries|
      invariant Group(entries[..i]) == Success(g)
    {
      assert entries[..i + 1][..i] == entries[..i] && entries[..i + 1][i] == entries[i];
      GroupStep(entries[..i + 1]);
      var next := IngestOne(g, entries[i]);
      if next.Failure? {
        GroupFailurePersists(entries, i + 1);
        return next;
      }
      g := next.value;
    }
    assert entries[..|entries|] == entries;
    return Success(g);
  }

  /** One turn of that loop: file the series under its type, or check it against the type's lists. */
  method IngestOne(g: Grouping, e: Entry) returns (r: Result<Grouping>)
    requires Tables(g)
    ensures r == Add(g, e)
  {
    var key := DihedralName(e.file.header);
    if key.Failure? {
      return Failure(key.error);
    }
    var name := key.value;
    var dihedralDict, mDict, pDict, pforceDict := g.dihedralDict, g.mDict, g.pDict, g.pforceDict;
    var names, dimension := g.names, g.dimension;
    if name in dihedralDict {
      dihedralDict := dihedralDict[name := dihedralDict[name] + [e.file.angles]];
      if mDict[name] != e.ms {
        return Failure(AssertionError("self.m_dict[dihedral_name] == ms"));
      }
      if pDict[name] != e.ps {
        return Failure(AssertionError("self.p_dict[dihedral_name] == ps"));
      }
      if pforceDict[name] != e.pf {
        return Failure(AssertionError("self.pforce_dict[dihedral_name] == pf"));
      }
    } else {
      dihedralDict := dihedralDict[name := [e.file.angles]];
      mDict := mDict[name := e.ms];
      pDict := pDict[name := e.ps];
      pforceDict := pforceDict[name := e.pf];
      names := names + [name];
      dimension := dimension + |e.ms|;
    }
    return Success(Grouping(dihedralDict, mDict, pDict, pforceDict, names, dimension));
  }

  /** `mcount_dict`: the term count of every sorted name. */
  method CountTerms(mDict: map<string, seq<int>>, names: seq<string>) returns (mcountDict: map<string, nat>)
    requires forall n :: n in names ==> n in mDict
    ensures mcountDict == map n | n in names :: |mDict[n]|
  {
    mcountDict := map[];
    for i := 0 to |names|
      invariant mcountDict == map n | n in names[..i] :: |mDict[n]|
    {
      assert names[..i + 1] == names[..i] + [names[i]];
      mcountDict := mcountDict[names[i] := |mDict[names[i]]|];
    }
    assert names[..|names|] == names;
  }

  /** The tables after the ingestion loop, or the exception it raises. */
  ghost function Ingested(dihedralFiles: seq<SeriesFile>, allowedM: seq<seq<int>>, phase: seq<seq<int>>,
                          pforce: seq<seq<real>>): Result<Grouping>
  {
    Group(Zip4(dihedralFiles, allowedM, phase, pforce))
  }

  /**
   * Sorting the names keeps what ingestion established: every name has its
   * tables and at least one series, no name is listed twice, and the
   * dimension is the total term count in sorted order too.
   */
  lemma SortedNamesKeepTables(entries: seq<Entry>, sorted: seq<string>)
    requires Group(entries).Success?
    requires multiset(sorted) == multiset(Group(entries).value.names)
    ensures forall n :: n in sorted ==>
              && n in Group(entries).value.dihedralDict && n in Group(entries).value.mDict
              && n in Group(entries).value.pDict && n in Group(entries).value.pforceDict
    ensures forall n :: n in sorted ==> |Group(entries).value.dihedralDict[n]| > 0
    ensures Distinct(sorted)
    ensures Group(entries).value.dimension
         == Offset(map n | n in sorted :: |Group(entries).value.mDict[n]|, sorted)
  {
    var g := Group(entries).value;
    GroupWellFormed(entries);
    GroupDimension(entries);
    SameMembers(g.names, sorted);
    SameMembers(sorted, g.names);
    forall n | n in sorted
      ensures |g.dihedralDict[n]| > 0
    {
      GroupSeriesNonempty(entries, n);
    }
    PermutationKeepsDistinct(g.names, sorted);
    var mcount := map n | n in sorted :: |g.mDict[n]|;
    OffsetFrame(Counts(g.mDict), mcount, g.names);
    OffsetPermutation(mcount, g.names, sorted);
  }

  /**
   * The sorted names are distinct, each has its tables and at least one
   * series, and the term counts and the dimension agree with them.
   */
  ghost predicate Coherent(dihedralDict: map<string, seq<seq<real>>>, mDict: map<string, seq<int>>,
                           pDict: map<string, seq<int>>, pforceDict: map<string, seq<real>>,
                           mcountDict: map<string, nat>, dimension: nat, names: seq<string>)
  {
    && (forall n :: n in names ==> n in dihedralDict && n in mDict && n in pDict && n in pforceDict)
    && (forall n :: n in names ==> |dihedralDict[n]| > 0)
    && Sorted(names) && Distinct(names)
    && mcountDict == (map n | n in names :: |mDict[n]|)
    && dimension == Offset(mcountDict, names)
  }

  /**
   * The weighting mode decides which attribute `__init__` sets: the weights
   * are computed once unless the criterion is "cross", which keeps the
   * extra weights instead.
   */
  predicate WeightsMatchMode(weightCriterion: string, weights: Option<seq<real>>,
                             extraWeights: Option<Option<seq<real>>>)
  {
    && (weightCriterion == "cross" ==> weights.None? && extraWeights.Some?)
    && (weightCriterion != "cross" ==> weights.Some? && extraWeights.None?)
  }

  class DihedralFitter {
    // assigned once by `__init__` and never again
    const dihedralDict: map<string, seq<seq<real>>>
    const mDict: map<string, seq<int>>
    const pDict: map<string, seq<int>>
    const pforceDict: map<string, seq<real>>
    const mcountDict: map<string, nat>
    const dimension: nat
    const temperature: real
    const energyCutoff: Option<real>
    const dihedralNamesSorted: seq<string>
    const qme: seq<real>
    const mme: seq<real>
    const offsetMethod: string
    const weightCriterion: string
    const weights: Option<seq<real>>
    // None while the attribute `extra_weights` was never set: `__init__` sets it for "cross" only
    const extraWeights: Option<Option<seq<real>>>
    // assigned by the fits
    var optimum: Option<seq<real>>
    // None while the attribute `rmsd_best` was never set
    var rmsdBest: Option<real>
    // null while the attribute `obj_func` was never set
    var objFunc: ObjfuncDihFit?

    /** Stores the attributes `__init__` computed. */
    constructor Assemble(g: Grouping, sorted: seq<string>, mcount: map<string, nat>, temperature: real,
                         energyCutoff: Option<real>, qme: seq<real>, mme: seq<real>, offsetMethod: string,
                         weightCriterion: string, weights: Option<seq<real>>, kept: Option<Option<seq<real>>>)
      requires Coherent(g.dihedralDict, g.mDict, g.pDict, g.pforceDict, mcount, g.dimension, sorted)
      requires WeightsMatchMode(weightCriterion, weights, kept)
      ensures Valid()
      ensures dihedralDict == g.dihedralDict && mDict == g.mDict && pDict == g.pDict
      ensures pforceDict == g.pforceDict && dihedralNamesSorted == sorted && dimension == g.dimension
      ensures this.temperature == temperature && this.energyCutoff == energyCutoff
      ensures this.qme == qme && this.mme == mme
      ensures this.offsetMethod == offsetMethod && this.weightCriterion == weightCriterion
      ensures this.weights == weights && extraWeights == kept
      ensures optimum.None? && rmsdBest.None? && objFunc == null
    {
      dihedralDict, mDict, pDict, pforceDict := g.dihedralDict, g.mDict, g.pDict, g.pforceDict;
      mcountDict, dimension := mcount, g.dimension;
      this.temperature, this.energyCutoff := temperature, energyCutoff;
      dihedralNamesSorted := sorted;
      this.qme, this.mme := qme, mme;
      this.offsetMethod, this.weightCriterion := offsetMethod, weightCriterion;
      this.weights, extraWeights := weights, kept;
      optimum, rmsdBest, objFunc := None, None, null;
    }

    /**
     * The sorted names are distinct, each has its tables and series, the
     * term counts and the dimension agree with them, the weighting mode
     * decides which of `weights` and `extra_weights` is set, and a built
     * objective was built from these tables.
     */
    ghost predicate Valid()
      reads this
    {
      && Initialized()
      && (objFunc != null ==> BuiltFromTables(objFunc))
    }

    /** What `__init__` establishes about the attributes it assigns once. */
    ghost predicate Initialized()
    {
      && Coherent(dihedralDict, mDict, pDict, pforceDict, mcountDict, dimension, dihedralNamesSorted)
      && WeightsMatchMode(weightCriterion, weights, extraWeights)
    }

    /** `ObjfuncDihFit.__init__` accepts the tables: there is a first type, and the energies fit its first series. */
    ghost predicate ObjectiveBuilds()
      requires Initialized()
    {
      && |dihedralNamesSorted| > 0
      && |qme| == |dihedralDict[dihedralNamesSorted[0]][0]|
      && |mme| == |dihedralDict[dihedralNamesSorted[0]][0]|
    }

    /**
     * `simulated_annealing`: set up the bounds and the start, build the
     * objective from the tables, run the annealing loop, and keep the best
     * parameters and RMSD it found. The result is the logged best RMSD of
     * every step. `extra_weights` is read to build the objective, so a
     * fitter whose criterion is not "cross" raises AttributeError.
     */
    method SimulatedAnnealing(kern: Kernels, start: Option<seq<real>>, lowerBounds: Option<seq<real>>,
                              upperBounds: Option<seq<real>>, nsteps: int, startDraw: nat -> real,
                              accept: (nat, real, real) -> bool, draws: (nat, nat) -> real)
      returns (r: Result<seq<real>>)
      requires Valid()
      modifies this
      ensures Valid()
      ensures r.Failure? ==> optimum == old(optimum) && rmsdBest == old(rmsdBest)
      ensures Setup(start, lowerBounds, upperBounds, dimension, startDraw).Failure? ==>
                r == Failure(Setup(start, lowerBounds, upperBounds, dimension, startDraw).error) && objFunc == old(objFunc)
      ensures Setup(start, lowerBounds, upperBounds, dimension, startDraw).Success? && extraWeights.None? ==>
                r == Failure(AttributeError("extra_weights")) && objFunc == old(objFunc)
      ensures (Setup(start, lowerBounds, upperBounds, dimension, startDraw).Success? && extraWeights.Some? &&
               !ObjectiveBuilds()) ==> r.Failure? && objFunc == old(objFunc)
      ensures (Setup(start, lowerBounds, upperBounds, dimension, startDraw).Success? && extraWeights.Some? &&
               |dihedralNamesSorted| == 0) ==> r == Failure(IndexError("dihedral_names_sorted"))
      ensures (Setup(start, lowerBounds, upperBounds, dimension, startDraw).Success? && extraWeights.Some? &&
               |dihedralNamesSorted| > 0 && !ObjectiveBuilds()) ==> r.Failure? && r.error.AssertionError?
      ensures (Setup(start, lowerBounds, upperBounds, dimension, startDraw).Success? && extraWeights.Some? &&
               ObjectiveBuilds()) ==>
                && objFunc != null && fresh(objFunc)
                && Ends(r, RunOutcome(objFunc, kern, Setup(start, lowerBounds, upperBounds, dimension, startDraw).value,
                                      nsteps, accept, draws))
    {
      var setup := Setup(start, lowerBounds, upperBounds, dimension, startDraw);
      if setup.Failure? {
        return Failure(setup.error);
      }
      if extraWeights.None? {
        return Failure(AttributeError("extra_weights"));
      }
      r := AnnealFrom(kern, setup.value, nsteps, accept, draws);
    }

    /**
     * The part of `simulated_annealing` after the shape assertion: build
     * the objective from the tables, run the loop from the box's start, and
     * keep the best parameters and RMSD.
     */
    method AnnealFrom(kern: Kernels, box: Box, nsteps: int, accept: (nat, real, real) -> bool,
                      draws: (nat, nat) -> real)
      returns (r: Result<seq<real>>)
      requires Valid() && Shaped(box) && extraWeights.Some?
      modifies this
      ensures Valid()
      ensures r.Failure? ==> optimum == old(optimum) && rmsdBest == old(rmsdBest)
      ensures !ObjectiveBuilds() ==> r.Failure? && objFunc == old(objFunc)
      ensures |dihedralNamesSorted| == 0 ==> r == Failure(IndexError("dihedral_names_sorted"))
      ensures |dihedralNamesSorted| > 0 && !ObjectiveBuilds() ==> r.Failure? && r.error.AssertionError?
      ensures ObjectiveBuilds() ==>
                objFunc != null && fresh(objFunc) && Ends(r, RunOutcome(objFunc, kern, box, nsteps, accept, draws))
    {
      var built := NewObjfuncDihFit(temperature, dihedralDict, mDict, pDict, pforceDict, dihedralNamesSorted,
                                    qme, mme, weights, extraWeights.value, offsetMethod, energyCutoff);
      if built.Failure? {
        return Failure(built.error);
      }
      var run := RunFrom(built.value, kern, box, nsteps, accept, draws);
      objFunc := built.value;
      if run.Failure? {
        return Failure(run.error);
      }
      optimum, rmsdBest := Some(run.value.optimum), Some(run.value.rmsdBest);
      return Success(run.value.log);
    }

    /** The call returns the run's log and keeps its optimum and best RMSD, or raises the run's exception. */
    ghost predicate Ends(r: Result<seq<real>>, run: Result<Run>)
      reads this
    {
      && (run.Failure? ==> r == Failure(run.error))
      && (run.Success? ==> r == Success(run.value.log) && optimum == Some(run.value.optimum)
                           && rmsdBest == Some(run.value.rmsdBest))
    }

    /** `quick_rmsd(x)`: the objective's RMSD without penalty; before any fit `obj_func` is unset. */
    method QuickRmsd(kern: Kernels, x: seq<real>) returns (r: Result<real>)
      requires Valid()
      ensures objFunc == null ==> r == Failure(AttributeError("obj_func"))
      ensures objFunc != null ==> r == objFunc.RmsdValue(kern, x)
    {
      if objFunc == null {
        return Failure(AttributeError("obj_func"));
      }
      r := objFunc.Rmsd(kern, x);
    }

    /**
     * `show_optimum(with_phase)`: the rows printed for the optimum's
     * segments, in sorted order of the types.
     */
    method ShowOptimum(withPhase: bool) returns (r: Result<seq<ReportRow>>)
      requires Valid()
      ensures optimum.None? ==> r == Failure(AssertionError("self.optimum is not None"))
      ensures optimum.Some? ==> r == Success(Report(optimum.value, mcountDict, dihedralNamesSorted, withPhase))
    {
      if optimum.None? {
        return Failure(AssertionError("self.optimum is not None"));
      }
      var kDict := SeparateK(optimum.value, mcountDict, dihedralNamesSorted);
      SegmentsHasNames(optimum.value, mcountDict, dihedralNamesSorted);
      var rows: seq<ReportRow> := [];
      for i := 0 to |dihedralNamesSorted|
        invariant rows == Rows(kDict, dihedralNamesSorted[..i], withPhase)
      {
        var dn := dihedralNamesSorted[i];
        RowsStep(kDict, dihedralNamesSorted, i, withPhase);
        if withPhase {
          var phases := PhaseFromK(kDict[dn]);
          rows := rows + [ReportRow(dn, Magnitudes(kDict[dn]), Some(phases))];
        } else {
          rows := rows + [ReportRow(dn, kDict[dn], None)];
        }
      }
      assert dihedralNamesSorted[..|dihedralNamesSorted|] == dihedralNamesSorted;
      return Success(rows);
    }

    /** The objective holds this fitter's tables and settings. */
    ghost predicate BuiltFromTables(obj: ObjfuncDihFit)
    {
      && obj.Valid()
      && obj.temperature == temperature && obj.dihedralDict == dihedralDict
      && obj.mDict == mDict && obj.pDict == pDict && obj.pforceDict == pforceDict
      && obj.dihedralNamesSorted == dihedralNamesSorted && obj.qme == qme && obj.mme == mme
      && obj.weights == weights && extraWeights == Some(obj.extraWeights)
      && obj.offsetMethod == offsetMethod && obj.weightEnergyCutoff == energyCutoff
    }
  }

  /**
   * `DihedralFitter.__init__`: ingest the zipped inputs, sort the names,
   * count every type's terms, and compute the weights once unless the
   * criterion is "cross", in which case only the extra weights are kept.
   */
  method NewDihedralFitter(kern: Kernels, dihedralFiles: seq<SeriesFile>, allowedM: seq<seq<int>>,
                           phase: seq<seq<int>>, pforce: seq<seq<real>>, qme: seq<real>, mme: seq<real>,
                           temperature: real, weightCriterion: string, offsetMethod: string,
                           energyCutoff: Option<real>, extraWeights: Option<seq<real>>)
    returns (r: Result<DihedralFitter>)
    ensures Ingested(dihedralFiles, allowedM, phase, pforce).Failure? ==>
              r == Failure(Ingested(dihedralFiles, allowedM, phase, pforce).error)
    ensures Ingested(dihedralFiles, allowedM, phase, pforce).Success? && weightCriterion != "cross" &&
            WeightsRaise(qme, mme, weightCriterion, energyCutoff, extraWeights) ==>
              r == Failure(GenerateWeights(kern, qme, mme, weightCriterion, energyCutoff, temperature, extraWeights).error)
    ensures r.Success? <==>
              Ingested(dihedralFiles, allowedM, phase, pforce).Success? &&
              (weightCriterion != "cross" ==> !WeightsRaise(qme, mme, weightCriterion, energyCutoff, extraWeights))
    ensures r.Success? ==> fresh(r.value) && r.value.Valid()
    ensures r.Success? ==>
              var g := Ingested(dihedralFiles, allowedM, phase, pforce).value;
              && r.value.dihedralDict == g.dihedralDict && r.value.mDict == g.mDict
              && r.value.pDict == g.pDict && r.value.pforceDict == g.pforceDict
              && multiset(r.value.dihedralNamesSorted) == multiset(g.names)
              && r.value.dimension == g.dimension
    ensures r.Success? ==>
              && r.value.qme == qme && r.value.mme == mme && r.value.temperature == temperature
              && r.value.energyCutoff == energyCutoff && r.value.offsetMethod == offsetMethod
              && r.value.weightCriterion == weightCriterion
    ensures r.Success? && weightCriterion != "cross" ==>
              r.value.weights
              == Some(GenerateWeights(kern, qme, mme, weightCriterion, energyCutoff, temperature, extraWeights).value)
    ensures r.Success? && weightCriterion == "cross" ==> r.value.extraWeights == Some(extraWeights)
    ensures r.Success? ==> r.value.optimum.None? && r.value.rmsdBest.None? && r.value.objFunc == null
  {
    var entries := Zip4(dihedralFiles, allowedM, phase, pforce);
    var grouped := Ingest(entries);
    if grouped.Failure? {
      return Failure(grouped.error);
    }
    var g := grouped.value;
    var sorted := SortNames(g.names);
    SortedNamesKeepTables(entries, sorted);
    var mcount := CountTerms(g.mDict, sorted);
    var weights: Option<seq<real>>, kept: Option<Option<seq<real>>>;
    if weightCriterion != "cross" {
      var w := GenerateWeights(kern, qme, mme, weightCriterion, energyCutoff, temperature, extraWeights);
      if w.Failure? {
        return Failure(w.error);
      }
      weights, kept := Some(w.value), None;
    } else {
      weights, kept := None, Some(extraWeights);
    }
    var f := new DihedralFitter.Assemble(g, sorted, mcount, temperature, energyCutoff, qme, mme, offsetMethod,
                      weightCriterion, weights, kept);
    return Success(f);
  }
}
