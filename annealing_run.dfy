/**
 * `simulated_annealing` around its bookkeeping: the default bounds, the
 * start point and the shape assertion before the loop, the objective
 * evaluated once per step at the current parameters, the `while` loop over
 * an array of parameters, and what a finished run leaves behind.
 */
module AnnealingRun {
  import opened Outcomes
  import opened Numerics
  import opened Objective
  import opened Annealing

  /** The lower bounds, the upper bounds and the start point the loop runs from. */
  datatype Box = Box(lower: seq<real>, upper: seq<real>, x0: seq<real>)

  /** The three vectors have one shape, as the assertion before the loop demands. */
  predicate Shaped(box: Box)
  {
    |box.lower| == |box.x0| && |box.upper| == |box.x0|
  }

  /** A bound list as given, or `factor * np.ones(dimension)` when it is `None`. */
  function BoundsOrDefault(given: Option<seq<real>>, dimension: nat, factor: real): seq<real>
  {
    if given.Some? then given.value else seq(dimension, _ => factor)
  }

  /**
   * `np.array(start)`, or uniform draws between the largest lower and the
   * smallest upper bound, where an empty bound list makes `max` or `min`
   * raise ValueError.
   */
  function StartPoint(start: Option<seq<real>>, lower: seq<real>, upper: seq<real>, dimension: nat,
                      startDraw: nat -> real): (r: Result<seq<real>>)
    ensures start.Some? ==> r == Success(start.value)
    ensures start.None? ==> (r.Success? <==> |lower| > 0 && |upper| > 0)
    ensures r.Success? && start.None? ==> |r.value| == dimension
  {
    if start.Some? then Success(start.value)
    else if |lower| == 0 then Failure(ValueError("max() arg is an empty sequence"))
    else if |upper| == 0 then Failure(ValueError("min() arg is an empty sequence"))
    else Success(RandomStart(lower, upper, dimension, startDraw))
  }

  /**
   * Everything before the objective is built: the bounds, the start point,
   * and the assertion that the three have one shape.
   */
  function Setup(start: Option<seq<real>>, lowerBounds: Option<seq<real>>, upperBounds: Option<seq<real>>,
                 dimension: nat, startDraw: nat -> real): (r: Result<Box>)
    ensures r.Success? ==> Shaped(r.value)
    ensures start.Some? ==> (r.Success? <==>
              |BoundsOrDefault(lowerBounds, dimension, -3.0)| == |start.value|
              == |BoundsOrDefault(upperBounds, dimension, 3.0)|)
    ensures r.Success? && start.Some? ==> r.value.x0 == start.value
    ensures r.Success? && start.None? ==> |r.value.x0| == dimension
  {
    var lower := BoundsOrDefault(lowerBounds, dimension, -3.0);
    var upper := BoundsOrDefault(upperBounds, dimension, 3.0);
    match StartPoint(start, lower, upper, dimension, startDraw)
    case Failure(e) => Failure(e)
    case Success(x) =>
      if |lower| == |upper| == |x| then Success(Box(lower, upper, x))
      else Failure(AssertionError("np.array(lower_bounds).shape == np.array(upper_bounds).shape == x.shape"))
  }

  /**
   * With the default bounds the run starts in the box [-3, 3] in every
   * coordinate: a given start must have `dimension` entries, and a random
   * start exists exactly when the dimension is positive and lies in the box
   * when the draws lie in [0, 1].
   */
  lemma SetupDefaultBox(start: Option<seq<real>>, dimension: nat, startDraw: nat -> real)
    ensures start.Some? ==> (Setup(start, None, None, dimension, startDraw).Success? <==> |start.value| == dimension)
    ensures start.None? ==> (Setup(start, None, None, dimension, startDraw).Success? <==> dimension > 0)
    ensures Setup(start, None, None, dimension, startDraw).Success? ==>
              var box := Setup(start, None, None, dimension, startDraw).value;
              forall i :: 0 <= i < |box.x0| ==> box.lower[i] == -3.0 && box.upper[i] == 3.0
    ensures start.None? && dimension > 0 && (forall i :: 0 <= i < dimension ==> 0.0 <= startDraw(i) <= 1.0) ==>
              var box := Setup(start, None, None, dimension, startDraw).value;
              forall i :: 0 <= i < dimension ==> -3.0 <= box.x0[i] <= 3.0
  {
    var lower := BoundsOrDefault(None, dimension, -3.0);
    var upper := BoundsOrDefault(None, dimension, 3.0);
    if start.None? && dimension > 0 && (forall i :: 0 <= i < dimension ==> 0.0 <= startDraw(i) <= 1.0) {
      DefaultBoundsExtremes(dimension);
      RandomStartInBox(lower, upper, dimension, startDraw);
      var x := RandomStart(lower, upper, dimension, startDraw);
      forall i | 0 <= i < dimension
        ensures -3.0 <= x[i] <= 3.0
      {
        assert lower[0] <= x[i] <= upper[0];
      }
    }
  }

  lemma DefaultBoundsExtremes(dimension: nat)
    requires dimension > 0
    ensures Largest(BoundsOrDefault(None, dimension, -3.0)) == -3.0
    ensures Smallest(BoundsOrDefault(None, dimension, 3.0)) == 3.0
  {
  }

  /** The number of times `while step < nsteps` runs its body. */
  function StepCount(nsteps: int): nat
  {
    if nsteps <= 0 then 0 else nsteps
  }

  /**
   * `self.obj_func(x, 0)` at every point of `xs`, in order: the values, or
   * the exception of the first evaluation that raised.
   */
  function Evaluations(obj: ObjfuncDihFit, kern: Kernels, xs: seq<seq<real>>): (r: Result<seq<real>>)
    requires obj.Valid()
    ensures r.Success? ==> |r.value| == |xs|
  {
    if |xs| == 0 then Success([])
    else
      match Evaluations(obj, kern, xs[..|xs| - 1])
      case Failure(e) => Failure(e)
      case Success(rmsds) =>
        match obj.CallValue(kern, xs[|xs| - 1])
        case Failure(e) => Failure(e)
        case Success(v) => Success(rmsds + [v])
  }

  /** A successful run of evaluations holds the objective's value at each point. */
  lemma {:induction false} EvaluationsAt(obj: ObjfuncDihFit, kern: Kernels, xs: seq<seq<real>>, i: nat)
    requires obj.Valid() && i < |xs|
    requires Evaluations(obj, kern, xs).Success?
    ensures obj.CallValue(kern, xs[i]) == Success(Evaluations(obj, kern, xs).value[i])
  {
    if i < |xs| - 1 {
      EvaluationsAt(obj, kern, xs[..|xs| - 1], i);
    }
  }

  /** A failed run of evaluations reports the exception of its first failing point. */
  lemma {:induction false} EvaluationsFirstFailure(obj: ObjfuncDihFit, kern: Kernels, xs: seq<seq<real>>)
    returns (i: nat)
    requires obj.Valid()
    requires Evaluations(obj, kern, xs).Failure?
    ensures i < |xs| && obj.CallValue(kern, xs[i]) == Failure(Evaluations(obj, kern, xs).error)
    ensures forall j :: 0 <= j < i ==> obj.CallValue(kern, xs[j]).Success?
  {
    var init := xs[..|xs| - 1];
    if Evaluations(obj, kern, init).Failure? {
      i := EvaluationsFirstFailure(obj, kern, init);
    } else {
      i := |xs| - 1;
      forall j | 0 <= j < i
        ensures obj.CallValue(kern, xs[j]).Success?
      {
        EvaluationsAt(obj, kern, init, j);
      }
    }
  }

  lemma EvaluationsAppend(obj: ObjfuncDihFit, kern: Kernels, xs: seq<seq<real>>, x: seq<real>)
    requires obj.Valid() && Evaluations(obj, kern, xs).Success?
    ensures obj.CallValue(kern, x).Failure? ==> Evaluations(obj, kern, xs + [x]) == Failure(obj.CallValue(kern, x).error)
    ensures obj.CallValue(kern, x).Success? ==>
              Evaluations(obj, kern, xs + [x]) == Success(Evaluations(obj, kern, xs).value + [obj.CallValue(kern, x).value])
  {
    assert (xs + [x])[..|xs|] == xs;
  }

  /** Once an evaluation raises, the run raises the same exception. */
  lemma {:induction false} EvaluationsFailurePersists(obj: ObjfuncDihFit, kern: Kernels, xs: seq<seq<real>>, k: nat)
    requires obj.Valid() && k <= |xs|
    requires Evaluations(obj, kern, xs[..k]).Failure?
    ensures Evaluations(obj, kern, xs) == Evaluations(obj, kern, xs[..k])
  {
    if k < |xs| {
      var init := xs[..|xs| - 1];
      assert init[..k] == xs[..k];
      EvaluationsFailurePersists(obj, kern, init, k);
    } else {
      assert xs[..k] == xs;
    }
  }

  lemma TrajectoryStep(box: Box, draws: (nat, nat) -> real, k: nat)
    requires Shaped(box)
    ensures Trajectory(box.x0, box.lower, box.upper, draws, k + 1)
         == Trajectory(box.x0, box.lower, box.upper, draws, k) + [Position(box.x0, box.lower, box.upper, draws, k)]
  {
  }

  lemma TrajectoryPrefix(box: Box, draws: (nat, nat) -> real, n: nat, k: nat)
    requires Shaped(box) && k <= n
    ensures Trajectory(box.x0, box.lower, box.upper, draws, n)[..k] == Trajectory(box.x0, box.lower, box.upper, draws, k)
  {
  }

  lemma TrackAppend(accept: (nat, real, real) -> bool, rmsds: seq<real>, xs: seq<seq<real>>, v: real, x: seq<real>)
    requires |rmsds| == |xs|
    ensures Track(accept, rmsds + [v], xs + [x])
         == Record(Track(accept, rmsds, xs), v, accept(|rmsds| + 1, v, Track(accept, rmsds, xs).rmsdOld), x)
    ensures Log(accept, rmsds + [v], xs + [x])
         == Log(accept, rmsds, xs) + [Track(accept, rmsds + [v], xs + [x]).rmsdBest]
  {
    assert (rmsds + [v])[..|rmsds|] == rmsds;
    assert (xs + [x])[..|xs|] == xs;
  }

  lemma StepFails(obj: ObjfuncDihFit, kern: Kernels, box: Box, draws: (nat, nat) -> real, n: nat, k: nat)
    requires obj.Valid() && Shaped(box) && k <= n
    requires Evaluations(obj, kern, Trajectory(box.x0, box.lower, box.upper, draws, k)).Failure?
    ensures Evaluations(obj, kern, Trajectory(box.x0, box.lower, box.upper, draws, n))
         == Evaluations(obj, kern, Trajectory(box.x0, box.lower, box.upper, draws, k))
  {
    TrajectoryPrefix(box, draws, n, k);
    EvaluationsFailurePersists(obj, kern, Trajectory(box.x0, box.lower, box.upper, draws, n), k);
  }

  /**
   * The whole `while` loop from the box's start: the logged best RMSDs and
   * the final `rmsd_old`, `rmsd_best` and `x_best`, or the exception of the
   * first evaluation that raised.
   */
  function Annealed(obj: ObjfuncDihFit, kern: Kernels, box: Box, nsteps: int,
                    accept: (nat, real, real) -> bool, draws: (nat, nat) -> real): Result<(seq<real>, Tracker)>
    requires obj.Valid() && Shaped(box)
  {
    var xs := Trajectory(box.x0, box.lower, box.upper, draws, StepCount(nsteps));
    match Evaluations(obj, kern, xs)
    case Failure(e) => Failure(e)
    case Success(rmsds) => Success((Log(accept, rmsds, xs), Track(accept, rmsds, xs)))
  }

  /** What a finished run leaves: the log, `self.optimum` and `self.rmsd_best`. */
  datatype Run = Run(log: seq<real>, optimum: seq<real>, rmsdBest: real)

  /** The loop's outcome, where an `x_best` never bound makes line `self.optimum = x_best` raise. */
  function RunOutcome(obj: ObjfuncDihFit, kern: Kernels, box: Box, nsteps: int,
                      accept: (nat, real, real) -> bool, draws: (nat, nat) -> real): Result<Run>
    requires obj.Valid() && Shaped(box)
  {
    match Annealed(obj, kern, box, nsteps, accept, draws)
    case Failure(e) => Failure(e)
    case Success((log, t)) =>
      if t.xBest.None? then Failure(UnboundLocalError("x_best"))
      else Success(Run(log, t.xBest.value, t.rmsdBest))
  }

  /** The loop, then `self.optimum = x_best`, which raises when `x_best` was never bound. */
  method RunFrom(obj: ObjfuncDihFit, kern: Kernels, box: Box, nsteps: int,
                 accept: (nat, real, real) -> bool, draws: (nat, nat) -> real)
    returns (r: Result<Run>)
    requires obj.Valid() && Shaped(box)
    ensures r == RunOutcome(obj, kern, box, nsteps, accept, draws)
  {
    var run := Anneal(obj, kern, box, nsteps, accept, draws);
    if run.Failure? {
      return Failure(run.error);
    }
    var log, tracker := run.value.0, run.value.1;
    if tracker.xBest.None? {
      return Failure(UnboundLocalError("x_best"));
    }
    return Success(Run(log, tracker.xBest.value, tracker.rmsdBest));
  }

  /** The `while` loop of `simulated_annealing`, moving the parameter array in place. */
  method Anneal(obj: ObjfuncDihFit, kern: Kernels, box: Box, nsteps: int,
                accept: (nat, real, real) -> bool, draws: (nat, nat) -> real)
    returns (r: Result<(seq<real>, Tracker)>)
    requires obj.Valid() && Shaped(box)
    ensures r == Annealed(obj, kern, box, nsteps, accept, draws)
  {
    var x := new real[|box.x0|](i requires 0 <= i < |box.x0| => box.x0[i]);
    assert x[..] == box.x0;
    var rmsdOld, rmsdBest, xBest := 100.0, 100.0, None;
    var log: seq<real> := [];
    ghost var rmsds: seq<real> := [];
    ghost var xs: seq<seq<real>> := [];
    var step := 0;
    while step < nsteps
      invariant 0 <= step <= StepCount(nsteps)
      invariant xs == Trajectory(box.x0, box.lower, box.upper, draws, step)
      invariant x[..] == Position(box.x0, box.lower, box.upper, draws, step)
      invariant Evaluations(obj, kern, xs) == Success(rmsds)
      invariant Tracker(rmsdOld, rmsdBest, xBest) == Track(accept, rmsds, xs)
      invariant log == Log(accept, rmsds, xs)
    {
      TrajectoryStep(box, draws, step);
      var current := x[..];
      step := step + 1;
      var rmsd := obj.Call(kern, current, []);
      EvaluationsAppend(obj, kern, xs, current);
      if rmsd.Failure? {
        StepFails(obj, kern, box, draws, StepCount(nsteps), step);
        return Failure(rmsd.error);
      }
      TrackAppend(accept, rmsds, xs, rmsd.value, current);
      var accepted := accept(step, rmsd.value, rmsdOld);
      if accepted {
        rmsdOld := rmsd.value;
        if rmsdOld < rmsdBest {
          rmsdBest := rmsdOld;
          xBest := Some(current);
        }
      }
      log := log + [rmsdBest];
      rmsds, xs := rmsds + [rmsd.value], xs + [current];
      PerturbInPlace(x, box.lower, box.upper, Sweep(draws, step));
    }
    assert xs == Trajectory(box.x0, box.lower, box.upper, draws, StepCount(nsteps));
    assert Annealed(obj, kern, box, nsteps, accept, draws) == Success((Log(accept, rmsds, xs), Track(accept, rmsds, xs)));
    return Success((log, Tracker(rmsdOld, rmsdBest, xBest)));
  }

  /**
   * A finished run's optimum is a point the loop evaluated at an accepted
   * step, `rmsd_best` is the objective there and lies below `1e2`, and the
   * log has one entry per step, never rises and ends at `rmsd_best`.
   */
  lemma RunKeepsEvaluatedBest(obj: ObjfuncDihFit, kern: Kernels, box: Box, nsteps: int,
                              accept: (nat, real, real) -> bool, draws: (nat, nat) -> real)
    returns (k: nat)
    requires obj.Valid() && Shaped(box)
    requires RunOutcome(obj, kern, box, nsteps, accept, draws).Success?
    ensures k < StepCount(nsteps)
    ensures RunOutcome(obj, kern, box, nsteps, accept, draws).value.optimum
         == Position(box.x0, box.lower, box.upper, draws, k)
    ensures obj.CallValue(kern, Position(box.x0, box.lower, box.upper, draws, k))
         == Success(RunOutcome(obj, kern, box, nsteps, accept, draws).value.rmsdBest)
    ensures RunOutcome(obj, kern, box, nsteps, accept, draws).value.rmsdBest < 100.0
  {
    var xs := Trajectory(box.x0, box.lower, box.upper, draws, StepCount(nsteps));
    var rmsds := Evaluations(obj, kern, xs).value;
    var t := Track(accept, rmsds, xs);
    TrackKeepsBestParameters(accept, rmsds, xs);
    TrackBindsBest(accept, rmsds, xs);
    TrackBestIsMinimum(accept, rmsds, xs);
    var i :| 0 <= i < |rmsds| && AcceptedAt(accept, rmsds, xs, i) && rmsds[i] == t.rmsdBest && t.xBest == Some(xs[i]);
    var j :| 0 <= j < |rmsds| && AcceptedAt(accept, rmsds, xs, j) && rmsds[j] < 100.0;
    EvaluationsAt(obj, kern, xs, i);
    k := i;
  }

  /** The log of a finished run has one entry per step, never rises, and ends at `rmsd_best`. */
  lemma RunLog(obj: ObjfuncDihFit, kern: Kernels, box: Box, nsteps: int,
               accept: (nat, real, real) -> bool, draws: (nat, nat) -> real)
    requires obj.Valid() && Shaped(box)
    requires RunOutcome(obj, kern, box, nsteps, accept, draws).Success?
    ensures |RunOutcome(obj, kern, box, nsteps, accept, draws).value.log| == StepCount(nsteps) > 0
    ensures forall i, j :: 0 <= i < j < StepCount(nsteps) ==>
              RunOutcome(obj, kern, box, nsteps, accept, draws).value.log[j]
              <= RunOutcome(obj, kern, box, nsteps, accept, draws).value.log[i]
    ensures RunOutcome(obj, kern, box, nsteps, accept, draws).value.log[StepCount(nsteps) - 1]
         == RunOutcome(obj, kern, box, nsteps, accept, draws).value.rmsdBest
  {
    var xs := Trajectory(box.x0, box.lower, box.upper, draws, StepCount(nsteps));
    var rmsds := Evaluations(obj, kern, xs).value;
    LogNonincreasing(accept, rmsds, xs);
  }

  /** `rmsd_best` is at most the objective at every step whose move was accepted. */
  lemma RunBestIsLeast(obj: ObjfuncDihFit, kern: Kernels, box: Box, nsteps: int,
                       accept: (nat, real, real) -> bool, draws: (nat, nat) -> real, i: nat)
    requires obj.Valid() && Shaped(box)
    requires RunOutcome(obj, kern, box, nsteps, accept, draws).Success?
    requires i < StepCount(nsteps)
    requires AcceptedAt(accept, Evaluations(obj, kern, Trajectory(box.x0, box.lower, box.upper, draws, StepCount(nsteps))).value,
                        Trajectory(box.x0, box.lower, box.upper, draws, StepCount(nsteps)), i)
    ensures obj.CallValue(kern, Position(box.x0, box.lower, box.upper, draws, i)).Success?
    ensures RunOutcome(obj, kern, box, nsteps, accept, draws).value.rmsdBest
         <= obj.CallValue(kern, Position(box.x0, box.lower, box.upper, draws, i)).value
  {
    var xs := Trajectory(box.x0, box.lower, box.upper, draws, StepCount(nsteps));
    var rmsds := Evaluations(obj, kern, xs).value;
    TrackBestIsMinimum(accept, rmsds, xs);
    EvaluationsAt(obj, kern, xs, i);
  }

  /**
   * When the evaluations succeed but no accepted RMSD falls below `1e2`,
   * `x_best` is never bound and the run raises UnboundLocalError; in
   * particular a run of no steps always does.
   */
  lemma RunUnbound(obj: ObjfuncDihFit, kern: Kernels, box: Box, nsteps: int,
                   accept: (nat, real, real) -> bool, draws: (nat, nat) -> real)
    requires obj.Valid() && Shaped(box)
    ensures nsteps <= 0 ==> RunOutcome(obj, kern, box, nsteps, accept, draws) == Failure(UnboundLocalError("x_best"))
    ensures Evaluations(obj, kern, Trajectory(box.x0, box.lower, box.upper, draws, StepCount(nsteps))).Success? &&
            (forall i :: 0 <= i < StepCount(nsteps) ==>
               !AcceptedAt(accept, Evaluations(obj, kern, Trajectory(box.x0, box.lower, box.upper, draws, StepCount(nsteps))).value,
                           Trajectory(box.x0, box.lower, box.upper, draws, StepCount(nsteps)), i) ||
               Evaluations(obj, kern, Trajectory(box.x0, box.lower, box.upper, draws, StepCount(nsteps))).value[i] >= 100.0)
            ==> RunOutcome(obj, kern, box, nsteps, accept, draws) == Failure(UnboundLocalError("x_best"))
  {
    var xs := Trajectory(box.x0, box.lower, box.upper, draws, StepCount(nsteps));
    if Evaluations(obj, kern, xs).Success? {
      TrackBindsBest(accept, Evaluations(obj, kern, xs).value, xs);
    }
  }

  /**
   * In a box whose bounds are in order, a start inside it keeps the
   * optimum inside it: every later point was moved and clamped into it.
   */
  lemma RunOptimumInBox(obj: ObjfuncDihFit, kern: Kernels, box: Box, nsteps: int,
                        accept: (nat, real, real) -> bool, draws: (nat, nat) -> real)
    requires obj.Valid() && Shaped(box)
    requires RunOutcome(obj, kern, box, nsteps, accept, draws).Success?
    requires forall i :: 0 <= i < |box.x0| ==> box.lower[i] <= box.x0[i] <= box.upper[i]
    ensures |RunOutcome(obj, kern, box, nsteps, accept, draws).value.optimum| == |box.x0|
    ensures forall i :: 0 <= i < |box.x0| ==>
              box.lower[i] <= RunOutcome(obj, kern, box, nsteps, accept, draws).value.optimum[i] <= box.upper[i]
  {
    var k := RunKeepsEvaluatedBest(obj, kern, box, nsteps, accept, draws);
    if k > 0 {
      PositionInBox(box.x0, box.lower, box.upper, draws, k);
    }
  }
}
