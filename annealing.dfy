/**
 * The bookkeeping of `DihedralFitter.simulated_annealing`, apart from the
 * objective it minimises: the running "current" and "best" RMSD, the copy
 * of the best parameters, the per-step log of the best RMSD, and the
 * clamped random move applied to every parameter after each step.
 *
 * Randomness is a parameter: `accept(step, rmsd, rmsdOld)` is the
 * outcome of the Metropolis test at a step, and `draw(i)` /
 * `draws(step, i)` are the values `random.random()` returned.
 */
module Annealing {
  import opened Outcomes

  /** `rmsd_old`, `rmsd_best` and `x_best`; `None` while `x_best` is still unbound. */
  datatype Tracker = Tracker(rmsdOld: real, rmsdBest: real, xBest: Option<seq<real>>)

  /** Both RMSDs start at `1e2` and no parameters have been kept. */
  const Initial := Tracker(100.0, 100.0, None)

  /**
   * One step's update: an accepted RMSD becomes the current one, and it
   * becomes the best one, with a copy of the parameters, when it is
   * strictly below the best so far.
   */
  function Record(t: Tracker, rmsd: real, accepted: bool, x: seq<real>): (u: Tracker)
    ensures !accepted ==> u == t
    ensures accepted ==> u.rmsdOld == rmsd && u.rmsdBest <= rmsd
    ensures u.rmsdBest <= t.rmsdBest
    ensures u.rmsdBest < t.rmsdBest <==> accepted && rmsd < t.rmsdBest
    ensures u.rmsdBest < t.rmsdBest ==> u.xBest == Some(x)
    ensures u.rmsdBest == t.rmsdBest ==> u.xBest == t.xBest
  {
    if !accepted then t
    else if rmsd < t.rmsdBest then Tracker(rmsd, rmsd, Some(x))
    else t.(rmsdOld := rmsd)
  }

  /**
   * The tracker after the steps whose RMSDs and parameters are given;
   * step `k` (counted from 1, as the source's `step`) is accepted when
   * `accept(k, rmsd, rmsdOld)` holds.
   */
  function Track(accept: (nat, real, real) -> bool, rmsds: seq<real>, xs: seq<seq<real>>): Tracker
    requires |rmsds| == |xs|
  {
    if |rmsds| == 0 then Initial
    else
      var t := Track(accept, rmsds[..|rmsds| - 1], xs[..|xs| - 1]);
      var rmsd := rmsds[|rmsds| - 1];
      Record(t, rmsd, accept(|rmsds|, rmsd, t.rmsdOld), xs[|xs| - 1])
  }

  /** Whether the step with index `i` (step number `i + 1`) was accepted. */
  predicate AcceptedAt(accept: (nat, real, real) -> bool, rmsds: seq<real>, xs: seq<seq<real>>, i: nat)
    requires |rmsds| == |xs| && i < |rmsds|
  {
    accept(i + 1, rmsds[i], Track(accept, rmsds[..i], xs[..i]).rmsdOld)
  }

  /** The best RMSD never exceeds the current one. */
  lemma {:induction false} TrackBestBelowOld(accept: (nat, real, real) -> bool, rmsds: seq<real>, xs: seq<seq<real>>)
    requires |rmsds| == |xs|
    ensures Track(accept, rmsds, xs).rmsdBest <= Track(accept, rmsds, xs).rmsdOld
  {
    if |rmsds| > 0 {
      TrackBestBelowOld(accept, rmsds[..|rmsds| - 1], xs[..|xs| - 1]);
    }
  }

  /** Dropping the last step leaves the earlier steps' prefixes unchanged. */
  lemma PrefixOfPrefix(rmsds: seq<real>, xs: seq<seq<real>>, i: nat)
    requires |rmsds| == |xs| && i < |rmsds|
    ensures rmsds[..|rmsds| - 1][..i] == rmsds[..i] && xs[..|xs| - 1][..i] == xs[..i]
  {
  }

  /**
   * The best RMSD is the minimum of `1e2` and every accepted RMSD: it is
   * at most each of them, and it is `1e2` or one of them.
   */
  lemma {:induction false} TrackBestIsMinimum(accept: (nat, real, real) -> bool, rmsds: seq<real>, xs: seq<seq<real>>)
    requires |rmsds| == |xs|
    ensures Track(accept, rmsds, xs).rmsdBest <= 100.0
    ensures forall i :: 0 <= i < |rmsds| && AcceptedAt(accept, rmsds, xs, i) ==>
              Track(accept, rmsds, xs).rmsdBest <= rmsds[i]
    ensures Track(accept, rmsds, xs).rmsdBest == 100.0 ||
            exists i :: 0 <= i < |rmsds| && AcceptedAt(accept, rmsds, xs, i) &&
                        rmsds[i] == Track(accept, rmsds, xs).rmsdBest
  {
    if |rmsds| > 0 {
      var n := |rmsds| - 1;
      var rs, ys := rmsds[..n], xs[..n];
      TrackBestIsMinimum(accept, rs, ys);
      var best := Track(accept, rmsds, xs).rmsdBest;
      forall i | 0 <= i < |rmsds| && AcceptedAt(accept, rmsds, xs, i)
        ensures best <= rmsds[i]
      {
        if i < n {
          PrefixOfPrefix(rmsds, xs, i);
          assert AcceptedAt(accept, rs, ys, i);
        }
      }
      if best != 100.0 && best != Track(accept, rs, ys).rmsdBest {
        assert AcceptedAt(accept, rmsds, xs, n);
      } else if best != 100.0 {
        var i :| 0 <= i < n && AcceptedAt(accept, rs, ys, i) && rs[i] == best;
        PrefixOfPrefix(rmsds, xs, i);
        assert AcceptedAt(accept, rmsds, xs, i);
      }
    }
  }

  /** An earlier step was accepted in the whole run exactly when it was accepted in the run without the last step. */
  lemma AcceptedAtPrefix(accept: (nat, real, real) -> bool, rmsds: seq<real>, xs: seq<seq<real>>, i: nat)
    requires |rmsds| == |xs| && i < |rmsds| - 1
    ensures AcceptedAt(accept, rmsds, xs, i) == AcceptedAt(accept, rmsds[..|rmsds| - 1], xs[..|xs| - 1], i)
  {
    PrefixOfPrefix(rmsds, xs, i);
  }

  /** `x_best` is bound exactly when some accepted RMSD fell below `1e2`; while it is unbound the best RMSD is still `1e2`. */
  lemma {:induction false} TrackBindsBest(accept: (nat, real, real) -> bool, rmsds: seq<real>, xs: seq<seq<real>>)
    requires |rmsds| == |xs|
    ensures Track(accept, rmsds, xs).xBest.Some? <==>
              exists i :: 0 <= i < |rmsds| && AcceptedAt(accept, rmsds, xs, i) && rmsds[i] < 100.0
    ensures Track(accept, rmsds, xs).xBest.None? ==> Track(accept, rmsds, xs).rmsdBest == 100.0
  {
    if |rmsds| > 0 {
      TrackBindsBest(accept, rmsds[..|rmsds| - 1], xs[..|xs| - 1]);
      AcceptedBelowStep(accept, rmsds, xs);
    }
  }

  /** Some step was accepted with an RMSD below `1e2`. */
  predicate AcceptedBelow(accept: (nat, real, real) -> bool, rmsds: seq<real>, xs: seq<seq<real>>)
    requires |rmsds| == |xs|
  {
    exists i :: 0 <= i < |rmsds| && AcceptedAt(accept, rmsds, xs, i) && rmsds[i] < 100.0
  }

  /** Some accepted RMSD is below `1e2` exactly when one was before the last step, or the last step's is. */
  lemma AcceptedBelowStep(accept: (nat, real, real) -> bool, rmsds: seq<real>, xs: seq<seq<real>>)
    requires |rmsds| == |xs| && |rmsds| > 0
    ensures AcceptedBelow(accept, rmsds, xs) <==>
            (AcceptedBelow(accept, rmsds[..|rmsds| - 1], xs[..|xs| - 1]) ||
             (AcceptedAt(accept, rmsds, xs, |rmsds| - 1) && rmsds[|rmsds| - 1] < 100.0))
  {
    var n := |rmsds| - 1;
    var rs, ys := rmsds[..n], xs[..n];
    if AcceptedBelow(accept, rs, ys) {
      var i :| 0 <= i < n && AcceptedAt(accept, rs, ys, i) && rs[i] < 100.0;
      AcceptedAtPrefix(accept, rmsds, xs, i);
      assert AcceptedAt(accept, rmsds, xs, i) && rmsds[i] < 100.0;
    }
    if AcceptedBelow(accept, rmsds, xs) {
      var i :| 0 <= i < |rmsds| && AcceptedAt(accept, rmsds, xs, i) && rmsds[i] < 100.0;
      if i < n {
        AcceptedAtPrefix(accept, rmsds, xs, i);
        assert AcceptedAt(accept, rs, ys, i) && rs[i] < 100.0;
      }
    }
  }


  /** A bound `x_best` holds the parameters of an accepted step whose RMSD is the best one. */
  lemma {:induction false} TrackKeepsBestParameters(accept: (nat, real, real) -> bool, rmsds: seq<real>,
                                                    xs: seq<seq<real>>)
    requires |rmsds| == |xs|
    ensures Track(accept, rmsds, xs).xBest.Some? ==>
              exists i :: 0 <= i < |rmsds| && AcceptedAt(accept, rmsds, xs, i) &&
                          rmsds[i] == Track(accept, rmsds, xs).rmsdBest &&
                          Track(accept, rmsds, xs).xBest == Some(xs[i])
  {
    if |rmsds| > 0 {
      var n := |rmsds| - 1;
      var rs, ys := rmsds[..n], xs[..n];
      var t, u := Track(accept, rs, ys), Track(accept, rmsds, xs);
      if u.xBest.Some? {
        if u.rmsdBest < t.rmsdBest {
          assert AcceptedAt(accept, rmsds, xs, n);
        } else {
          TrackKeepsBestParameters(accept, rs, ys);
          var i :| 0 <= i < n && AcceptedAt(accept, rs, ys, i) && rs[i] == t.rmsdBest && t.xBest == Some(ys[i]);
          AcceptedAtPrefix(accept, rmsds, xs, i);
        }
      }
    }
  }

  /** What the log file receives: the best RMSD after every step. */
  function Log(accept: (nat, real, real) -> bool, rmsds: seq<real>, xs: seq<seq<real>>): (log: seq<real>)
    requires |rmsds| == |xs|
    ensures |log| == |rmsds|
  {
    if |rmsds| == 0 then []
    else Log(accept, rmsds[..|rmsds| - 1], xs[..|xs| - 1]) + [Track(accept, rmsds, xs).rmsdBest]
  }

  /** The logged best RMSD never rises, never exceeds `1e2`, and ends at the final best. */
  lemma {:induction false} LogNonincreasing(accept: (nat, real, real) -> bool, rmsds: seq<real>, xs: seq<seq<real>>)
    requires |rmsds| == |xs|
    ensures forall i, j :: 0 <= i < j < |rmsds| ==> Log(accept, rmsds, xs)[j] <= Log(accept, rmsds, xs)[i]
    ensures forall i :: 0 <= i < |rmsds| ==> Log(accept, rmsds, xs)[i] <= 100.0
    ensures |rmsds| > 0 ==> Log(accept, rmsds, xs)[|rmsds| - 1] == Track(accept, rmsds, xs).rmsdBest
  {
    if |rmsds| > 0 {
      var n := |rmsds| - 1;
      var rs, ys := rmsds[..n], xs[..n];
      LogNonincreasing(accept, rs, ys);
      TrackBestIsMinimum(accept, rs, ys);
      var log := Log(accept, rmsds, xs);
      var earlier := Log(accept, rs, ys);
      assert log == earlier + [Track(accept, rmsds, xs).rmsdBest];
      assert n > 0 ==> earlier[n - 1] == Track(accept, rs, ys).rmsdBest;
      forall i, j | 0 <= i < j < |rmsds|
        ensures log[j] <= log[i]
      {
        if j < n {
          assert log[i] == earlier[i] && log[j] == earlier[j];
        } else {
          assert log[i] == earlier[i];
          assert earlier[i] >= earlier[n - 1] || i == n - 1;
        }
      }
    }
  }

  /** Python's `max(a, b)`: the first argument unless the second is larger. */
  function PyMax(a: real, b: real): real
  {
    if b > a then b else a
  }

  /** Python's `min(a, b)`: the first argument unless the second is smaller. */
  function PyMin(a: real, b: real): real
  {
    if b < a then b else a
  }

  /** `random.uniform(a, b)` given the value `u` of `random.random()`. */
  function Uniform(a: real, b: real, u: real): real
  {
    a + (b - a) * u
  }

  /**
   * One parameter's move: a uniform step of at most a quarter of the box
   * width, then `max(lower, .)` and `min(upper, .)`.
   */
  function Moved(lower: real, upper: real, v: real, u: real): real
  {
    var maxMove := 0.25 * (upper - lower);
    PyMin(upper, PyMax(lower, v + Uniform(-maxMove, maxMove, u)))
  }

  /** In a box whose bounds are in order the move stays inside it; otherwise the upper bound wins. */
  lemma MovedInBox(lower: real, upper: real, v: real, u: real)
    ensures lower <= upper ==> lower <= Moved(lower, upper, v, u) <= upper
    ensures Moved(lower, upper, v, u) <= upper
    ensures upper < lower ==> Moved(lower, upper, v, u) == upper
  {
  }

  /** From inside the box, with `random.random()` in [0, 1], a move is at most a quarter of the box width. */
  lemma MovedStepBounded(lower: real, upper: real, v: real, u: real)
    requires lower <= v <= upper && 0.0 <= u <= 1.0
    ensures -0.25 * (upper - lower) <= Moved(lower, upper, v, u) - v <= 0.25 * (upper - lower)
  {
    var m := 0.25 * (upper - lower);
    assert 0.0 <= m;
    assert -m <= Uniform(-m, m, u) <= m by {
      assert Uniform(-m, m, u) == -m + 2.0 * m * u;
      assert 0.0 <= 2.0 * m * u <= 2.0 * m by {
        assert 2.0 * m * u <= 2.0 * m * 1.0 by {
          assert 2.0 * m * (1.0 - u) >= 0.0;
        }
      }
    }
  }

  /** The whole parameter vector after one sweep of moves, `draw(i)` being parameter `i`'s draw. */
  function Perturbed(x: seq<real>, lower: seq<real>, upper: seq<real>, draw: nat -> real): (y: seq<real>)
    requires |lower| >= |x| && |upper| >= |x|
    ensures |y| == |x|
  {
    seq(|x|, i requires 0 <= i < |x| => Moved(lower[i], upper[i], x[i], draw(i)))
  }

  /** After a sweep every parameter lies in its box, whatever it was before. */
  lemma PerturbedInBox(x: seq<real>, lower: seq<real>, upper: seq<real>, draw: nat -> real)
    requires |lower| >= |x| && |upper| >= |x|
    requires forall i :: 0 <= i < |x| ==> lower[i] <= upper[i]
    ensures forall i :: 0 <= i < |x| ==> lower[i] <= Perturbed(x, lower, upper, draw)[i] <= upper[i]
  {
    forall i | 0 <= i < |x|
      ensures lower[i] <= Perturbed(x, lower, upper, draw)[i] <= upper[i]
    {
      MovedInBox(lower[i], upper[i], x[i], draw(i));
    }
  }

  /** The inner `for i in range(len(x))` loop, which moves the array in place. */
  method PerturbInPlace(x: array<real>, lower: seq<real>, upper: seq<real>, draw: nat -> real)
    requires |lower| >= x.Length && |upper| >= x.Length
    modifies x
    ensures x[..] == Perturbed(old(x[..]), lower, upper, draw)
  {
    ghost var before := x[..];
    for i := 0 to x.Length
      invariant x[..i] == Perturbed(before, lower, upper, draw)[..i]
      invariant x[i..] == before[i..]
    {
      var maxMove := 0.25 * (upper[i] - lower[i]);
      assert x[i] == before[i] by {
        assert x[i..][0] == before[i..][0];
      }
      x[i] := x[i] + Uniform(-maxMove, maxMove, draw(i));
      x[i] := PyMax(lower[i], x[i]);
      x[i] := PyMin(upper[i], x[i]);
      assert x[..i + 1] == Perturbed(before, lower, upper, draw)[..i + 1] by {
        assert x[..i + 1] == x[..i] + [x[i]];
      }
    }
  }

  /** The draws of the sweep that ends step `k`. */
  function Sweep(draws: (nat, nat) -> real, k: nat): nat -> real
  {
    (i: nat) => draws(k, i)
  }

  /**
   * The parameters when step `k + 1` evaluates the objective: the start
   * after `k` sweeps, sweep `s` using `draws(s, .)`.
   */
  function Position(x0: seq<real>, lower: seq<real>, upper: seq<real>, draws: (nat, nat) -> real, k: nat): (x: seq<real>)
    requires |lower| >= |x0| && |upper| >= |x0|
    ensures |x| == |x0|
  {
    if k == 0 then x0
    else Perturbed(Position(x0, lower, upper, draws, k - 1), lower, upper, Sweep(draws, k))
  }

  /** The parameters evaluated by the first `n` steps. */
  function Trajectory(x0: seq<real>, lower: seq<real>, upper: seq<real>, draws: (nat, nat) -> real, n: nat): (xs: seq<seq<real>>)
    requires |lower| >= |x0| && |upper| >= |x0|
    ensures |xs| == n
    ensures forall k :: 0 <= k < n ==> xs[k] == Position(x0, lower, upper, draws, k)
  {
    seq(n, k requires 0 <= k < n => Position(x0, lower, upper, draws, k))
  }

  /** Every position after the first sweep lies in the box. */
  lemma PositionInBox(x0: seq<real>, lower: seq<real>, upper: seq<real>, draws: (nat, nat) -> real, k: nat)
    requires |lower| == |x0| && |upper| == |x0|
    requires forall i :: 0 <= i < |x0| ==> lower[i] <= upper[i]
    requires k > 0
    ensures forall i :: 0 <= i < |x0| ==> lower[i] <= Position(x0, lower, upper, draws, k)[i] <= upper[i]
  {
    PerturbedInBox(Position(x0, lower, upper, draws, k - 1), lower, upper, Sweep(draws, k));
  }

  /** Python's `max(s)` on a nonempty list: the first element, replaced by every larger one. */
  function Largest(s: seq<real>): (m: real)
    requires |s| > 0
    ensures forall i :: 0 <= i < |s| ==> s[i] <= m
    ensures exists i :: 0 <= i < |s| && s[i] == m
  {
    if |s| == 1 then s[0]
    else
      var m := Largest(s[..|s| - 1]);
      assert forall i :: 0 <= i < |s| - 1 ==> s[..|s| - 1][i] == s[i];
      PyMax(m, s[|s| - 1])
  }

  /** Python's `min(s)` on a nonempty list: the first element, replaced by every smaller one. */
  function Smallest(s: seq<real>): (m: real)
    requires |s| > 0
    ensures forall i :: 0 <= i < |s| ==> m <= s[i]
    ensures exists i :: 0 <= i < |s| && s[i] == m
  {
    if |s| == 1 then s[0]
    else
      var m := Smallest(s[..|s| - 1]);
      assert forall i :: 0 <= i < |s| - 1 ==> s[..|s| - 1][i] == s[i];
      PyMin(m, s[|s| - 1])
  }

  /**
   * `np.random.uniform(low=max(lower), high=min(upper), size=dimension)`,
   * `startDraw(i)` being the draw of parameter `i`.
   */
  function RandomStart(lower: seq<real>, upper: seq<real>, dimension: nat, startDraw: nat -> real): (x: seq<real>)
    requires |lower| > 0 && |upper| > 0
    ensures |x| == dimension
  {
    seq(dimension, i requires 0 <= i < dimension => Uniform(Largest(lower), Smallest(upper), startDraw(i)))
  }

  /**
   * With draws in [0, 1] and the largest lower bound below the smallest
   * upper bound, every random start value lies inside every coordinate's box.
   */
  lemma RandomStartInBox(lower: seq<real>, upper: seq<real>, dimension: nat, startDraw: nat -> real)
    requires |lower| > 0 && |upper| > 0
    requires Largest(lower) <= Smallest(upper)
    requires forall i :: 0 <= i < dimension ==> 0.0 <= startDraw(i) <= 1.0
    ensures forall i, j :: 0 <= i < dimension && 0 <= j < |lower| ==>
              lower[j] <= RandomStart(lower, upper, dimension, startDraw)[i]
    ensures forall i, j :: 0 <= i < dimension && 0 <= j < |upper| ==>
              RandomStart(lower, upper, dimension, startDraw)[i] <= upper[j]
  {
    var lo, hi := Largest(lower), Smallest(upper);
    var x := RandomStart(lower, upper, dimension, startDraw);
    forall i | 0 <= i < dimension
      ensures lo <= x[i] <= hi
    {
      UniformBetween(lo, hi, startDraw(i));
    }
  }

  /** `random.uniform(a, b)` lies between `a` and `b` when the draw is in [0, 1]. */
  lemma UniformBetween(a: real, b: real, u: real)
    requires a <= b && 0.0 <= u <= 1.0
    ensures a <= Uniform(a, b, u) <= b
  {
    var d := b - a;
    ProductNonnegative(d, u);
    ProductNonnegative(d, 1.0 - u);
    assert d * (1.0 - u) == d - d * u;
  }

  lemma ProductNonnegative(x: real, y: real)
    requires 0.0 <= x && 0.0 <= y
    ensures 0.0 <= x * y
  {
  }
}
