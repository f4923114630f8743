/**
 * The numerical building blocks of the fit: the cosine-series torsion
 * energy (`mm_energy`), the sample weights (`generate_weights`), the
 * weighted RMSD (`rmsd_qm_mm`) and numpy's in-place `+=` on energy series.
 * Cosine, exponential and square root stay uninterpreted: they are the
 * function values of a `Kernels` record, and the model fixes everything
 * around them (which samples and terms are combined, shifts, clamps,
 * branches and the exceptions raised).
 */
module Numerics {
  import opened Outcomes

  /** The floating-point kernels the model leaves uninterpreted. */
  datatype Kernels = Kernels(
    // (m, angle) |-> 1 + cos(m * pi * angle / 180), the angle in degrees
    torsion: (int, real) -> real,
    // (e, temperature) |-> exp(-1.0 * e / (0.001987 * temperature))
    boltzmann: (real, real) -> real,
    // (qm, mm, weights, weight_guided) |-> sqrt of the weighted mean square
    // deviation of two zero-minimum series, with the weighted-mean offset
    // removed when weight_guided holds and no offset otherwise
    weightedRmsd: (seq<real>, seq<real>, seq<real>, bool) -> real
  )

  /** The minimum of a non-empty series, `np.min`. */
  function Min(s: seq<real>): (m: real)
    requires |s| > 0
    ensures forall i :: 0 <= i < |s| ==> m <= s[i]
    ensures exists i :: 0 <= i < |s| && s[i] == m
  {
    if |s| == 1 then s[0]
    else
      var rest := Min(s[1..]);
      assert forall i :: 1 <= i < |s| ==> s[i] == s[1..][i - 1];
      if s[0] <= rest then s[0] else rest
  }

  /** Every sample of `s` moved by the same constant `c`. */
  function AddConstant(s: seq<real>, c: real): (r: seq<real>)
    ensures |r| == |s|
  {
    seq(|s|, i requires 0 <= i < |s| => s[i] + c)
  }

  lemma MinOfShifted(s: seq<real>, c: real)
    requires |s| > 0
    ensures Min(AddConstant(s, c)) == Min(s) + c
  {
    var t := AddConstant(s, c);
    var i :| 0 <= i < |s| && s[i] == Min(s);
    var j :| 0 <= j < |t| && t[j] == Min(t);
    assert Min(t) <= t[i];
    assert Min(s) <= s[j];
  }

  /** `s - s.min()`; the minimum of an empty array raises ValueError. */
  function ShiftToZero(s: seq<real>): (r: Result<seq<real>>)
    ensures r.Success? <==> |s| > 0
    ensures r.Success? ==> |r.value| == |s|
    ensures r.Success? ==> forall i :: 0 <= i < |s| ==> r.value[i] >= 0.0
    ensures r.Success? ==> exists i :: 0 <= i < |s| && r.value[i] == 0.0
  {
    if |s| == 0 then Failure(ValueError("zero-size array to reduction operation minimum"))
    else
      var m := Min(s);
      var r := seq(|s|, i requires 0 <= i < |s| => s[i] - m);
      assert exists i :: 0 <= i < |s| && r[i] == 0.0 by {
        var i :| 0 <= i < |s| && s[i] == m;
        assert r[i] == 0.0;
      }
      Success(r)
  }

  /** Shifting to zero minimum forgets any constant added beforehand. */
  lemma ShiftToZeroForgetsConstant(s: seq<real>, c: real)
    ensures ShiftToZero(AddConstant(s, c)) == ShiftToZero(s)
  {
    if |s| > 0 {
      MinOfShifted(s, c);
      var t := AddConstant(s, c);
      assert ShiftToZero(t).value == ShiftToZero(s).value by {
        forall i | 0 <= i < |s|
          ensures ShiftToZero(t).value[i] == ShiftToZero(s).value[i]
        {
          assert ShiftToZero(t).value[i] == t[i] - Min(t);
        }
      }
    }
  }

  /** The energy of one sample: `k[i] * (1 + cos(m[i] * angle))` summed over `zip(ks, ms)`. */
  function TermSum(kern: Kernels, angle: real, ks: seq<real>, ms: seq<int>): real
  {
    if |ks| == 0 || |ms| == 0 then 0.0
    else ks[0] * kern.torsion(ms[0], angle) + TermSum(kern, angle, ks[1..], ms[1..])
  }

  /** `mm_energy(dihedrals, ks, ms)`: one energy per sampled angle. */
  function MmEnergy(kern: Kernels, dihedrals: seq<real>, ks: seq<real>, ms: seq<int>): (e: seq<real>)
    ensures |e| == |dihedrals|
  {
    seq(|dihedrals|, n requires 0 <= n < |dihedrals| => TermSum(kern, dihedrals[n], ks, ms))
  }

  /** Only the first `min(len(ks), len(ms))` terms contribute, as `zip` stops at the shorter list. */
  lemma {:induction false} TermSumZip(kern: Kernels, angle: real, ks: seq<real>, ms: seq<int>, n: nat)
    requires n == if |ks| <= |ms| then |ks| else |ms|
    ensures TermSum(kern, angle, ks, ms) == TermSum(kern, angle, ks[..n], ms[..n])
  {
    if n > 0 {
      assert ks[..n][1..] == ks[1..][..n - 1];
      assert ms[..n][1..] == ms[1..][..n - 1];
      TermSumZip(kern, angle, ks[1..], ms[1..], n - 1);
    }
  }

  /** All-zero force constants give an all-zero energy series, whatever the angles and multiplicities. */
  lemma {:induction false} TermSumOfZeroConstants(kern: Kernels, angle: real, ks: seq<real>, ms: seq<int>)
    requires forall i :: 0 <= i < |ks| ==> ks[i] == 0.0
    ensures TermSum(kern, angle, ks, ms) == 0.0
  {
    if |ks| > 0 && |ms| > 0 {
      TermSumOfZeroConstants(kern, angle, ks[1..], ms[1..]);
    }
  }

  lemma MmEnergyOfZeroConstants(kern: Kernels, dihedrals: seq<real>, ks: seq<real>, ms: seq<int>)
    requires forall i :: 0 <= i < |ks| ==> ks[i] == 0.0
    ensures MmEnergy(kern, dihedrals, ks, ms) == seq(|dihedrals|, n => 0.0)
  {
    forall n | 0 <= n < |dihedrals|
      ensures MmEnergy(kern, dihedrals, ks, ms)[n] == 0.0
    {
      TermSumOfZeroConstants(kern, dihedrals[n], ks, ms);
    }
  }

  /** numpy's message when the operands of an elementwise operation do not broadcast. */
  const BroadcastMessage := "operands could not be broadcast together"

  /**
   * numpy's in-place `a += b` on one-dimensional arrays: elementwise when
   * the lengths agree, broadcast when `b` has one element, otherwise a
   * ValueError (an in-place operation cannot change the shape of `a`).
   */
  function AddInPlace(a: seq<real>, b: seq<real>): (r: Result<seq<real>>)
    ensures r.Success? <==> |b| == |a| || |b| == 1
    ensures r.Failure? ==> r.error == ValueError(BroadcastMessage)
    ensures r.Success? ==> |r.value| == |a|
    ensures r.Success? ==> forall i :: 0 <= i < |a| ==>
      r.value[i] == a[i] + (if |b| == |a| then b[i] else b[0])
  {
    if |b| == |a| then Success(seq(|a|, i requires 0 <= i < |a| => a[i] + b[i]))
    else if |b| == 1 then Success(seq(|a|, i requires 0 <= i < |a| => a[i] + b[0]))
    else Failure(ValueError(BroadcastMessage))
  }

  /** `np.minimum(s, cutoff)` when a cutoff is configured. */
  function ClampAbove(s: seq<real>, cutoff: Option<real>): (r: seq<real>)
    ensures |r| == |s|
    ensures forall i :: 0 <= i < |s| ==> r[i] <= s[i]
    ensures cutoff.Some? ==> forall i :: 0 <= i < |s| ==> r[i] <= cutoff.value
  {
    match cutoff
    case None => s
    case Some(c) => seq(|s|, i requires 0 <= i < |s| => if s[i] <= c then s[i] else c)
  }

  /** The ways `generate_weights` can raise, in the order it checks them. */
  predicate WeightsRaise(e: seq<real>, cross: seq<real>, criterion: string,
                         cutoff: Option<real>, extraWeights: Option<seq<real>>)
  {
    || |e| == 0
    || |cross| == 0
    || (criterion != "cross" && criterion != "boltzmann" && criterion != "uniform")
    || (criterion == "cross" && |cross| != |e|)
    || ((criterion == "cross" || criterion == "boltzmann") && cutoff.Some? && !(cutoff.value > 0.0))
    || (extraWeights.Some? && |extraWeights.value| != |e|)
  }

  /** The criterion's weights for two series already shifted to a zero minimum. */
  function CriterionWeights(kern: Kernels, s: seq<real>, sc: seq<real>, criterion: string,
                            cutoff: Option<real>, temperature: real): Result<seq<real>>
  {
    if criterion == "cross" then
      if |sc| != |s| then Failure(AssertionError("energy_series_cross.shape == energy_series.shape"))
      else if cutoff.Some? && !(cutoff.value > 0.0) then Failure(AssertionError("cutoff > 0"))
      else
        var a, b := ClampAbove(s, cutoff), ClampAbove(sc, cutoff);
        Success(seq(|s|, i requires 0 <= i < |s| =>
          kern.boltzmann(a[i], temperature) + kern.boltzmann(b[i], temperature)))
    else if criterion == "boltzmann" then
      if cutoff.Some? && !(cutoff.value > 0.0) then Failure(AssertionError("cutoff > 0"))
      else
        var a := ClampAbove(s, cutoff);
        Success(seq(|s|, i requires 0 <= i < |s| => kern.boltzmann(a[i], temperature)))
    else if criterion == "uniform" then
      Success(seq(|s|, i => 1.0))
    else Failure(UnknownCriterion(criterion))
  }

  /**
   * `generate_weights(e, cross, criterion, cutoff, temperature, extra_weights)`.
   * Both series are shifted to a zero minimum first; "cross" adds the
   * Boltzmann factors of both, "boltzmann" uses `e` alone, "uniform" gives
   * ones, and extra weights multiply the result elementwise.
   */
  function GenerateWeights(kern: Kernels, e: seq<real>, cross: seq<real>, criterion: string,
                           cutoff: Option<real>, temperature: real,
                           extraWeights: Option<seq<real>>): (r: Result<seq<real>>)
    ensures r.Success? <==> !WeightsRaise(e, cross, criterion, cutoff, extraWeights)
    ensures r.Success? ==> |r.value| == |e|
  {
    match ShiftToZero(e)
    case Failure(err) => Failure(err)
    case Success(s) =>
      match ShiftToZero(cross)
      case Failure(err) => Failure(err)
      case Success(sc) =>
        match CriterionWeights(kern, s, sc, criterion, cutoff, temperature)
        case Failure(err) => Failure(err)
        case Success(ws) =>
          match extraWeights
          case None => Success(ws)
          case Some(x) =>
            if |x| != |ws| then Failure(AssertionError("w.shape == extra_weights.shape"))
            else Success(seq(|ws|, i requires 0 <= i < |ws| => ws[i] * x[i]))
  }

  /** The "uniform" criterion without extra weights gives weight 1 to every sample. */
  lemma UniformWeightsAreOnes(kern: Kernels, e: seq<real>, cross: seq<real>,
                              cutoff: Option<real>, temperature: real)
    requires |e| > 0 && |cross| > 0
    ensures GenerateWeights(kern, e, cross, "uniform", cutoff, temperature, None)
         == Success(seq(|e|, i => 1.0))
  {
  }

  /**
   * The weights depend on the energies only relative to their minima:
   * adding a constant to either series leaves them unchanged.
   */
  lemma WeightsShiftInvariant(kern: Kernels, e: seq<real>, cross: seq<real>, c: real, d: real,
                              criterion: string, cutoff: Option<real>, temperature: real,
                              extraWeights: Option<seq<real>>)
    ensures GenerateWeights(kern, AddConstant(e, c), AddConstant(cross, d), criterion, cutoff, temperature, extraWeights)
         == GenerateWeights(kern, e, cross, criterion, cutoff, temperature, extraWeights)
  {
    ShiftToZeroForgetsConstant(e, c);
    ShiftToZeroForgetsConstant(cross, d);
  }

  /** The "cross" criterion treats its two series symmetrically. */
  lemma CrossWeightsSymmetric(kern: Kernels, e: seq<real>, cross: seq<real>, cutoff: Option<real>,
                              temperature: real, extraWeights: Option<seq<real>>)
    requires |e| == |cross|
    ensures GenerateWeights(kern, e, cross, "cross", cutoff, temperature, extraWeights)
         == GenerateWeights(kern, cross, e, "cross", cutoff, temperature, extraWeights)
  {
    if |e| > 0 {
      var s, sc := ShiftToZero(e).value, ShiftToZero(cross).value;
      var w1 := CriterionWeights(kern, s, sc, "cross", cutoff, temperature);
      var w2 := CriterionWeights(kern, sc, s, "cross", cutoff, temperature);
      if w1.Success? {
        assert w1.value == w2.value by {
          forall i | 0 <= i < |s|
            ensures w1.value[i] == w2.value[i]
          {
          }
        }
      }
    }
  }

  /** numpy broadcasts two one-dimensional operands of lengths `a` and `b` when they agree or one of them is 1. */
  predicate Broadcasts(a: nat, b: nat)
  {
    a == b || a == 1 || b == 1
  }

  /** The length of the result of a broadcasting elementwise operation. */
  function BroadcastLength(a: nat, b: nat): (n: nat)
    requires Broadcasts(a, b)
    ensures n == a || n == b
    ensures a > 0 && b > 0 ==> n >= a && n >= b
  {
    if a == 1 then b else a
  }

  /**
   * `rmsd_qm_mm(e1, e2, weights, offset_method)`: both series are shifted
   * to a zero minimum; "weight_guided" multiplies the weights by the second,
   * then by the first shifted series; the difference of the series is taken
   * before `offset` is read, so an unknown method fails there unless the
   * subtraction already failed; last the weights multiply the squared
   * difference. Every elementwise product or difference whose operands do
   * not broadcast raises ValueError.
   */
  function RmsdQmMm(kern: Kernels, e1: seq<real>, e2: seq<real>, weights: seq<real>,
                    offsetMethod: string): (r: Result<real>)
    ensures r.Success? <==> |e1| > 0 && |e2| > 0
                            && (offsetMethod == "global_min" || offsetMethod == "weight_guided")
                            && Broadcasts(|e1|, |e2|)
                            && Broadcasts(|weights|, BroadcastLength(|e1|, |e2|))
    ensures r.Failure? && |e1| > 0 && |e2| > 0 ==>
              (r.error == UnboundLocalError("offset") <==>
                 Broadcasts(|e1|, |e2|) && offsetMethod != "global_min" && offsetMethod != "weight_guided")
    ensures r.Failure? && |e1| > 0 && |e2| > 0 && r.error != UnboundLocalError("offset")
            ==> r.error == ValueError(BroadcastMessage)
  {
    match ShiftToZero(e1)
    case Failure(err) => Failure(err)
    case Success(s1) =>
      match ShiftToZero(e2)
      case Failure(err) => Failure(err)
      case Success(s2) =>
        if offsetMethod == "weight_guided" && !Broadcasts(|weights|, |s2|) then
          Failure(ValueError(BroadcastMessage))
        else if offsetMethod == "weight_guided" && !Broadcasts(|weights|, |s1|) then
          Failure(ValueError(BroadcastMessage))
        else if !Broadcasts(|s1|, |s2|) then Failure(ValueError(BroadcastMessage))
        else if offsetMethod != "global_min" && offsetMethod != "weight_guided" then
          Failure(UnboundLocalError("offset"))
        else if !Broadcasts(|weights|, BroadcastLength(|s1|, |s2|)) then
          Failure(ValueError(BroadcastMessage))
        else Success(kern.weightedRmsd(s1, s2, weights, offsetMethod == "weight_guided"))
  }

  /** The RMSD compares the curves only up to a constant added to either of them. */
  lemma RmsdShiftInvariant(kern: Kernels, e1: seq<real>, e2: seq<real>, weights: seq<real>,
                           offsetMethod: string, c: real, d: real)
    ensures RmsdQmMm(kern, AddConstant(e1, c), AddConstant(e2, d), weights, offsetMethod)
         == RmsdQmMm(kern, e1, e2, weights, offsetMethod)
  {
    ShiftToZeroForgetsConstant(e1, c);
    ShiftToZeroForgetsConstant(e2, d);
  }

  /** Identical curves are compared as identical shifted series, whatever their baselines. */
  lemma RmsdComparesShiftedCurves(kern: Kernels, e: seq<real>, c: real, weights: seq<real>)
    requires |e| > 0
    ensures !Broadcasts(|weights|, |e|) ==>
              RmsdQmMm(kern, e, AddConstant(e, c), weights, "global_min")
              == Failure(ValueError(BroadcastMessage))
    ensures Broadcasts(|weights|, |e|) ==>
              RmsdQmMm(kern, e, AddConstant(e, c), weights, "global_min")
              == Success(kern.weightedRmsd(ShiftToZero(e).value, ShiftToZero(e).value, weights, false))
  {
    ShiftToZeroForgetsConstant(e, c);
  }
}
