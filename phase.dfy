/**
 * Phase restrictions on force constants. A restriction `p` is -1 (the
 * term's phase must be 0 degrees, i.e. k >= 0), 1 (180 degrees, k < 0) or
 * 0 (unrestricted). The source walks the lists with `zip`, so only the
 * first `min` of their lengths are inspected.
 */
module Phase {

  /** The shorter of two lengths, where `zip` stops. */
  function Min2(a: nat, b: nat): nat
  {
    if a <= b then a else b
  }

  /** `phase_penalty`'s test: the term is charged unless `p * k <= 0 or p == 0`. */
  predicate Charged(p: int, k: real)
  {
    !((p as real) * k <= 0.0 || p == 0)
  }

  /** The penalty of the first `n` terms: `f * k**2` for each charged term. */
  function PenaltyUpTo(ps: seq<int>, ks: seq<real>, fs: seq<real>, n: nat): real
    requires n <= |ps| && n <= |ks| && n <= |fs|
  {
    if n == 0 then 0.0
    else
      var i := n - 1;
      PenaltyUpTo(ps, ks, fs, i) + (if Charged(ps[i], ks[i]) then fs[i] * (ks[i] * ks[i]) else 0.0)
  }

  /** The value of `phase_penalty(ps, ks, fs)`. */
  function Penalty(ps: seq<int>, ks: seq<real>, fs: seq<real>): real
  {
    PenaltyUpTo(ps, ks, fs, Min2(Min2(|ps|, |ks|), |fs|))
  }

  /** `phase_penalty(phase_allowed, k, pforce)`. */
  method PhasePenalty(phaseAllowed: seq<int>, k: seq<real>, pforce: seq<real>) returns (penalty: real)
    ensures penalty == Penalty(phaseAllowed, k, pforce)
  {
    var n := Min2(Min2(|phaseAllowed|, |k|), |pforce|);
    penalty := 0.0;
    for i := 0 to n
      invariant penalty == PenaltyUpTo(phaseAllowed, k, pforce, i)
    {
      var p, ki, f := phaseAllowed[i], k[i], pforce[i];
      if (p as real) * ki <= 0.0 || p == 0 {
      } else {
        penalty := penalty + f * (ki * ki);
      }
    }
  }

  /** Nothing is charged when no inspected term is: every `p` is 0 or every `p * k <= 0`. */
  lemma {:induction false} PenaltyZeroWhenNothingCharged(ps: seq<int>, ks: seq<real>, fs: seq<real>, n: nat)
    requires n <= |ps| && n <= |ks| && n <= |fs|
    requires forall i :: 0 <= i < n ==> !Charged(ps[i], ks[i])
    ensures PenaltyUpTo(ps, ks, fs, n) == 0.0
  {
    if n > 0 {
      PenaltyZeroWhenNothingCharged(ps, ks, fs, n - 1);
    }
  }

  /** Unrestricted terms are never penalised. */
  lemma PenaltyZeroWhenUnrestricted(ps: seq<int>, ks: seq<real>, fs: seq<real>)
    requires forall i :: 0 <= i < |ps| ==> ps[i] == 0
    ensures Penalty(ps, ks, fs) == 0.0
  {
    PenaltyZeroWhenNothingCharged(ps, ks, fs, Min2(Min2(|ps|, |ks|), |fs|));
  }

  lemma SquareNonnegative(f: real, k: real)
    requires f >= 0.0
    ensures f * (k * k) >= 0.0
    ensures f > 0.0 && k != 0.0 ==> f * (k * k) > 0.0
  {
    assert k * k >= 0.0;
    assert k != 0.0 ==> k * k > 0.0;
  }

  /**
   * With nonnegative restraint forces the penalty is nonnegative; with
   * positive forces it is positive exactly when some inspected term is charged.
   */
  lemma {:induction false} PenaltySign(ps: seq<int>, ks: seq<real>, fs: seq<real>, n: nat)
    requires n <= |ps| && n <= |ks| && n <= |fs|
    requires forall i :: 0 <= i < n ==> fs[i] >= 0.0
    ensures PenaltyUpTo(ps, ks, fs, n) >= 0.0
    ensures (forall i :: 0 <= i < n ==> fs[i] > 0.0) ==>
              (PenaltyUpTo(ps, ks, fs, n) > 0.0 <==> exists i :: 0 <= i < n && Charged(ps[i], ks[i]))
  {
    if n > 0 {
      var i := n - 1;
      PenaltySign(ps, ks, fs, i);
      SquareNonnegative(fs[i], ks[i]);
      if Charged(ps[i], ks[i]) {
        assert ks[i] != 0.0;
      }
    }
  }

  /** A charged term is one whose force constant implies the phase its restriction forbids. */
  lemma ChargedIffWrongPhase(p: int, k: real)
    requires p == -1 || p == 1
    requires k != 0.0
    ensures Charged(p, k) <==> PhaseOf(k) != RequiredPhase(p)
  {
  }

  /** The phase a restriction demands: -1 asks for 0 degrees, 1 for 180 degrees. */
  function RequiredPhase(p: int): real
    requires p == -1 || p == 1
  {
    if p == -1 then 0.0 else 180.0
  }

  /** The phase a force constant implies: 0 degrees for `k >= 0`, 180 otherwise. */
  function PhaseOf(k: real): real
  {
    if k >= 0.0 then 0.0 else 180.0
  }

  /** The value of `phase_from_k(ks)`. */
  function Phases(ks: seq<real>): (phases: seq<real>)
    ensures |phases| == |ks|
    ensures forall i :: 0 <= i < |ks| ==> phases[i] == 0.0 || phases[i] == 180.0
    ensures forall i :: 0 <= i < |ks| ==> (phases[i] == 180.0 <==> ks[i] < 0.0)
  {
    seq(|ks|, i requires 0 <= i < |ks| => PhaseOf(ks[i]))
  }

  /** `phase_from_k(k_list)`. */
  method PhaseFromK(kList: seq<real>) returns (phaseList: seq<real>)
    ensures phaseList == Phases(kList)
  {
    phaseList := [];
    for i := 0 to |kList|
      invariant phaseList == Phases(kList)[..i]
    {
      if kList[i] >= 0.0 {
        phaseList := phaseList + [0.0];
      } else {
        phaseList := phaseList + [180.0];
      }
    }
  }

  function Abs(k: real): real
  {
    if k >= 0.0 then k else -k
  }

  /** One element of `k_correct_phase`: `abs(k)` if `p * k <= 0`, otherwise `-abs(k)`. */
  function CorrectOne(p: int, k: real): real
  {
    if (p as real) * k <= 0.0 then Abs(k) else -Abs(k)
  }

  /** The value of `k_correct_phase(ps, ks)`. */
  function Corrected(ps: seq<int>, ks: seq<real>): (newK: seq<real>)
    ensures |newK| == Min2(|ps|, |ks|)
    ensures forall i :: 0 <= i < |newK| ==> Abs(newK[i]) == Abs(ks[i])
    ensures forall i :: 0 <= i < |newK| ==> (newK[i] >= 0.0 <==> (ps[i] as real) * ks[i] <= 0.0)
    ensures forall i :: 0 <= i < |newK| ==> (ps[i] == 0 ==> newK[i] == Abs(ks[i]))
  {
    seq(Min2(|ps|, |ks|), i requires 0 <= i < Min2(|ps|, |ks|) => CorrectOne(ps[i], ks[i]))
  }

  /** `k_correct_phase(phase_allowed, k)`. */
  method KCorrectPhase(phaseAllowed: seq<int>, k: seq<real>) returns (newK: seq<real>)
    ensures newK == Corrected(phaseAllowed, k)
  {
    newK := [];
    for i := 0 to Min2(|phaseAllowed|, |k|)
      invariant newK == Corrected(phaseAllowed, k)[..i]
    {
      var p, ki := phaseAllowed[i], k[i];
      if (p as real) * ki <= 0.0 {
        newK := newK + [Abs(ki)];
      } else {
        newK := newK + [-Abs(ki)];
      }
    }
  }

  /**
   * `k_correct_phase` turns a constant negative exactly on the terms
   * `phase_penalty` charges.
   */
  lemma CorrectedNegativeIffCharged(ps: seq<int>, ks: seq<real>, i: nat)
    requires i < Min2(|ps|, |ks|)
    ensures Corrected(ps, ks)[i] < 0.0 <==> Charged(ps[i], ks[i])
  {
  }

  lemma ProductSign(p: int, k: real)
    ensures p < 0 ==> ((p as real) * k <= 0.0 <==> k >= 0.0)
    ensures p > 0 ==> ((p as real) * k <= 0.0 <==> k <= 0.0)
  {
    if p < 0 {
      if k < 0.0 { assert (p as real) * k == (-(p as real)) * (-k); }
      if k >= 0.0 { assert (p as real) * k == -((-(p as real)) * k); }
    }
  }

  /**
   * What `k_correct_phase` actually does to one term: it keeps `k` when
   * `p < 0`, negates it when `p > 0` and takes `abs(k)` when `p == 0`.
   */
  lemma CorrectOneByRestriction(p: int, k: real)
    ensures CorrectOne(p, k) == if p < 0 then k else if p > 0 then -k else Abs(k)
  {
    ProductSign(p, k);
  }

  /**
   * `k_correct_phase` as written does not enforce the declared phase: with
   * p = -1 (0 degrees required) a negative constant stays negative and keeps
   * its penalty, and with p = 1 (180 degrees) a negative constant, which was
   * not penalised, is turned positive and becomes penalised.
   */
  lemma KCorrectPhaseMissesPhase()
    ensures Corrected([-1], [-1.0]) == [-1.0]
    ensures Phases(Corrected([-1], [-1.0])) == [180.0]
    ensures Penalty([-1], Corrected([-1], [-1.0]), [1.0]) == 1.0
    ensures Penalty([1], [-1.0], [1.0]) == 0.0
    ensures Corrected([1], [-1.0]) == [1.0]
    ensures Penalty([1], Corrected([1], [-1.0]), [1.0]) == 1.0
  {
    assert Corrected([-1], [-1.0])[0] == -1.0;
    assert Corrected([1], [-1.0])[0] == 1.0;
  }

  /** One element of the evidently intended correction: `abs(k)` unless 180 degrees is required. */
  function CorrectOneIntended(p: int, k: real): real
  {
    if p <= 0 then Abs(k) else -Abs(k)
  }

  /** The correction the documentation describes: the sign follows the restriction alone. */
  function CorrectedIntended(ps: seq<int>, ks: seq<real>): (newK: seq<real>)
    ensures |newK| == Min2(|ps|, |ks|)
    ensures forall i :: 0 <= i < |newK| ==> Abs(newK[i]) == Abs(ks[i])
  {
    seq(Min2(|ps|, |ks|), i requires 0 <= i < Min2(|ps|, |ks|) => CorrectOneIntended(ps[i], ks[i]))
  }

  /**
   * The intended correction gives every restricted term the phase it asks
   * for and leaves nothing for `phase_penalty` to charge.
   */
  lemma CorrectedIntendedRespectsPhase(ps: seq<int>, ks: seq<real>, fs: seq<real>)
    ensures forall i :: 0 <= i < Min2(|ps|, |ks|) && (ps[i] == -1 || (ps[i] == 1 && ks[i] != 0.0)) ==>
              Phases(CorrectedIntended(ps, ks))[i] == RequiredPhase(ps[i])
    ensures Penalty(ps, CorrectedIntended(ps, ks), fs) == 0.0
  {
    var newK := CorrectedIntended(ps, ks);
    forall i | 0 <= i < |newK|
      ensures !Charged(ps[i], newK[i])
    {
      ProductSign(ps[i], newK[i]);
    }
    PenaltyZeroWhenNothingCharged(ps, newK, fs, Min2(Min2(|ps|, |newK|), |fs|));
  }
}
