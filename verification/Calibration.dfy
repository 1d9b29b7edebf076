/**
 The streaming quantile estimator behind the baselines, over arbitrary sample
 streams: what it converges to, where it can get, and how far two estimators
 drift apart. Rounding is not modelled: estimates are real numbers.
 */
module Calibration {

  const ALPHA: real := 0.05

  /** One update of an estimate, as the code has it. */
  function EmaQuantile(current: real, sample: real, alpha: real, quantile: real): real {
    if sample > current then current + alpha * (1.0 - quantile)
    else if sample < current then current - alpha * quantile
    else current
  }

  /** The estimate after a stream of samples that follow the seed. */
  function Estimate(seed: real, xs: seq<real>, q: real): real {
    if xs == [] then seed
    else EmaQuantile(Estimate(seed, xs[..|xs| - 1], q), xs[|xs| - 1], ALPHA, q)
  }

  /** How many samples arrived strictly above the estimate of their time. */
  function Ups(seed: real, xs: seq<real>, q: real): nat {
    if xs == [] then 0
    else
      Ups(seed, xs[..|xs| - 1], q) +
      if xs[|xs| - 1] > Estimate(seed, xs[..|xs| - 1], q) then 1 else 0
  }

  /** How many arrived strictly below it. */
  function Downs(seed: real, xs: seq<real>, q: real): nat {
    if xs == [] then 0
    else
      Downs(seed, xs[..|xs| - 1], q) +
      if xs[|xs| - 1] < Estimate(seed, xs[..|xs| - 1], q) then 1 else 0
  }

  ghost predicate StreamIn(seed: real, xs: seq<real>, lo: real, hi: real) {
    lo <= seed <= hi && forall i :: 0 <= i < |xs| ==> lo <= xs[i] <= hi
  }

  function Abs(x: real): real {
    if x < 0.0 then -x else x
  }

  /** How far the samples above exceed a fraction q of all samples. */
  function Excess(u: nat, d: nat, q: real): real {
    u as real - q * (u + d) as real
  }

  lemma ExcessGrows(u: nat, d: nat, q: real)
    ensures Excess(u + 1, d, q) == Excess(u, d, q) + 1.0 - q
    ensures Excess(u, d + 1, q) == Excess(u, d, q) - q
  {
    assert (u + d + 1) as real == (u + d) as real + 1.0;
    assert q * ((u + d) as real + 1.0) == q * (u + d) as real + q;
  }

  /** The estimate keeps exact books of the samples above and below it. */
  lemma {:induction false} Books(seed: real, xs: seq<real>, q: real)
    ensures Estimate(seed, xs, q) == seed + ALPHA * Excess(Ups(seed, xs, q), Downs(seed, xs, q), q)
  {
    if xs == [] {
    } else {
      var init := xs[..|xs| - 1];
      Books(seed, init, q);
      ExcessGrows(Ups(seed, init, q), Downs(seed, init, q), q);
    }
  }

  /** The estimate overshoots the range of its samples by at most one step. */
  lemma {:induction false} EstimateRange(seed: real, xs: seq<real>, q: real, lo: real, hi: real)
    requires 0.0 <= q <= 1.0 && StreamIn(seed, xs, lo, hi)
    ensures lo - ALPHA * q <= Estimate(seed, xs, q) <= hi + ALPHA * (1.0 - q)
  {
    if xs == [] {
    } else {
      EstimateRange(seed, xs[..|xs| - 1], q, lo, hi);
    }
  }

  /**
   Main result. The number of samples above the q-estimate differs from a fraction q of all
   samples by a bound that does not grow with the stream.
   */
  lemma Calibrated(seed: real, xs: seq<real>, q: real, lo: real, hi: real)
    requires 0.0 <= q <= 1.0 && StreamIn(seed, xs, lo, hi)
    ensures Abs(Excess(Ups(seed, xs, q), Downs(seed, xs, q), q)) <= (hi - lo) / ALPHA + 1.0
  {
    Books(seed, xs, q);
    EstimateRange(seed, xs, q, lo, hi);
  }

  // ---- What share of the samples lies below the estimate -----------------------

  /**
   Up to `eps`, at most a fraction `share` of k samples lies below and at most the rest above.
   Samples that tie with the estimate count on neither side.
   */
  ghost predicate Near(u: nat, d: nat, share: real, k: nat, eps: real) {
    k > 0 && d as real / k as real <= share + eps && u as real / k as real <= 1.0 - share + eps
  }

  /** From `n` samples on, the estimate has sat at the `share`-quantile of the samples, within eps. */
  ghost predicate SettlesFrom(q: real, share: real, lo: real, hi: real, eps: real, n: nat) {
    forall seed, xs :: StreamIn(seed, xs, lo, hi) && |xs| >= n ==>
      Near(Ups(seed, xs, q), Downs(seed, xs, q), share, |xs|, eps)
  }

  ghost predicate SettlesWithin(q: real, share: real, lo: real, hi: real, eps: real) {
    exists n :: SettlesFrom(q, share, lo, hi, eps, n)
  }

  /** On bounded streams the q-estimate tends to sit at the `share`-quantile of the samples. */
  ghost predicate Settles(q: real, share: real) {
    forall lo, hi, eps :: lo <= hi && eps > 0.0 ==> SettlesWithin(q, share, lo, hi, eps)
  }

  ghost predicate Fits(bound: real, eps: real, k: nat) {
    bound <= eps * k as real
  }

  lemma LongEnough(bound: real, eps: real) returns (n: nat)
    requires bound >= 0.0 && eps > 0.0
    ensures n > 0 && forall k: nat :: k >= n ==> Fits(bound, eps, k)
  {
    var ratio := bound / eps;
    n := ratio.Floor + 1;
    forall k: nat | k >= n ensures Fits(bound, eps, k) {
      Grows(eps, ratio, k as real);
      assert eps * ratio == bound;
    }
  }

  lemma Grows(a: real, b: real, c: real)
    requires a >= 0.0 && b <= c
    ensures a * b <= a * c
  {
  }

  lemma Positive(a: real, b: real)
    requires a > 0.0 && b > 0.0
    ensures a * b > 0.0
  {
  }

  /** Dividing by a positive number of samples. */
  lemma Divided(x: real, k: real, share: real, eps: real)
    requires k > 0.0 && x <= share * k + eps * k
    ensures x / k <= share + eps
  {
    var gap := x / k - share - eps;
    assert gap * k == x - share * k - eps * k;
    if gap > 0.0 {
      Positive(gap, k);
    }
  }

  /** What holds for the samples off the estimate holds for all the samples. */
  lemma BoundedShare(x: nat, y: nat, k: nat, share: real, bound: real, eps: real)
    requires 0 < k && x + y <= k && 0.0 <= share && eps > 0.0
    requires Excess(x, y, share) <= bound && Fits(bound, eps, k)
    ensures x as real / k as real <= share + eps
  {
    Grows(share, (x + y) as real, k as real);
    Divided(x as real, k as real, share, eps);
  }

  lemma {:induction false} OffTheEstimate(seed: real, xs: seq<real>, q: real)
    ensures Ups(seed, xs, q) + Downs(seed, xs, q) <= |xs|
  {
    if xs == [] {
    } else {
      OffTheEstimate(seed, xs[..|xs| - 1], q);
    }
  }

  lemma OtherSide(u: nat, d: nat, q: real, share: real)
    requires share == 1.0 - q
    ensures Excess(d, u, share) == -Excess(u, d, q)
  {
    var k := (u + d) as real;
    assert k == u as real + d as real;
    assert share * k == k - q * k;
  }

  /** A bounded imbalance of the samples off the estimate bounds both shares. */
  lemma BothShares(u: nat, d: nat, k: nat, q: real, share: real, bound: real, eps: real)
    requires 0.0 <= q <= 1.0 && share == 1.0 - q && 0 < k && u + d <= k && eps > 0.0
    requires Abs(Excess(u, d, q)) <= bound && Fits(bound, eps, k)
    ensures Near(u, d, share, k, eps)
  {
    OtherSide(u, d, q, share);
    BoundedShare(u, d, k, q, bound, eps);
    BoundedShare(d, u, k, share, bound, eps);
  }

  lemma SettlesInRange(q: real, share: real, lo: real, hi: real, eps: real)
    requires 0.0 <= q <= 1.0 && share == 1.0 - q && lo <= hi && eps > 0.0
    ensures SettlesWithin(q, share, lo, hi, eps)
  {
    var bound := (hi - lo) / ALPHA + 1.0;
    var n := LongEnough(bound, eps);
    forall seed, xs | StreamIn(seed, xs, lo, hi) && |xs| >= n
      ensures Near(Ups(seed, xs, q), Downs(seed, xs, q), share, |xs|, eps)
    {
      Calibrated(seed, xs, q, lo, hi);
      OffTheEstimate(seed, xs, q);
      assert Fits(bound, eps, |xs|);
      BothShares(Ups(seed, xs, q), Downs(seed, xs, q), |xs|, q, share, bound, eps);
    }
    assert SettlesFrom(q, share, lo, hi, eps, n);
  }

  /** The q-estimate tends to the (1 - q)-quantile: at most a share of 1 - q ends up below it and at most q above. */
  lemma SettlesAtComplement(q: real, share: real)
    requires 0.0 <= q <= 1.0 && share == 1.0 - q
    ensures Settles(q, share)
  {
    forall lo, hi, eps | lo <= hi && eps > 0.0 ensures SettlesWithin(q, share, lo, hi, eps) {
      SettlesInRange(q, share, lo, hi, eps);
    }
  }

  /** A stream in [0, 1] that never ties with the estimate. */
  function Restless(q: real, n: nat): seq<real> {
    if n == 0 then []
    else
      var xs := Restless(q, n - 1);
      xs + [if Estimate(0.0, xs, q) <= 0.5 then 1.0 else 0.0]
  }

  lemma OneMoreOff(seed: real, xs: seq<real>, x: real, q: real)
    requires x != Estimate(seed, xs, q)
    ensures Ups(seed, xs + [x], q) + Downs(seed, xs + [x], q) == Ups(seed, xs, q) + Downs(seed, xs, q) + 1
  {
    assert (xs + [x])[..|xs|] == xs;
  }

  lemma {:induction false} RestlessNeverTies(q: real, n: nat)
    ensures |Restless(q, n)| == n && StreamIn(0.0, Restless(q, n), 0.0, 1.0)
    ensures Ups(0.0, Restless(q, n), q) + Downs(0.0, Restless(q, n), q) == n
  {
    if n == 0 {
    } else {
      var xs := Restless(q, n - 1);
      RestlessNeverTies(q, n - 1);
      OneMoreOff(0.0, xs, if Estimate(0.0, xs, q) <= 0.5 then 1.0 else 0.0, q);
    }
  }

  lemma Shares(u: nat, d: nat)
    requires u + d > 0
    ensures u as real / (u + d) as real + d as real / (u + d) as real == 1.0
  {
    var k := (u + d) as real;
    assert k == u as real + d as real;
    assert u as real / k + d as real / k == (u as real + d as real) / k;
  }

  /** Without ties the samples cannot sit at two quantiles at once. */
  lemma TwoSharesClash(u: nat, d: nat, a: real, b: real, eps: real)
    requires eps == Abs(a - b) / 4.0 && a != b
    ensures !Near(u, d, a, u + d, eps) || !Near(u, d, b, u + d, eps)
  {
    if u + d > 0 {
      Shares(u, d);
    }
  }

  lemma SomeRestless(q: real, n: nat) returns (xs: seq<real>)
    ensures |xs| == n && StreamIn(0.0, xs, 0.0, 1.0) && Ups(0.0, xs, q) + Downs(0.0, xs, q) == n
  {
    xs := Restless(q, n);
    RestlessNeverTies(q, n);
  }

  lemma NotBoth(q: real, share: real, eps: real, m: nat, n: nat)
    requires share != 1.0 - q && eps == Abs(share - (1.0 - q)) / 4.0
    requires SettlesFrom(q, 1.0 - q, 0.0, 1.0, eps, m)
    ensures !SettlesFrom(q, share, 0.0, 1.0, eps, n)
  {
    var xs := SomeRestless(q, n + m + 1);
    TwoSharesClash(Ups(0.0, xs, q), Downs(0.0, xs, q), share, 1.0 - q, eps);
  }

  lemma OnlyTheComplement(q: real, share: real)
    requires 0.0 <= q <= 1.0 && share != 1.0 - q
    ensures !Settles(q, share)
  {
    var eps := Abs(share - (1.0 - q)) / 4.0;
    SettlesInRange(q, 1.0 - q, 0.0, 1.0, eps);
    var m :| SettlesFrom(q, 1.0 - q, 0.0, 1.0, eps, m);
    forall n: nat ensures !SettlesFrom(q, share, 0.0, 1.0, eps, n) {
      NotBoth(q, share, eps, m, n);
    }
    assert !SettlesWithin(q, share, 0.0, 1.0, eps);
  }

  /** Main result: what the estimator converges to, on all bounded streams, is the (1 - q)-quantile and no other. */
  lemma SettlesIff(q: real, share: real)
    requires 0.0 <= q <= 1.0
    ensures Settles(q, share) <==> share == 1.0 - q
  {
    if share == 1.0 - q {
      SettlesAtComplement(q, share);
    } else {
      OnlyTheComplement(q, share);
    }
  }

  /**
   Main result. The documented claim, that the estimate converges to the true q-quantile, holds
   for the median and for no other quantile.
   */
  lemma QuantileClaimIff(q: real)
    requires 0.0 <= q <= 1.0
    ensures Settles(q, q) <==> q == 0.5
  {
    SettlesIff(q, q);
  }

  /** With the two step sizes swapped the claim would hold: that estimator is the code's at 1 - q. */
  lemma SwappedStepsSettle(current: real, sample: real, q: real)
    requires 0.0 <= q <= 1.0
    ensures EmaQuantile(current, sample, ALPHA, 1.0 - q) ==
            if sample > current then current + ALPHA * q
            else if sample < current then current - ALPHA * (1.0 - q)
            else current
    ensures Settles(1.0 - q, q)
  {
    SettlesIff(1.0 - q, q);
  }

  // ---- Two estimators on one stream -----------------------------------------------

  /** Main result: a higher quantile's estimate gets ahead of a lower one's by less than one step, ever. */
  lemma {:induction false} BoundedCrossing(seed: real, xs: seq<real>, q1: real, q2: real)
    requires 0.0 <= q1 <= q2 <= 1.0
    ensures Estimate(seed, xs, q2) - Estimate(seed, xs, q1) <= ALPHA * (1.0 - (q2 - q1))
  {
    if xs == [] {
    } else {
      BoundedCrossing(seed, xs[..|xs| - 1], q1, q2);
    }
  }
}
