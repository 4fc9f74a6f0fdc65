/** One-pass window statistics and the sigma-threshold anomaly test, over exact reals. */
module Statistics {
  import opened RealFacts

  function Sum(xs: seq<real>): real {
    if xs == [] then 0.0 else Sum(xs[..|xs| - 1]) + xs[|xs| - 1]
  }

  function SumSq(xs: seq<real>): real {
    if xs == [] then 0.0 else SumSq(xs[..|xs| - 1]) + Sq(xs[|xs| - 1])
  }

  /** Sum of squared deviations from `m`. */
  function Spread(xs: seq<real>, m: real): real {
    if xs == [] then 0.0
    else Spread(xs[..|xs| - 1], m) + Sq(xs[|xs| - 1] - m)
  }

  function Mean(xs: seq<real>): real
    requires xs != []
  {
    Sum(xs) / (|xs| as real)
  }

  /** Mean squared deviation: the definition the one-pass formula stands for. */
  function Variance(xs: seq<real>): real
    requires xs != []
  {
    Spread(xs, Mean(xs)) / (|xs| as real)
  }

  /** Squared distances from `m`, from the sums alone. */
  function Expanded(sumSq: real, sum: real, n: real, m: real): real {
    sumSq - 2.0 * (m * sum) + n * Sq(m)
  }

  lemma ExpandedStep(sumSq: real, sum: real, n: real, m: real, x: real)
    ensures Expanded(sumSq + Sq(x), sum + x, n + 1.0, m) == Expanded(sumSq, sum, n, m) + Sq(x - m)
  {
    SqDifference(x, m);
    hide Sq;
    assert m * (sum + x) == m * sum + m * x;
    assert (n + 1.0) * Sq(m) == n * Sq(m) + Sq(m);
  }

  lemma {:induction false} SpreadExpands(xs: seq<real>, m: real)
    ensures Spread(xs, m) == Expanded(SumSq(xs), Sum(xs), |xs| as real, m)
  {
    if xs == [] {
      assert m * 0.0 == 0.0 && 0.0 * Sq(m) == 0.0;
    } else {
      hide Sq, Expanded;
      var n := |xs| - 1;
      SpreadExpands(xs[..n], m);
      ExpandedStep(SumSq(xs[..n]), Sum(xs[..n]), n as real, m, xs[n]);
    }
  }

  lemma {:induction false} SpreadNonNegative(xs: seq<real>, m: real)
    ensures Spread(xs, m) >= 0.0
    ensures Spread(xs, m) == 0.0 <==> forall i :: 0 <= i < |xs| ==> xs[i] == m
  {
    if xs != [] {
      var n := |xs| - 1;
      var init, dd := xs[..n], Sq(xs[n] - m);
      SpreadNonNegative(init, m);
      assert dd >= 0.0 && (dd == 0.0 <==> xs[n] == m) by {
        SqPositive(xs[n] - m);
      }
      assert Spread(xs, m) == Spread(init, m) + dd;
      hide Spread;
      assert xs == init + [xs[n]];
      assert forall i :: 0 <= i < n ==> init[i] == xs[i];
      if Spread(xs, m) == 0.0 {
        assert forall i :: 0 <= i < n ==> xs[i] == init[i] == m;
      }
    }
  }

  /** The one-pass variance is the mean squared deviation, so it is never negative. */
  lemma OnePassVariance(xs: seq<real>)
    requires xs != []
    ensures var n := |xs| as real;
      SumSq(xs) / n - Sq(Mean(xs)) == Variance(xs) >= 0.0
  {
    hide Sum, SumSq, Spread, Mean;
    var n, m, s, q := |xs| as real, Mean(xs), Sum(xs), SumSq(xs);
    var spread := Spread(xs, m);
    assert spread == q - 2.0 * (m * s) + n * Sq(m) by {
      SpreadExpands(xs, m);
    }
    assert m * n == s by {
      VarianceScales(xs);
    }
    OnePass(s, q, spread, n, m);
    assert Variance(xs) >= 0.0 by {
      VarianceScales(xs);
    }
  }

  lemma VarianceScales(xs: seq<real>)
    requires xs != []
    ensures Mean(xs) * (|xs| as real) == Sum(xs)
    ensures Variance(xs) * (|xs| as real) == Spread(xs, Mean(xs))
    ensures Variance(xs) >= 0.0
    ensures Variance(xs) == 0.0 <==> Spread(xs, Mean(xs)) == 0.0
  {
    hide Sum, Spread, Sq;
    var n := |xs| as real;
    Quotient(Sum(xs), n);
    Quotient(Spread(xs, Mean(xs)), n);
    SpreadNonNegative(xs, Mean(xs));
    ScaleOrder(Variance(xs), 0.0, n);
  }

  /** Sums of values and of their squares: nothing for none, the value for one, and pieces add up. */
  lemma {:induction false} SumsAdd(xs: seq<real>, ys: seq<real>)
    ensures Sum(xs + ys) == Sum(xs) + Sum(ys) && SumSq(xs + ys) == SumSq(xs) + SumSq(ys)
  {
    hide Sq;
    if ys == [] {
      assert xs + ys == xs;
    } else {
      var n := |ys| - 1;
      assert (xs + ys)[..|xs| + n] == xs + ys[..n];
      SumsAdd(xs, ys[..n]);
    }
  }

  lemma SumsOfOne(x: real)
    ensures Sum([x]) == x && SumSq([x]) == x * x
  {
    assert [x][..0] == [];
  }

  lemma {:induction false} SumConstant(xs: seq<real>, x: real)
    requires forall i :: 0 <= i < |xs| ==> xs[i] == x
    ensures Sum(xs) == (|xs| as real) * x
  {
    if xs != [] {
      SumConstant(xs[..|xs| - 1], x);
      assert (|xs| as real) * x == ((|xs| - 1) as real) * x + x;
    }
  }

  /** The variance vanishes exactly on windows whose values are all equal. */
  lemma ZeroVarianceMeansConstant(xs: seq<real>)
    requires xs != []
    ensures Variance(xs) == 0.0 <==> forall i :: 0 <= i < |xs| ==> xs[i] == xs[0]
  {
    VarianceScales(xs);
    SpreadNonNegative(xs, Mean(xs));
    if forall i :: 0 <= i < |xs| ==> xs[i] == xs[0] {
      SumConstant(xs, xs[0]);
      QuotientUnique(Sum(xs), xs[0], |xs| as real);
    }
  }

  lemma {:induction false} SumBetween(xs: seq<real>, lo: real, hi: real)
    requires forall i :: 0 <= i < |xs| ==> lo <= xs[i] <= hi
    ensures (|xs| as real) * lo <= Sum(xs) <= (|xs| as real) * hi
  {
    if xs != [] {
      SumBetween(xs[..|xs| - 1], lo, hi);
      assert (|xs| as real) * lo == ((|xs| - 1) as real) * lo + lo;
      assert (|xs| as real) * hi == ((|xs| - 1) as real) * hi + hi;
    }
  }

  lemma MeanBetween(xs: seq<real>, lo: real, hi: real)
    requires xs != []
    requires forall i :: 0 <= i < |xs| ==> lo <= xs[i] <= hi
    ensures lo <= Mean(xs) <= hi
  {
    hide Sum;
    SumBetween(xs, lo, hi);
    Quotient(Sum(xs), |xs| as real);
    hide Mean;
    ScaledBetween(lo, Mean(xs), hi, |xs| as real, Sum(xs));
  }

  lemma ScaledBetween(lo: real, m: real, hi: real, n: real, sum: real)
    requires n > 0.0 && n * lo <= sum <= n * hi && m * n == sum
    ensures lo <= m <= hi
  {
    assert lo * n == n * lo && hi * n == n * hi;
    ScaleOrder(lo, m, n);
    ScaleOrder(m, hi, n);
  }

  // ---------- the anomaly test ----------

  function Abs(x: real): real {
    if x < 0.0 then -x else x
  }

  /** The detector's test on one value, with the window's mean and standard deviation. */
  predicate Flagged(x: real, avg: real, stddev: real, threshold: real) {
    stddev > 0.0 && Abs(x - avg) > threshold * stddev
  }

  function FlagCount(xs: seq<real>, avg: real, stddev: real, threshold: real): nat {
    if xs == [] then 0
    else FlagCount(xs[..|xs| - 1], avg, stddev, threshold)
         + if Flagged(xs[|xs| - 1], avg, stddev, threshold) then 1 else 0
  }

  /** `stddev` is the square root of the window's variance. */
  ghost predicate IsStddev(stddev: real, xs: seq<real>)
    requires xs != []
  {
    stddev >= 0.0 && Sq(stddev) == Variance(xs)
  }

  /** A flagged value is more than `threshold` deviations out, in squares; and conversely. */
  lemma FlaggedSquares(x: real, avg: real, stddev: real, threshold: real)
    requires threshold > 0.0 && stddev >= 0.0
    ensures Flagged(x, avg, stddev, threshold) <==>
              Sq(stddev) > 0.0 && Sq(x - avg) > Sq(threshold) * Sq(stddev)
  {
    ProductSign(threshold, stddev);
    SqPositive(stddev);
    SqProduct(threshold, stddev);
    SqNegate(x - avg);
    SqOrder(threshold * stddev, Abs(x - avg));
  }

  lemma FlaggedIsFar(x: real, avg: real, stddev: real, t: real, cut: real)
    requires t > 0.0 && stddev >= 0.0 && cut == Sq(t) * Sq(stddev)
    ensures Sq(x - avg) >= 0.0 && (Flagged(x, avg, stddev, t) ==> Sq(x - avg) > cut)
  {
    hide Sq;
    SqPositive(x - avg);
    FlaggedSquares(x, avg, stddev, t);
  }

  lemma {:induction false} FlaggedSpread(xs: seq<real>, avg: real, stddev: real, t: real, cut: real)
    requires t > 0.0 && stddev >= 0.0 && cut == Sq(t) * Sq(stddev)
    ensures HoldsCuts(Spread(xs, avg), FlagCount(xs, avg, stddev, t), cut)
  {
    if xs == [] {
      assert 0.0 * cut == 0.0;
    } else {
      hide Sq, Flagged, HoldsCuts;
      var n := |xs| - 1;
      FlaggedSpread(xs[..n], avg, stddev, t, cut);
      FlaggedIsFar(xs[n], avg, stddev, t, cut);
      ChebyshevStep(Spread(xs[..n], avg), Sq(xs[n] - avg), cut,
                    FlagCount(xs[..n], avg, stddev, t), Flagged(xs[n], avg, stddev, t));
    }
  }

  /** Chebyshev, exactly as the detector counts: flagged readings times t squared never exceed n. */
  lemma FlaggedAtMost(xs: seq<real>, stddev: real, t: real)
    requires xs != [] && t > 0.0 && IsStddev(stddev, xs)
    ensures var k := FlagCount(xs, Mean(xs), stddev, t);
      (k as real) * Sq(t) <= |xs| as real && (k > 0 ==> (k as real) * Sq(t) < |xs| as real)
  {
    hide Spread, Sum, Mean, FlagCount, Variance;
    var m := Mean(xs);
    var k := FlagCount(xs, m, stddev, t);
    if k > 0 {
      var v := Sq(stddev);
      var i := FlaggedWitness(xs, m, stddev, t);
      assert v > 0.0 by {
        assert stddev != 0.0;
        SqPositive(stddev);
      }
      assert Spread(xs, m) == v * (|xs| as real) by {
        VarianceScales(xs);
      }
      assert Spread(xs, m) > (k as real) * (Sq(t) * v) by {
        FlaggedSpread(xs, m, stddev, t, Sq(t) * v);
      }
      ChebyshevCancel(Spread(xs, m), k as real, Sq(t), v, |xs| as real);
    }
  }

  lemma {:induction false} FlaggedWitness(xs: seq<real>, avg: real, stddev: real, t: real) returns (i: nat)
    requires FlagCount(xs, avg, stddev, t) > 0
    ensures i < |xs| && Flagged(xs[i], avg, stddev, t)
  {
    i := |xs| - 1;
    if !Flagged(xs[i], avg, stddev, t) {
      i := FlaggedWitness(xs[..i], avg, stddev, t);
    }
  }

  function Without(xs: seq<real>, i: nat): seq<real>
    requires i < |xs|
  {
    xs[..i] + xs[i + 1..]
  }

  lemma {:induction false} SplitOff(xs: seq<real>, i: nat, m: real)
    requires i < |xs|
    ensures Sum(xs) == Sum(Without(xs, i)) + xs[i]
    ensures Spread(xs, m) == Spread(Without(xs, i), m) + Sq(xs[i] - m)
  {
    var n := |xs| - 1;
    if i == n {
      assert Without(xs, i) == xs[..n];
    } else {
      SplitOff(xs[..n], i, m);
      var ys := Without(xs, i);
      assert ys[..n - 1] == Without(xs[..n], i) && ys[n - 1] == xs[n];
    }
  }

  /** Cauchy–Schwarz for one sequence against a point. */
  lemma SpreadAtLeast(ys: seq<real>, m: real)
    requires ys != []
    ensures var k := |ys| as real; var d := Sum(ys) - k * m;
      k * Spread(ys, m) >= Sq(d)
  {
    hide Spread, Sum, SumSq, Mean;
    var k, mean, s, q := |ys| as real, Mean(ys), Sum(ys), SumSq(ys);
    var aroundMean, around := Spread(ys, mean), Spread(ys, m);
    assert aroundMean >= 0.0 && aroundMean == q - 2.0 * (mean * s) + k * Sq(mean) by {
      SpreadNonNegative(ys, mean);
      SpreadExpands(ys, mean);
    }
    assert around == q - 2.0 * (m * s) + k * Sq(m) by {
      SpreadExpands(ys, m);
    }
    assert mean * k == s by {
      VarianceScales(ys);
    }
    CauchyStep(k, s, q, mean, m, aroundMean, around);
  }

  /** Samuelson: no value of a window is further than sqrt(n - 1) deviations from its mean. */
  lemma DeviationBounded(xs: seq<real>, i: nat)
    requires i < |xs|
    ensures Sq(xs[i] - Mean(xs)) <= ((|xs| - 1) as real) * Variance(xs)
  {
    hide Spread, Sum, Mean, Variance;
    var n, m, v := |xs| as real, Mean(xs), Variance(xs);
    var d, ys := xs[i] - m, Without(xs, i);
    SplitOff(xs, i, m);
    assert m * n == Sum(xs) && v * n == Spread(xs, m) && v >= 0.0 by {
      VarianceScales(xs);
    }
    if ys == [] {
      LoneDeviation(xs, m);
    } else {
      assert (n - 1.0) * Spread(ys, m) >= Sq(Sum(ys) - (n - 1.0) * m) by {
        SpreadAtLeast(ys, m);
      }
      SamuelsonStep(n, m, d, Sum(ys), Spread(ys, m), v);
    }
  }

  lemma LoneDeviation(xs: seq<real>, m: real)
    requires |xs| == 1 && m * 1.0 == Sum(xs)
    ensures xs[0] - m == 0.0
  {
    assert xs[..0] == [];
  }

  /** Nothing is flagged in a window of `n` readings unless n - 1 exceeds the squared threshold. */
  lemma FlagNeedsLargeWindow(xs: seq<real>, stddev: real, t: real)
    requires xs != [] && t > 0.0 && IsStddev(stddev, xs)
    requires FlagCount(xs, Mean(xs), stddev, t) > 0
    ensures (|xs| - 1) as real > Sq(t)
  {
    hide Mean, Variance, FlagCount;
    var i := FlaggedWitness(xs, Mean(xs), stddev, t);
    FlaggedSquares(xs[i], Mean(xs), stddev, t);
    DeviationBounded(xs, i);
    ScaleOrder(Sq(t), (|xs| - 1) as real, Variance(xs));
  }

  /** At the configured threshold of three, ten readings or fewer never report an anomaly. */
  lemma SmallWindowsNeverReport(xs: seq<real>, stddev: real)
    requires xs != [] && |xs| <= 10 && IsStddev(stddev, xs)
    ensures FlagCount(xs, Mean(xs), stddev, 3.0) == 0
  {
    if FlagCount(xs, Mean(xs), stddev, 3.0) > 0 {
      FlagNeedsLargeWindow(xs, stddev, 3.0);
    }
  }

  /** All readings equal to zero except one. */
  function Spike(n: nat): seq<real>
    requires n > 0
  {
    seq(n - 1, i => 0.0) + [1.0]
  }

  lemma SpikeMoments(n: nat)
    requires n > 0
    ensures var r, xs := n as real, Spike(n);
      Mean(xs) * r == 1.0 && (Variance(xs) * r) * r == r - 1.0
  {
    var xs, r := Spike(n), n as real;
    SpikeSums(n);
    hide *;
    var m := Mean(xs);
    VarianceScales(xs);
    SpreadExpands(xs, m);
    SpikeStep(r, m, Spread(xs, m));
  }

  lemma SpikeSums(n: nat)
    requires n > 0
    ensures Sum(Spike(n)) == 1.0 && SumSq(Spike(n)) == 1.0 && |Spike(n)| == n
  {
    var xs, zeros := Spike(n), seq(n - 1, i => 0.0);
    assert xs[..n - 1] == zeros;
    assert Sum(zeros) == 0.0 && SumSq(zeros) == 0.0 by {
      SumConstant(zeros, 0.0);
      SpreadNonNegative(zeros, 0.0);
      SpreadExpands(zeros, 0.0);
    }
    assert Sq(1.0) == 1.0;
  }

  /** Some window of `n` readings has one more than `t` deviations from its mean. */
  ghost predicate CanDeviate(n: nat, t: real)
    requires n > 0
  {
    exists xs: seq<real>, i: nat :: i < |xs| == n && Deviates(xs, i, t)
  }

  /** The detector's test with the standard deviation squared away. */
  ghost predicate Deviates(xs: seq<real>, i: nat, t: real)
    requires i < |xs|
  {
    Variance(xs) > 0.0 && Sq(xs[i] - Mean(xs)) > Sq(t) * Variance(xs)
  }

  /** `Deviates` is the detector's own test, for any square root of the variance. */
  lemma DeviatesIsFlagged(xs: seq<real>, i: nat, stddev: real, t: real)
    requires i < |xs| && t > 0.0 && IsStddev(stddev, xs)
    ensures Deviates(xs, i, t) <==> Flagged(xs[i], Mean(xs), stddev, t)
  {
    hide Variance, Mean;
    FlaggedSquares(xs[i], Mean(xs), stddev, t);
  }

  lemma SpikeDeviates(n: nat, t: real)
    requires n > 0 && (n - 1) as real > Sq(t)
    ensures Deviates(Spike(n), n - 1, t)
  {
    var xs, r := Spike(n), n as real;
    SpikeMoments(n);
    SqPositive(t);
    SpikeDeviatesStep(r, Mean(xs), Variance(xs), Sq(t));
  }

  /** The size bound is exact: a window of `n` can report at threshold `t` if and only if n - 1 > t². */
  lemma SizeBoundIsExact(n: nat, t: real)
    requires n > 0 && t > 0.0
    ensures CanDeviate(n, t) <==> (n - 1) as real > Sq(t)
  {
    if CanDeviate(n, t) {
      var xs: seq<real>, i: nat :| i < |xs| == n && Deviates(xs, i, t);
      DeviationBounded(xs, i);
      ScaleOrder(Sq(t), (n - 1) as real, Variance(xs));
    }
    if (n - 1) as real > Sq(t) {
      SpikeDeviates(n, t);
    }
  }
}
