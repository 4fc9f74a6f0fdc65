/** Product facts over the reals, stated on bare variables to keep the solver's work small. */
module RealFacts {

  function Sq(x: real): real {
    x * x
  }

  lemma ProductSign(x: real, y: real)
    ensures x >= 0.0 && y >= 0.0 ==> x * y >= 0.0
    ensures x > 0.0 && y > 0.0 ==> x * y > 0.0
    ensures x <= 0.0 && y >= 0.0 ==> x * y <= 0.0
  {
  }

  lemma SqNegate(x: real)
    ensures Sq(-x) == Sq(x)
  {
  }

  lemma ProductPositive(x: real, y: real, p: real)
    requires x > 0.0 && y > 0.0 && p == x * y
    ensures p > 0.0
  {
  }

  lemma SqPositive(x: real)
    ensures Sq(x) >= 0.0
    ensures Sq(x) > 0.0 <==> x != 0.0
  {
    if x == 0.0 {
      assert Sq(0.0) == 0.0;
    } else if x > 0.0 {
      ProductPositive(x, x, Sq(x));
    } else {
      SqNegate(x);
      ProductPositive(-x, -x, Sq(-x));
    }
  }

  lemma ScaleOrder(a: real, b: real, v: real)
    requires v > 0.0
    ensures a * v < b * v <==> a < b
    ensures a * v <= b * v <==> a <= b
  {
    assert (b - a) * v == b * v - a * v;
    assert (a - b) * v == a * v - b * v;
    ProductSign(b - a, v);
    ProductSign(a - b, v);
  }

  lemma SqOrder(a: real, b: real)
    requires a >= 0.0 && b >= 0.0
    ensures a < b <==> Sq(a) < Sq(b)
  {
    var x, y := b - a, b + a;
    ProductSign(x, y);
    assert x * y == b * b - a * a;
  }

  lemma SqDifference(x: real, m: real)
    ensures Sq(x - m) == Sq(x) - 2.0 * (m * x) + Sq(m)
  {
  }

  lemma SqProduct(a: real, b: real)
    ensures Sq(a * b) == Sq(a) * Sq(b)
  {
    assert (a * b) * (a * b) == a * (b * (a * b));
    assert b * (a * b) == a * (b * b);
  }

  lemma Quotient(a: real, n: real)
    requires n > 0.0
    ensures (a / n) * n == a
  {
  }

  lemma QuotientUnique(a: real, q: real, n: real)
    requires n > 0.0 && q * n == a
    ensures a / n == q
  {
    Quotient(a, n);
    assert (a / n - q) * n == 0.0;
  }

  /** Expanding a sum of squared deviations around the mean leaves the one-pass formula. */
  lemma OnePass(s: real, q: real, spread: real, n: real, m: real)
    requires n > 0.0 && m * n == s
    requires spread == q - 2.0 * (m * s) + n * Sq(m)
    ensures spread == q - n * Sq(m) && spread / n == q / n - Sq(m)
  {
    assert m * s == n * (m * m) by {
      assert m * s == m * (m * n);
    }
    Quotient(q, n);
    assert (q / n - m * m) * n == q - n * (m * m);
    QuotientUnique(spread, q / n - m * m, n);
  }

  /** The arithmetic of Cauchy–Schwarz: two expansions of one spread, around the mean and around `m`. */
  lemma CauchyStep(k: real, s: real, q: real, mean: real, m: real, aroundMean: real, around: real)
    requires mean * k == s && k > 0.0 && aroundMean >= 0.0
    requires aroundMean == q - 2.0 * (mean * s) + k * Sq(mean)
    requires around == q - 2.0 * (m * s) + k * Sq(m)
    ensures k * around >= Sq(s - k * m)
  {
    OnePass(s, q, aroundMean, k, mean);
    SqProduct(mean, k);
    assert k * (k * (mean * mean)) == s * s by {
      assert k * (k * (mean * mean)) == (mean * mean) * (k * k);
    }
    assert k * aroundMean == k * q - s * s by {
      assert k * aroundMean == k * q - k * (k * (mean * mean));
    }
    ProductSign(k, aroundMean);
    SqDifference(s, k * m);
    SqProduct(k, m);
    assert (k * m) * s == k * (m * s);
    assert k * (k * (m * m)) == (k * k) * (m * m);
    assert k * around == k * q - 2.0 * (k * (m * s)) + k * (k * (m * m));
  }

  /** `spread` holds `k` pieces, each larger than `cut`. */
  ghost predicate HoldsCuts(spread: real, k: nat, cut: real) {
    spread >= (k as real) * cut && (k > 0 ==> spread > (k as real) * cut)
  }

  lemma ChebyshevStep(spread: real, dd: real, cut: real, k: nat, flagged: bool)
    requires HoldsCuts(spread, k, cut)
    requires dd >= 0.0 && (flagged ==> dd > cut)
    ensures HoldsCuts(spread + dd, if flagged then k + 1 else k, cut)
  {
    assert ((k + 1) as real) * cut == (k as real) * cut + cut;
  }

  /** Dividing out the variance: `k` cuts below `n` variances means k t² below n. */
  lemma ChebyshevCancel(spread: real, k: real, tt: real, v: real, n: real)
    requires v > 0.0 && spread == v * n && spread > k * (tt * v)
    ensures k * tt < n
  {
    assert k * (tt * v) == (k * tt) * v;
    ScaleOrder(k * tt, n, v);
  }

  /** The arithmetic of Samuelson's bound for one deviation `d` against all the others. */
  lemma SamuelsonStep(n: real, m: real, d: real, othersSum: real, othersSpread: real, variance: real)
    requires n > 1.0 && othersSum + d == m * n - m
    requires othersSpread + Sq(d) == variance * n
    requires (n - 1.0) * othersSpread >= Sq(othersSum - (n - 1.0) * m)
    ensures Sq(d) <= (n - 1.0) * variance
  {
    assert (n - 1.0) * m == m * n - m;
    assert othersSum - (n - 1.0) * m == -d;
    SqNegate(d);
    var dd := Sq(d);
    assert (n - 1.0) * (variance * n) == (n - 1.0) * othersSpread + (n - 1.0) * dd;
    assert (n - 1.0) * dd == n * dd - dd;
    assert ((n - 1.0) * variance) * n == (n - 1.0) * (variance * n);
    ScaleOrder(dd, (n - 1.0) * variance, n);
  }

  lemma SpikeStep(r: real, m: real, spread: real)
    requires m * r == 1.0 && spread == 1.0 - 2.0 * (m * 1.0) + r * Sq(m)
    ensures spread * r == r - 1.0
  {
    assert r * (m * m) == (m * r) * m;
    assert (1.0 - m) * r == r - m * r;
  }

  lemma SpikeDeviatesStep(r: real, m: real, v: real, tt: real)
    requires r - 1.0 > tt >= 0.0
    requires m * r == 1.0 && (v * r) * r == r - 1.0
    ensures v > 0.0 && Sq(1.0 - m) > tt * v
  {
    var d := 1.0 - m;
    assert d * r == r - 1.0;
    SqProduct(d, r);
    SqPositive(r);
    assert v * Sq(r) == r - 1.0;
    ScaleOrder(0.0, v, Sq(r));
    assert (tt * v) * Sq(r) == tt * (v * Sq(r));
    ScaleOrder(tt, r - 1.0, r - 1.0);
    ScaleOrder(tt * v, Sq(d), Sq(r));
  }
}
