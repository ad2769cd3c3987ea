/**
 * Identities of real arithmetic used by the least-squares proofs, each stated
 * over plain reals so that the solver meets the products one at a time.
 */
module Algebra {

  /** Multiplication distributes over a sum. */
  lemma Distribute(c: real, a: real, a': real, d: real)
    requires a == a' + d
    ensures c * a == c * a' + c * d
  {
  }

  /** One step of 0 + 1 + ... + (k-1) == k(k-1)/2, with x = k-1 the new term. */
  lemma TriangleStep(k: real, x: real, s: real, s': real)
    requires x == k - 1.0
    requires s == s' + x
    requires s' == x * (x - 1.0) / 2.0
    ensures s == k * (k - 1.0) / 2.0
  {
    assert x * (x - 1.0) == x * x - x;
    assert k * (k - 1.0) == x * x + x;
  }

  /** One step of 0^2 + 1^2 + ... + (k-1)^2 == (k-1)k(2k-1)/6, with x = k-1 the new index. */
  lemma PyramidStep(k: real, x: real, s: real, s': real)
    requires x == k - 1.0
    requires s == s' + x * x
    requires s' == (x - 1.0) * x * (2.0 * x - 1.0) / 6.0
    ensures s == (k - 1.0) * k * (2.0 * k - 1.0) / 6.0
  {
    var q, c := x * x, x * x * x;
    assert (x - 1.0) * x == q - x;
    assert (q - x) * (2.0 * x - 1.0) == 2.0 * c - 3.0 * q + x;
    assert (k - 1.0) * k == q + x;
    assert (q + x) * (2.0 * k - 1.0) == 2.0 * c + 3.0 * q + x;
  }

  lemma QuotientTimesDivisor(a: real, b: real)
    requires b != 0.0
    ensures (a / b) * b == a
  {
  }

  /** x times the residual y - (s*x + c) spreads into x*y - s*x^2 - c*x. */
  lemma WeightedResidual(x: real, y: real, s: real, c: real)
    ensures x * (y - (s * x + c)) == x * y - s * (x * x) - c * x
  {
  }

  /** On the line y = a*x + b, x*y is a*x^2 + b*x. */
  lemma LinePoint(x: real, y: real, a: real, b: real)
    requires y == a * x + b
    ensures x * y == a * (x * x) + b * x
  {
  }

  /** The spread of the indices: n*Sxx - Sx^2 is k^2 (k^2 - 1) / 12. */
  lemma IndexSpread(k: real, sx: real, sxx: real)
    requires sx == k * (k - 1.0) / 2.0
    requires sxx == (k - 1.0) * k * (2.0 * k - 1.0) / 6.0
    ensures k * sxx - sx * sx == (k * k) * ((k - 1.0) * (k + 1.0)) / 12.0
  {
  }

  lemma PositiveProduct(p: real, q: real)
    requires p > 0.0 && q > 0.0
    ensures p * q > 0.0
  {
  }

  /** Two or more indices have positive spread. */
  lemma IndexSpreadPositive(k: real, sx: real, sxx: real)
    requires k >= 2.0
    requires sx == k * (k - 1.0) / 2.0
    requires sxx == (k - 1.0) * k * (2.0 * k - 1.0) / 6.0
    ensures k * sxx - sx * sx > 0.0
  {
    IndexSpread(k, sx, sxx);
    PositiveProduct(k, k);
    PositiveProduct(k - 1.0, k + 1.0);
    PositiveProduct(k * k, (k - 1.0) * (k + 1.0));
  }

  /** The intercept (sy - s*sx)/n times n gives back sy - s*sx. */
  lemma InterceptTimesCount(n: real, sx: real, sy: real, s: real, c: real)
    requires n > 0.0 && c == (sy - s * sx) / n
    ensures c * n == sy - s * sx
  {
    QuotientTimesDivisor(sy - s * sx, n);
  }

  /** The least-squares slope times the spread is the covariation. */
  lemma SlopeTimesSpread(spread: real, cov: real, s: real)
    requires s == if spread == 0.0 then 0.0 else cov / spread
    requires spread > 0.0 || cov == 0.0
    ensures s * spread == cov
  {
    if spread != 0.0 {
      QuotientTimesDivisor(cov, spread);
    }
  }

  /** n times the weighted residual total is the covariation less slope times the spread. */
  lemma WeightedTotal(n: real, sx: real, sy: real, sxx: real, sxy: real, s: real, c: real, sw: real)
    requires sw == sxy - s * sxx - c * sx && c * n == sy - s * sx
    ensures n * sw == (n * sxy - sx * sy) - s * (n * sxx - sx * sx)
  {
  }

  lemma ZeroFactor(n: real, x: real)
    requires n > 0.0 && n * x == 0.0
    ensures x == 0.0
  {
  }

  /**
   * The normal equations of simple least squares: with the closed-form slope
   * and intercept, both the residuals and the index-weighted residuals add up to zero.
   */
  lemma NormalEquations(n: real, sx: real, sy: real, sxx: real, sxy: real, s: real, c: real, sr: real, sw: real)
    requires n > 0.0
    requires s == if n * sxx - sx * sx == 0.0 then 0.0 else (n * sxy - sx * sy) / (n * sxx - sx * sx)
    requires n * sxx - sx * sx > 0.0 || n * sxy - sx * sy == 0.0
    requires c == (sy - s * sx) / n
    requires sr == sy - s * sx - c * n && sw == sxy - s * sxx - c * sx
    ensures sr == 0.0 && sw == 0.0
  {
    InterceptTimesCount(n, sx, sy, s, c);
    SlopeTimesSpread(n * sxx - sx * sx, n * sxy - sx * sy, s);
    WeightedTotal(n, sx, sy, sxx, sxy, s, c, sw);
    ZeroFactor(n, sw);
  }

  /**
   * With positive spread the normal equations have one solution: two lines
   * (s, c) and (s', c') that both solve them are the same line.
   */
  lemma UniqueSolution(n: real, sx: real, sy: real, sxx: real, sxy: real, s: real, c: real, s': real, c': real)
    requires n > 0.0 && n * sxx - sx * sx > 0.0
    requires sy - s * sx - c * n == 0.0 && sxy - s * sxx - c * sx == 0.0
    requires sy - s' * sx - c' * n == 0.0 && sxy - s' * sxx - c' * sx == 0.0
    ensures s == s' && c == c'
  {
    var ds, dc := s - s', c - c';
    assert ds * sx + dc * n == 0.0;
    assert ds * sxx + dc * sx == 0.0;
    assert n * (ds * sxx + dc * sx) - sx * (ds * sx + dc * n) == ds * (n * sxx - sx * sx);
    ZeroFactor(n * sxx - sx * sx, ds);
    ZeroFactor(n, dc);
  }

  /** The square of a difference. */
  lemma SquareOfDifference(r: real, g: real)
    ensures (r - g) * (r - g) == r * r + g * g - 2.0 * (r * g)
  {
  }

  /** The residual of line (s', c') is the residual of line (s, c) less the gap between the lines. */
  lemma LineGap(x: real, y: real, s: real, c: real, s': real, c': real)
    ensures y - (s' * x + c') == (y - (s * x + c)) - ((s' - s) * x + (c' - c))
  {
  }

  /** A residual times a gap ds*x + dc spreads into ds*(x*r) + dc*r. */
  lemma GapProduct(r: real, x: real, ds: real, dc: real)
    ensures r * (ds * x + dc) == ds * (x * r) + dc * r
  {
  }

  lemma SquareNonnegative(x: real)
    ensures x * x >= 0.0
  {
  }

  /** Cross terms that vanish: ds*w + dc*r with w = r = 0. */
  lemma VanishingCross(ds: real, w: real, dc: real, r: real, cross: real)
    requires cross == ds * w + dc * r
    requires w == 0.0 && r == 0.0
    ensures cross == 0.0
  {
  }

  /** A mean is at most any bound on the terms: sum <= n*m gives sum/n <= m. */
  lemma MeanAtMost(sum: real, n: real, m: real)
    requires n > 0.0 && sum <= n * m
    ensures sum / n <= m
  {
    QuotientTimesDivisor(sum, n);
    assert (sum / n) * n <= m * n;
  }

  /** A positive sum over a positive count has a positive mean. */
  lemma MeanPositive(sum: real, n: real)
    requires n > 0.0 && sum > 0.0
    ensures sum / n > 0.0
  {
  }
}
