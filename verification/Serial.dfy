/** The serial test's two differences are never negative: scaled by the length of the sequence they
    are sums of squares over pattern counts. From stattest/nist.go, with exact real arithmetic. */
module Serial {
  import opened Common
  import opened CyclicPatterns

  function Square(x: int): (r: nat) {
    Squared(x);
    x * x
  }

  lemma Squared(x: int)
    ensures x * x >= 0
  {}

  /** The sum of the squared counts of the k patterns from lo on. */
  function SquareSum(b: seq<bit>, m: nat, lo: nat, k: nat): nat
    requires |b| > 0
  {
    if k == 0 then 0 else SquareSum(b, m, lo, k - 1) + Square(Occurrences(b, m, lo + k - 1))
  }

  /** n psi-squared: 2^m times the sum of the squared counts, less n^2; the source takes psi-squared
      to be zero for m <= 0. */
  function ScaledPsi2(b: seq<bit>, m: int): int
    requires |b| > 0
  {
    if m <= 0 then 0 else SquareSum(b, m, 0, Pow2(m)) * Pow2(m) - Square(|b|)
  }

  // ---- the two sums of squares ----

  /** How unevenly the last bit splits the count of an (m+1)-bit prefix. */
  function SplitLast(b: seq<bit>, m: nat, w: nat): int
    requires |b| > 0
  {
    Occurrences(b, m + 1, 2 * w) - Occurrences(b, m + 1, 2 * w + 1)
  }

  /** How far the first and the last bit are from independent around the m-bit middle w. */
  function SplitBoth(b: seq<bit>, m: nat, w: nat): int
    requires |b| > 0
  {
    Occurrences(b, m + 2, 2 * w) - Occurrences(b, m + 2, 2 * w + 1)
    - Occurrences(b, m + 2, Pow2(m + 1) + 2 * w) + Occurrences(b, m + 2, Pow2(m + 1) + 2 * w + 1)
  }

  function SplitLastSum(b: seq<bit>, m: nat, k: nat): nat
    requires |b| > 0
  {
    if k == 0 then 0 else SplitLastSum(b, m, k - 1) + Square(SplitLast(b, m, k - 1))
  }

  function SplitBothSum(b: seq<bit>, m: nat, k: nat): nat
    requires |b| > 0
  {
    if k == 0 then 0 else SplitBothSum(b, m, k - 1) + Square(SplitBoth(b, m, k - 1))
  }

  lemma SquareStep(b: seq<bit>, m: nat, lo: nat, k: nat)
    requires |b| > 0
    ensures SquareSum(b, m, lo, 2 * k + 2) ==
            SquareSum(b, m, lo, 2 * k) + Square(Occurrences(b, m, lo + 2 * k)) + Square(Occurrences(b, m, lo + 2 * k + 1))
  {
    assert SquareSum(b, m, lo, 2 * k + 2) == SquareSum(b, m, lo, 2 * k + 1) + Square(Occurrences(b, m, lo + 2 * k + 1));
    assert SquareSum(b, m, lo, 2 * k + 1) == SquareSum(b, m, lo, 2 * k) + Square(Occurrences(b, m, lo + 2 * k));
  }

  lemma SquareOfTwo(x: int, y: int)
    ensures 2 * Square(x) + 2 * Square(y) == Square(x + y) + Square(x - y)
  {}

  lemma SquareOfFour(p: int, q: int, r: int, s: int)
    ensures 4 * (Square(p) + Square(q) + Square(r) + Square(s)) + Square(p + q + r + s)
         == 2 * (Square(p + q) + Square(r + s)) + 2 * (Square(p + r) + Square(q + s)) + Square(p - q - r + s)
  {}

  lemma FirstStep(b: seq<bit>, m: nat, w: nat)
    requires |b| > 0 && w < Pow2(m)
    ensures 2 * (SquareSum(b, m + 1, 0, 2 * w + 2) - SquareSum(b, m + 1, 0, 2 * w))
         == SquareSum(b, m, 0, w + 1) - SquareSum(b, m, 0, w) + SplitLastSum(b, m, w + 1) - SplitLastSum(b, m, w)
  {
    SquareStep(b, m + 1, 0, w);
    Marginals(b, m, w);
    SquareOfTwo(Occurrences(b, m + 1, 2 * w), Occurrences(b, m + 1, 2 * w + 1));
  }

  lemma {:induction false} FirstDifference(b: seq<bit>, m: nat, k: nat)
    requires |b| > 0 && k <= Pow2(m)
    ensures 2 * SquareSum(b, m + 1, 0, 2 * k) == SquareSum(b, m, 0, k) + SplitLastSum(b, m, k)
  {
    if k > 0 {
      FirstDifference(b, m, k - 1);
      FirstStep(b, m, k - 1);
    }
  }

  // The four (m+2)-bit counts around each m-bit middle, summed three ways: squared one by one, by
  // shared first bit, and by shared last bit.

  function FourSum(b: seq<bit>, m: nat, k: nat): nat
    requires |b| > 0
  {
    SquareSum(b, m + 2, 0, 2 * k) + SquareSum(b, m + 2, Pow2(m + 1), 2 * k)
  }

  function RowSum(b: seq<bit>, m: nat, k: nat): nat
    requires |b| > 0
  {
    SquareSum(b, m + 1, 0, k) + SquareSum(b, m + 1, Pow2(m), k)
  }

  function ColumnSum(b: seq<bit>, m: nat, k: nat): nat
    requires |b| > 0
  {
    SquareSum(b, m + 1, 0, 2 * k)
  }

  lemma FourStep(b: seq<bit>, m: nat, w: nat)
    requires |b| > 0
    ensures FourSum(b, m, w + 1) - FourSum(b, m, w)
         == Square(Occurrences(b, m + 2, 2 * w)) + Square(Occurrences(b, m + 2, 2 * w + 1))
            + Square(Occurrences(b, m + 2, Pow2(m + 1) + 2 * w)) + Square(Occurrences(b, m + 2, Pow2(m + 1) + 2 * w + 1))
  {
    SquareStep(b, m + 2, 0, w);
    SquareStep(b, m + 2, Pow2(m + 1), w);
  }

  lemma MiddleStep(b: seq<bit>, m: nat, w: nat)
    requires |b| > 0 && w < Pow2(m)
    ensures 4 * (FourSum(b, m, w + 1) - FourSum(b, m, w)) + Square(Occurrences(b, m, w))
         == 2 * (Square(Occurrences(b, m + 1, w)) + Square(Occurrences(b, m + 1, Pow2(m) + w)))
            + 2 * (Square(Occurrences(b, m + 1, 2 * w)) + Square(Occurrences(b, m + 1, 2 * w + 1)))
            + Square(SplitBoth(b, m, w))
  {
    FourStep(b, m, w);
    FourCounts(b, m, w);
    SquareOfFour(Occurrences(b, m + 2, 2 * w), Occurrences(b, m + 2, 2 * w + 1),
                 Occurrences(b, m + 2, Pow2(m + 1) + 2 * w), Occurrences(b, m + 2, Pow2(m + 1) + 2 * w + 1));
  }

  lemma SecondStep(b: seq<bit>, m: nat, w: nat)
    requires |b| > 0 && w < Pow2(m)
    ensures 4 * (FourSum(b, m, w + 1) - FourSum(b, m, w)) + SquareSum(b, m, 0, w + 1) - SquareSum(b, m, 0, w)
         == 2 * (RowSum(b, m, w + 1) - RowSum(b, m, w)) + 2 * (ColumnSum(b, m, w + 1) - ColumnSum(b, m, w))
            + SplitBothSum(b, m, w + 1) - SplitBothSum(b, m, w)
  {
    MiddleStep(b, m, w);
    SquareStep(b, m + 1, 0, w);
  }

  lemma {:induction false} SecondDifference(b: seq<bit>, m: nat, k: nat)
    requires |b| > 0 && k <= Pow2(m)
    ensures 4 * FourSum(b, m, k) + SquareSum(b, m, 0, k)
         == 2 * RowSum(b, m, k) + 2 * ColumnSum(b, m, k) + SplitBothSum(b, m, k)
  {
    if k > 0 {
      SecondDifference(b, m, k - 1);
      SecondStep(b, m, k - 1);
    }
  }

  /** The counts of the shorter patterns around an m-bit middle, in terms of the four (m+2)-bit ones. */
  lemma FourCounts(b: seq<bit>, m: nat, w: nat)
    requires |b| > 0 && w < Pow2(m)
    ensures var p, q := Occurrences(b, m + 2, 2 * w), Occurrences(b, m + 2, 2 * w + 1);
      var r, s := Occurrences(b, m + 2, Pow2(m + 1) + 2 * w), Occurrences(b, m + 2, Pow2(m + 1) + 2 * w + 1);
      && Occurrences(b, m + 1, w) == p + q
      && Occurrences(b, m + 1, Pow2(m) + w) == r + s
      && Occurrences(b, m + 1, 2 * w) == p + r
      && Occurrences(b, m + 1, 2 * w + 1) == q + s
      && Occurrences(b, m, w) == p + q + r + s
  {
    Marginals(b, m, w);
    Marginals(b, m + 1, w);
    Marginals(b, m + 1, Pow2(m) + w);
    Marginals(b, m + 1, 2 * w);
    Marginals(b, m + 1, 2 * w + 1);
    assert 2 * (Pow2(m) + w) == Pow2(m + 1) + 2 * w;
  }

  lemma {:induction false} SquareSumSplit(b: seq<bit>, m: nat, lo: nat, j: nat, k: nat)
    requires |b| > 0
    ensures SquareSum(b, m, lo, j + k) == SquareSum(b, m, lo, j) + SquareSum(b, m, lo + j, k)
  {
    if k > 0 { SquareSumSplit(b, m, lo, j, k - 1); }
  }

  // ---- the differences of psi-squared, times n ----

  function ScaledDel1(b: seq<bit>, m: nat): int
    requires |b| > 0
  {
    ScaledPsi2(b, m) - ScaledPsi2(b, m - 1)
  }

  function ScaledDel2(b: seq<bit>, m: nat): int
    requires |b| > 0
  {
    ScaledPsi2(b, m) - 2 * ScaledPsi2(b, m - 1) + ScaledPsi2(b, m - 2)
  }

  lemma EmptyPatternSquare(b: seq<bit>)
    requires |b| > 0
    ensures SquareSum(b, 0, 0, 1) == Square(|b|)
  {
    EmptyPatternCount(b, |b|);
    assert SquareSum(b, 0, 0, 1) == SquareSum(b, 0, 0, 0) + Square(Occurrences(b, 0, 0));
  }

  /** The formula of psi-squared gives the source's zero for m = 0 as well. */
  lemma ScaledPsi2Formula(b: seq<bit>, m: nat)
    requires |b| > 0
    ensures ScaledPsi2(b, m) == SquareSum(b, m, 0, Pow2(m)) * Pow2(m) - Square(|b|)
  {
    if m == 0 { EmptyPatternSquare(b); }
  }

  /** How far the k first pattern counts, times 2^m, are from n, squared and added up. */
  function Deviations(b: seq<bit>, m: nat, k: nat): nat
    requires |b| > 0
  {
    if k == 0 then 0 else Deviations(b, m, k - 1) + Square(Pow2(m) * Occurrences(b, m, k - 1) - |b|)
  }

  lemma DeviationArithmetic(p: int, c: int, n: int)
    ensures Square(p * c - n) == p * (p * Square(c)) - 2 * n * (p * c) + n * n
  {}

  lemma {:induction false} DeviationsExpand(b: seq<bit>, m: nat, k: nat)
    requires |b| > 0
    ensures var p, n := Pow2(m), |b|;
      Deviations(b, m, k) == p * (p * SquareSum(b, m, 0, k)) - 2 * n * (p * Total(b, m, k)) + k * (n * n)
  {
    if k > 0 {
      var p, n, c := Pow2(m), |b|, Occurrences(b, m, k - 1);
      DeviationsExpand(b, m, k - 1);
      DeviationArithmetic(p, c, n);
      ExpandStep(p, n, SquareSum(b, m, 0, k - 1), Square(c), Total(b, m, k - 1), c, k);
    }
  }

  lemma ExpandStep(p: int, n: int, q: int, d: int, t: int, c: int, k: int)
    ensures (p * (p * q) - 2 * n * (p * t) + (k - 1) * (n * n)) + (p * (p * d) - 2 * n * (p * c) + n * n)
         == p * (p * (q + d)) - 2 * n * (p * (t + c)) + k * (n * n)
  {}

  /** psi-squared is the chi-square statistic of the counts against n / 2^m each: its form in the
      standard, and so never negative. */
  lemma Psi2IsChiSquare(b: seq<bit>, m: nat)
    requires |b| > 0
    ensures Pow2(m) * ScaledPsi2(b, m) == Deviations(b, m, Pow2(m))
    ensures ScaledPsi2(b, m) >= 0
  {
    ScaledPsi2Formula(b, m);
    DeviationsExpand(b, m, Pow2(m));
    CountsTotal(b, m);
    ChiArithmetic(Pow2(m), |b|, SquareSum(b, m, 0, Pow2(m)), Square(|b|));
    PositiveFactor(Pow2(m), ScaledPsi2(b, m));
  }

  lemma ChiArithmetic(p: int, n: int, q: int, n2: int)
    requires n2 == n * n
    ensures p * (q * p - n2) == p * (p * q) - 2 * n * (p * n) + p * (n * n)
  {}

  lemma PositiveFactor(p: int, x: int)
    requires p > 0 && p * x >= 0
    ensures x >= 0
  {}

  lemma FirstArithmetic(hi: nat, lo: nat, split: nat, p: nat, n2: int)
    requires 2 * hi == lo + split
    ensures (hi * (2 * p) - n2) - (lo * p - n2) == p * split
  {}

  lemma SecondArithmetic(hi: nat, mid: nat, lo: nat, split: nat, p: nat, n2: int)
    requires 4 * hi + lo == 4 * mid + split
    ensures (hi * (4 * p) - n2) - 2 * (mid * (2 * p) - n2) + (lo * p - n2) == p * split
  {}

  /** n del1 is 2^(m-1) times the sum, over all (m-1)-bit patterns, of the squared difference between
      the counts of its two one-bit extensions. */
  lemma Del1IsSumOfSquares(b: seq<bit>, m: nat)
    requires |b| > 0 && m >= 1
    ensures ScaledDel1(b, m) == Pow2(m - 1) * SplitLastSum(b, m - 1, Pow2(m - 1))
  {
    var p := Pow2(m - 1);
    ScaledPsi2Formula(b, m);
    ScaledPsi2Formula(b, m - 1);
    FirstDifference(b, m - 1, p);
    FirstArithmetic(SquareSum(b, m, 0, 2 * p), SquareSum(b, m - 1, 0, p), SplitLastSum(b, m - 1, p), p, Square(|b|));
  }

  lemma FourTotal(b: seq<bit>, m: nat)
    requires |b| > 0
    ensures FourSum(b, m, Pow2(m)) == SquareSum(b, m + 2, 0, 4 * Pow2(m))
  {
    SquareSumSplit(b, m + 2, 0, 2 * Pow2(m), 2 * Pow2(m));
  }

  lemma RowTotal(b: seq<bit>, m: nat)
    requires |b| > 0
    ensures RowSum(b, m, Pow2(m)) == ColumnSum(b, m, Pow2(m))
  {
    SquareSumSplit(b, m + 1, 0, Pow2(m), Pow2(m));
  }

  lemma SecondTotal(b: seq<bit>, m: nat)
    requires |b| > 0
    ensures 4 * SquareSum(b, m + 2, 0, 4 * Pow2(m)) + SquareSum(b, m, 0, Pow2(m))
         == 4 * ColumnSum(b, m, Pow2(m)) + SplitBothSum(b, m, Pow2(m))
  {
    SecondDifference(b, m, Pow2(m));
    FourTotal(b, m);
    RowTotal(b, m);
  }

  /** n del2 is 2^(m-2) times the sum, over all (m-2)-bit middles, of the squared interaction between
      the bit before and the bit after. */
  lemma Del2IsSumOfSquares(b: seq<bit>, m: nat)
    requires |b| > 0 && m >= 2
    ensures ScaledDel2(b, m) == Pow2(m - 2) * SplitBothSum(b, m - 2, Pow2(m - 2))
  {
    var p := Pow2(m - 2);
    ScaledPsi2Formula(b, m);
    ScaledPsi2Formula(b, m - 1);
    ScaledPsi2Formula(b, m - 2);
    SecondTotal(b, m - 2);
    SecondArithmetic(SquareSum(b, m, 0, 4 * p), SquareSum(b, m - 1, 0, 2 * p), SquareSum(b, m - 2, 0, p),
                     SplitBothSum(b, m - 2, p), p, Square(|b|));
  }

  lemma ProductZero(p: nat, x: nat)
    requires p > 0
    ensures p * x >= 0 && (p * x == 0 <==> x == 0)
  {}

  /** Both differences are nonnegative for every bit sequence and every m; del1 vanishes exactly when
      each (m-1)-bit pattern is followed by zero as often as by one. */
  lemma DifferencesNonNegative(b: seq<bit>, m: nat)
    requires |b| > 0
    ensures ScaledDel1(b, m) >= 0 && ScaledDel2(b, m) >= 0
    ensures m >= 1 ==> (ScaledDel1(b, m) == 0 <==>
      forall w :: 0 <= w < Pow2(m - 1) ==> Occurrences(b, m, 2 * w) == Occurrences(b, m, 2 * w + 1))
  {
    if m >= 1 {
      Del1IsSumOfSquares(b, m);
      ProductZero(Pow2(m - 1), SplitLastSum(b, m - 1, Pow2(m - 1)));
      SplitLastSumZero(b, m - 1, Pow2(m - 1));
    }
    if m >= 2 {
      Del2IsSumOfSquares(b, m);
      ProductZero(Pow2(m - 2), SplitBothSum(b, m - 2, Pow2(m - 2)));
    }
  }

  lemma {:induction false} SplitLastSumZero(b: seq<bit>, m: nat, k: nat)
    requires |b| > 0
    ensures SplitLastSum(b, m, k) == 0 <==>
      forall w :: 0 <= w < k ==> Occurrences(b, m + 1, 2 * w) == Occurrences(b, m + 1, 2 * w + 1)
  {
    if k > 0 {
      SplitLastSumZero(b, m, k - 1);
      var d := SplitLast(b, m, k - 1);
      if d != 0 { assert Square(d) > 0; }
    }
  }

  // ---- the test itself ----

  lemma {:induction false} Pow2Exceeds(m: nat)
    ensures Pow2(m) > m
  {
    if m > 0 { Pow2Exceeds(m - 1); }
  }

  method SumOfSquares(counts: array<nat>, ghost b: seq<bit>, ghost m: nat) returns (sum: nat)
    requires |b| > 0 && forall v :: 0 <= v < counts.Length ==> counts[v] == Occurrences(b, m, v)
    ensures sum == SquareSum(b, m, 0, counts.Length)
  {
    sum := 0;
    for v := 0 to counts.Length
      invariant sum == SquareSum(b, m, 0, v)
    {
      sum := sum + Square(counts[v]);
    }
  }

  lemma Unscale(sum: nat, p: nat, n: nat)
    requires n > 0
    ensures (sum as real) * (p as real) / (n as real) - (n as real) == (sum * p - n * n) as real / (n as real)
  {
    var x, r := (sum * p) as real, n as real;
    assert (n * n) as real == r * r;
    assert x / r - r == (x - r * r) / r;
  }

  /** psi-squared itself. */
  method Psi2(b: seq<bit>, m: int) returns (psi: real)
    requires |b| > 0 && m <= |b| + 1
    ensures psi == ScaledPsi2(b, m) as real / |b| as real
  {
    hide Positions, Occurrences, SquareSum;
    if m <= 0 { return 0.0; }
    var counts := PatternCounts(b, m);
    var sum := SumOfSquares(counts, b, m);
    Unscale(sum, Pow2(m), |b|);
    psi := (sum as real) * (Pow2(m) as real) / (|b| as real) - (|b| as real);
  }

  lemma Quotients(x: int, y: int, z: int, n: nat)
    requires n > 0
    ensures (x as real / n as real) - (y as real / n as real) == (x - y) as real / n as real
    ensures (x as real / n as real) - 2.0 * (y as real / n as real) + (z as real / n as real)
         == (x - 2 * y + z) as real / n as real
    ensures x >= 0 ==> x as real / n as real >= 0.0
  {}

  /** The two differences whose halves go to the incomplete gamma function; not applicable to fewer
      than 2^m bits. */
  method SerialDifferences(b: seq<bit>, m: nat) returns (del: Option<(real, real)>)
    ensures del.None? <==> |b| < Pow2(m)
    ensures del.Some? ==> del.value.0 == ScaledDel1(b, m) as real / |b| as real
    ensures del.Some? ==> del.value.1 == ScaledDel2(b, m) as real / |b| as real
    ensures del.Some? ==> del.value.0 >= 0.0 && del.value.1 >= 0.0
  {
    if |b| < Pow2(m) { return None; }
    Pow2Exceeds(m);
    var pm := Psi2(b, m);
    var pm1 := Psi2(b, m - 1);
    var pm2 := Psi2(b, m - 2);
    DifferencesNonNegative(b, m);
    Quotients(ScaledPsi2(b, m), ScaledPsi2(b, m - 1), ScaledPsi2(b, m - 2), |b|);
    Quotients(ScaledDel1(b, m), 0, 0, |b|);
    Quotients(ScaledDel2(b, m), 0, 0, |b|);
    return Some((pm - pm1, pm - 2.0 * pm1 + pm2));
  }
}
