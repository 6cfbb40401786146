/** The adaptive proportion cutoff of health.go as a binomial quantile, in exact real arithmetic. */
module Binomial {

  function Power(x: real, n: nat): real {
    if n == 0 then 1.0 else x * Power(x, n - 1)
  }

  /** Pascal's triangle. */
  function Choose(n: nat, k: int): nat {
    if k < 0 || k > n then 0
    else if n == 0 then 1
    else Choose(n - 1, k) + Choose(n - 1, k - 1)
  }

  function Factorial(n: nat): nat {
    if n == 0 then 1 else n * Factorial(n - 1)
  }

  lemma ChooseArithmetic(x: nat, y: nat, k: nat, m: nat, f: nat, g: nat, t: nat)
    requires x * (k * f) * g == t && y * f * (m * g) == t
    ensures (x + y) * (k * f) * (m * g) == (k + m) * t
  {
    assert x * (k * f) * (m * g) == m * (x * (k * f) * g);
    assert y * (k * f) * (m * g) == k * (y * f * (m * g));
  }

  /** The coefficient the source takes from log-gamma: n! / (k! (n-k)!). */
  lemma {:induction false} ChooseIsFactorials(n: nat, k: nat)
    requires k <= n
    ensures Choose(n, k) * Factorial(k) * Factorial(n - k) == Factorial(n)
  {
    if n == 0 {
    } else if k == 0 {
      ChooseIsFactorials(n - 1, 0);
      assert Choose(n, 0) == Choose(n - 1, 0);
      assert Factorial(n) == n * Factorial(n - 1);
    } else if k == n {
      ChooseIsFactorials(n - 1, n - 1);
      assert Choose(n, n) == Choose(n - 1, n - 1);
    } else {
      ChooseIsFactorials(n - 1, k);
      ChooseIsFactorials(n - 1, k - 1);
      ChooseArithmetic(Choose(n - 1, k), Choose(n - 1, k - 1), k, n - k,
                       Factorial(k - 1), Factorial(n - 1 - k), Factorial(n - 1));
    }
  }

  /** P(X = c) for X ~ Binomial(n, p). */
  function Term(n: nat, p: real, c: int): real {
    if c < 0 || c > n then 0.0 else Choose(n, c) as real * Power(p, c) * Power(1.0 - p, n - c)
  }

  function Pmf(n: nat, p: real): int -> real {
    c => Term(n, p, c)
  }

  function Cumulative(f: int -> real, c: int): real {
    if c < 0 then 0.0 else Cumulative(f, c - 1) + f(c)
  }

  /** P(X <= c). */
  function Cdf(n: nat, p: real, c: int): real {
    Cumulative(Pmf(n, p), c)
  }

  // ---- one more trial ----

  lemma TermArithmetic(x: real, y: real, a: real, b: real, p: real, q: real)
    ensures (x + y) * (p * a) * (q * b) == q * (x * (p * a) * b) + p * (y * a * (q * b))
  {
    assert (x + y) * (p * a) * (q * b) == x * (p * a) * (q * b) + y * (p * a) * (q * b);
    assert x * (p * a) * (q * b) == q * (x * (p * a) * b);
    assert y * (p * a) * (q * b) == p * (y * a * (q * b));
  }

  lemma EdgeArithmetic(x: real, a: real, p: real)
    ensures x * (p * a) == p * (x * a)
  {}

  lemma TermInside(n: nat, p: real, c: int)
    requires 1 <= c <= n
    ensures Term(n + 1, p, c) == (1.0 - p) * Term(n, p, c) + p * Term(n, p, c - 1)
  {
    var q := 1.0 - p;
    TermArithmetic(Choose(n, c) as real, Choose(n, c - 1) as real, Power(p, c - 1), Power(q, n - c), p, q);
  }

  lemma TermAtEnds(n: nat, p: real)
    ensures Term(n + 1, p, 0) == (1.0 - p) * Term(n, p, 0)
    ensures Term(n + 1, p, n + 1) == p * Term(n, p, n)
  {
    var q := 1.0 - p;
    assert Choose(n + 1, 0) == Choose(n, 0) && Choose(n + 1, n + 1) == Choose(n, n);
    assert Power(q, n + 1) == q * Power(q, n) && Power(p, n + 1) == p * Power(p, n);
    EdgeArithmetic(Choose(n, 0) as real, Power(q, n), q);
    EdgeArithmetic(Choose(n, n) as real, Power(p, n), p);
  }

  /** A trial more succeeds with probability p. */
  lemma TermRecurrence(n: nat, p: real, c: int)
    ensures Term(n + 1, p, c) == (1.0 - p) * Term(n, p, c) + p * Term(n, p, c - 1)
  {
    if 1 <= c <= n {
      TermInside(n, p, c);
    } else if c == 0 || c == n + 1 {
      TermAtEnds(n, p);
    }
  }

  lemma Regroup(q: real, p: real, a: real, b: real, s: real, t: real)
    ensures (q * a + p * b) + (q * s + p * t) == q * (a + s) + p * (b + t)
  {}

  function Mix(p: real, miss: real, hit: real): real {
    (1.0 - p) * miss + p * hit
  }

  /** g is f after one more trial. */
  ghost predicate Extends(f: int -> real, g: int -> real, p: real) {
    f(-1) == 0.0 && forall d :: ExtendsAt(f, g, p, d)
  }

  ghost predicate ExtendsAt(f: int -> real, g: int -> real, p: real, d: int) {
    g(d) == Mix(p, f(d), f(d - 1))
  }

  lemma {:induction false} CumulativeExtends(f: int -> real, g: int -> real, p: real, c: int)
    requires Extends(f, g, p)
    ensures Cumulative(g, c) == Mix(p, Cumulative(f, c), Cumulative(f, c - 1))
  {
    if c >= 0 {
      CumulativeExtends(f, g, p, c - 1);
      assert ExtendsAt(f, g, p, c);
      Regroup(1.0 - p, p, Cumulative(f, c - 1), Cumulative(f, c - 2), f(c), f(c - 1));
    }
  }

  lemma PmfExtendsAt(n: nat, p: real, d: int)
    ensures ExtendsAt(Pmf(n, p), Pmf(n + 1, p), p, d)
  {
    TermRecurrence(n, p, d);
  }

  lemma PmfExtends(n: nat, p: real)
    ensures Extends(Pmf(n, p), Pmf(n + 1, p), p)
  {
    var f, g := Pmf(n, p), Pmf(n + 1, p);
    forall d ensures ExtendsAt(f, g, p, d) { PmfExtendsAt(n, p, d); }
  }

  lemma CdfRecurrence(n: nat, p: real, c: int)
    ensures Cdf(n + 1, p, c) == Mix(p, Cdf(n, p, c), Cdf(n, p, c - 1))
  {
    PmfExtends(n, p);
    CumulativeExtends(Pmf(n, p), Pmf(n + 1, p), p, c);
  }

  // ---- what the recurrence alone implies ----

  /** F(n, c) is the probability of at most c successes in n trials of probability p. */
  ghost predicate Trials(F: (nat, int) -> real, p: real) {
    && (forall c: int :: F(0, c) == if c < 0 then 0.0 else 1.0)
    && (forall n: nat, c: int :: F(n + 1, c) == Mix(p, F(n, c), F(n, c - 1)))
  }

  lemma {:induction false} CdfOfNoTrial(p: real, c: int)
    ensures Cdf(0, p, c) == if c < 0 then 0.0 else 1.0
  {
    if c == 0 {
      assert Cumulative(Pmf(0, p), 0) == Cumulative(Pmf(0, p), -1) + Pmf(0, p)(0);
    } else if c > 0 {
      CdfOfNoTrial(p, c - 1);
    }
  }

  function CdfFamily(p: real): (nat, int) -> real {
    (n: nat, c: int) => Cdf(n, p, c)
  }

  lemma CdfIsTrials(p: real)
    ensures Trials(CdfFamily(p), p)
  {
    var F := CdfFamily(p);
    forall c: int ensures F(0, c) == if c < 0 then 0.0 else 1.0 { CdfOfNoTrial(p, c); }
    forall n: nat, c: int ensures F(n + 1, c) == Mix(p, F(n, c), F(n, c - 1)) { CdfRecurrence(n, p, c); }
  }

  lemma MixLemma(p: real, a: real, b: real, a': real, b': real)
    requires 0.0 <= p <= 1.0 && a <= a' && b <= b'
    ensures Mix(p, a, b) <= Mix(p, a', b')
  {
    ProductNonNegative(1.0 - p, a' - a);
    ProductNonNegative(p, b' - b);
  }

  lemma MixShift(p: real, r: real, a: real, b: real)
    requires p <= r && b <= a
    ensures Mix(r, a, b) <= Mix(p, a, b)
  {
    ProductNonNegative(r - p, a - b);
  }

  lemma ProductNonNegative(x: real, y: real)
    requires x >= 0.0 && y >= 0.0
    ensures x * y >= 0.0
  {}

  lemma {:induction false} TrialsTotal(F: (nat, int) -> real, p: real, n: nat, c: int)
    requires Trials(F, p) && c >= n
    ensures F(n, c) == 1.0
  {
    if n > 0 {
      TrialsTotal(F, p, n - 1, c);
      TrialsTotal(F, p, n - 1, c - 1);
      assert F(n - 1 + 1, c) == Mix(p, F(n - 1, c), F(n - 1, c - 1));
    }
  }

  lemma {:induction false} TrialsStep(F: (nat, int) -> real, p: real, n: nat, c: int)
    requires Trials(F, p) && 0.0 <= p <= 1.0
    ensures F(n, c - 1) <= F(n, c)
  {
    if n > 0 {
      TrialsStep(F, p, n - 1, c);
      TrialsStep(F, p, n - 1, c - 1);
      assert F(n - 1 + 1, c) == Mix(p, F(n - 1, c), F(n - 1, c - 1));
      assert F(n - 1 + 1, c - 1) == Mix(p, F(n - 1, c - 1), F(n - 1, c - 2));
      MixLemma(p, F(n - 1, c - 1), F(n - 1, c - 2), F(n - 1, c), F(n - 1, c - 1));
    }
  }

  lemma {:induction false} TrialsAntitone(F: (nat, int) -> real, p: real, G: (nat, int) -> real, r: real, n: nat, c: int)
    requires Trials(F, p) && Trials(G, r) && 0.0 <= p <= r <= 1.0
    ensures G(n, c) <= F(n, c)
  {
    if n > 0 {
      TrialsAntitone(F, p, G, r, n - 1, c);
      TrialsAntitone(F, p, G, r, n - 1, c - 1);
      TrialsStep(F, p, n - 1, c);
      assert F(n - 1 + 1, c) == Mix(p, F(n - 1, c), F(n - 1, c - 1));
      assert G(n - 1 + 1, c) == Mix(r, G(n - 1, c), G(n - 1, c - 1));
      MixLemma(r, G(n - 1, c), G(n - 1, c - 1), F(n - 1, c), F(n - 1, c - 1));
      MixShift(p, r, F(n - 1, c), F(n - 1, c - 1));
    }
  }

  /** The binomial theorem for p + (1-p) = 1: the probabilities add up to one. */
  lemma CdfTotal(n: nat, p: real)
    ensures Cdf(n, p, n) == 1.0
  {
    CdfIsTrials(p);
    TrialsTotal(CdfFamily(p), p, n, n);
  }

  lemma {:induction false} CdfMonotone(n: nat, p: real, c: int, d: int)
    requires 0.0 <= p <= 1.0 && c <= d
    ensures Cdf(n, p, c) <= Cdf(n, p, d)
    decreases d - c
  {
    if c < d {
      CdfMonotone(n, p, c, d - 1);
      CdfIsTrials(p);
      TrialsStep(CdfFamily(p), p, n, d);
    }
  }

  /** A likelier success makes small counts less likely. */
  lemma CdfAntitoneInP(n: nat, p: real, r: real, c: int)
    requires 0.0 <= p <= r <= 1.0
    ensures Cdf(n, r, c) <= Cdf(n, p, c)
  {
    CdfIsTrials(p);
    CdfIsTrials(r);
    TrialsAntitone(CdfFamily(p), p, CdfFamily(r), r, n, c);
  }

  // ---- the cutoff ----

  /** cut is the smallest c with P(X <= c) >= 1 - alpha. */
  ghost predicate IsQuantile(n: nat, p: real, alpha: real, cut: nat) {
    && Cdf(n, p, cut) >= 1.0 - alpha
    && forall c :: 0 <= c < cut ==> Cdf(n, p, c) < 1.0 - alpha
  }

  /** Sums the upper tail down from n until it exceeds alpha. The probability p is the source's
      2^-minEntropy. */
  method AptCutoff(window: nat, p: real, alpha: real) returns (cut: nat)
    requires window >= 1 && 0.0 < p <= 1.0 && 0.0 < alpha < 1.0
    ensures cut < window
    ensures IsQuantile(window - 1, p, alpha, cut)
  {
    var n := window - 1;
    CdfTotal(n, p);
    if p >= 1.0 {
      CertainSuccess(n);
      return n;
    }
    var tail := 0.0;
    var c: int := n;
    while c >= 0
      invariant -1 <= c <= n
      invariant tail == 1.0 - Cdf(n, p, c)
      invariant Cdf(n, p, c + 1) >= 1.0 - alpha
    {
      if tail > alpha {
        BelowQuantile(n, p, alpha, c);
        return c + 1;
      }
      tail := tail + Term(n, p, c);
      c := c - 1;
    }
    return 0;
  }

  lemma BelowQuantile(n: nat, p: real, alpha: real, c: int)
    requires 0.0 <= p <= 1.0 && Cdf(n, p, c) < 1.0 - alpha
    ensures forall d :: 0 <= d <= c ==> Cdf(n, p, d) < 1.0 - alpha
  {
    forall d | 0 <= d <= c ensures Cdf(n, p, d) < 1.0 - alpha { CdfMonotone(n, p, d, c); }
  }

  lemma {:induction false} CertainSuccess(n: nat)
    ensures forall c :: c < n ==> Cdf(n, 1.0, c) == 0.0
  {
    forall c | c < n ensures Cdf(n, 1.0, c) == 0.0 { CertainSuccessAt(n, c); }
  }

  lemma {:induction false} CertainSuccessAt(n: nat, c: int)
    requires c < n
    ensures Cdf(n, 1.0, c) == 0.0
    decreases if c < 0 then 0 else c + 1
  {
    if c >= 0 {
      CertainSuccessAt(n, c - 1);
      assert Power(0.0, n - c) == 0.0 * Power(0.0, n - c - 1);
    }
  }

  /** A smaller false-positive rate never lowers the cutoff, and neither does a likelier repeat. */
  lemma CutoffMonotone(n: nat, p: real, alpha: real, cut: nat, p': real, alpha': real, cut': nat)
    requires 0.0 <= p <= p' <= 1.0 && alpha' <= alpha
    requires IsQuantile(n, p, alpha, cut) && IsQuantile(n, p', alpha', cut')
    ensures cut <= cut'
  {
    CdfAntitoneInP(n, p, p', cut');
  }
}
