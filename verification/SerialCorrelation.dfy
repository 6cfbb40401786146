/** The cyclic serial correlation of stattest/stattest.go, in exact arithmetic: where it lies and
    which inputs reach the ends of its range. */
module SerialCorrelation {
  import opened Common

  function Sum(s: seq<int>): int {
    if s == [] then 0 else Sum(s[..|s| - 1]) + s[|s| - 1]
  }

  function Dot(s: seq<int>, t: seq<int>): int
    requires |s| == |t|
  {
    if s == [] then 0 else Dot(s[..|s| - 1], t[..|s| - 1]) + s[|s| - 1] * t[|s| - 1]
  }

  /** n times the sum of squares less the square of the sum: n^2 times the variance. */
  function Spread(s: seq<int>): int {
    |s| * Dot(s, s) - Sum(s) * Sum(s)
  }

  predicate AllEqual(s: seq<int>) {
    forall i, j :: 0 <= i < j < |s| ==> s[i] == s[j]
  }

  // ---- Cauchy-Schwarz ----

  /** The sum of the squared distances to x. */
  function Deviation(s: seq<int>, x: int): int {
    Dot(s, s) - 2 * x * Sum(s) + |s| * x * x
  }

  lemma SquareNonNegative(d: int)
    ensures d * d >= 0 && (d * d == 0 <==> d == 0)
  {}

  lemma DeviationStep(s: seq<int>, x: int)
    requires s != []
    ensures var y := s[|s| - 1];
      Deviation(s, x) == Deviation(s[..|s| - 1], x) + (y - x) * (y - x)
  {
    var t, y := s[..|s| - 1], s[|s| - 1];
    assert (y - x) * (y - x) == y * y - 2 * x * y + x * x;
    assert 2 * x * (Sum(t) + y) == 2 * x * Sum(t) + 2 * x * y;
    assert (|t| + 1) * x * x == |t| * x * x + x * x;
  }

  lemma {:induction false} DeviationNonNegative(s: seq<int>, x: int)
    ensures Deviation(s, x) >= 0
    ensures Deviation(s, x) == 0 <==> forall i :: 0 <= i < |s| ==> s[i] == x
  {
    if s != [] {
      DeviationStep(s, x);
      DeviationNonNegative(s[..|s| - 1], x);
      SquareNonNegative(s[|s| - 1] - x);
    }
  }

  lemma SpreadArithmetic(n: int, q: int, s: int, y: int)
    ensures (n + 1) * (q + y * y) - (s + y) * (s + y) == (n * q - s * s) + (q - 2 * y * s + n * y * y)
  {}

  lemma SpreadStep(s: seq<int>)
    requires s != []
    ensures Spread(s) == Spread(s[..|s| - 1]) + Deviation(s[..|s| - 1], s[|s| - 1])
  {
    var t, y := s[..|s| - 1], s[|s| - 1];
    SpreadArithmetic(|t|, Dot(t, t), Sum(t), y);
  }

  /** The variance is never negative and vanishes exactly on constant sequences. */
  lemma {:induction false} SpreadNonNegative(s: seq<int>)
    ensures Spread(s) >= 0
    ensures Spread(s) == 0 <==> AllEqual(s)
  {
    if s != [] {
      var t := s[..|s| - 1];
      SpreadStep(s);
      SpreadNonNegative(t);
      DeviationNonNegative(t, s[|s| - 1]);
      assert AllEqual(s) ==> AllEqual(t);
      assert AllEqual(t) && (forall i :: 0 <= i < |t| ==> t[i] == s[|s| - 1]) ==> AllEqual(s);
    }
  }

  // ---- a sequence and its cyclic neighbours ----

  function Rotated(s: seq<int>): seq<int>
    requires s != []
  {
    s[1..] + [s[0]]
  }

  function Plus(s: seq<int>, t: seq<int>, c: int): seq<int>
    requires |s| == |t|
  {
    seq(|s|, i requires 0 <= i < |s| => s[i] + c * t[i])
  }

  lemma {:induction false} SumAndDotFront(s: seq<int>)
    requires s != []
    ensures Sum(s) == s[0] + Sum(s[1..])
    ensures Dot(s, s) == s[0] * s[0] + Dot(s[1..], s[1..])
  {
    if |s| > 1 {
      var t := s[..|s| - 1];
      SumAndDotFront(t);
      assert s[1..][..|s| - 2] == t[1..];
    }
  }

  lemma AppendSums(s: seq<int>, x: int)
    ensures Sum(s + [x]) == Sum(s) + x
    ensures Dot(s + [x], s + [x]) == Dot(s, s) + x * x
  {
    assert (s + [x])[..|s|] == s;
  }

  /** Turning the sequence by one place keeps its sum and its sum of squares. */
  lemma RotationKeeps(s: seq<int>)
    requires s != []
    ensures Sum(Rotated(s)) == Sum(s) && Dot(Rotated(s), Rotated(s)) == Dot(s, s)
  {
    SumAndDotFront(s);
    AppendSums(s[1..], s[0]);
  }

  lemma PlusArithmetic(a: int, b: int, c: int)
    ensures (a + c * b) * (a + c * b) == a * a + 2 * c * (a * b) + c * c * (b * b)
  {}

  lemma {:induction false} PlusExpands(s: seq<int>, t: seq<int>, c: int)
    requires |s| == |t|
    ensures Sum(Plus(s, t, c)) == Sum(s) + c * Sum(t)
    ensures Dot(Plus(s, t, c), Plus(s, t, c)) == Dot(s, s) + 2 * c * Dot(s, t) + c * c * Dot(t, t)
  {
    if s != [] {
      var k := |s| - 1;
      var s', t' := s[..k], t[..k];
      PlusExpands(s', t', c);
      assert Plus(s, t, c)[..k] == Plus(s', t', c);
      PlusArithmetic(s[k], t[k], c);
      Distribute(c, Sum(t'), t[k]);
      Distribute(2 * c, Dot(s', t'), s[k] * t[k]);
      Distribute(c * c, Dot(t', t'), t[k] * t[k]);
    }
  }

  lemma Distribute(c: int, x: int, y: int)
    ensures c * (x + y) == c * x + c * y
  {}

  // ---- the correlation ----

  /** The numerator and the denominator the source divides. */
  function Numerator(s: seq<int>): int
    requires s != []
  {
    |s| * Dot(s, Rotated(s)) - Sum(s) * Sum(s)
  }

  lemma {:induction false} NeighboursEqual(s: seq<int>, k: nat)
    requires k < |s|
    requires forall i :: 0 <= i < |s| - 1 ==> s[i] == s[i + 1]
    ensures s[k] == s[0]
  {
    if k > 0 { NeighboursEqual(s, k - 1); }
  }

  lemma GapsVanish(s: seq<int>)
    requires s != []
    ensures AllEqual(s) <==> forall i :: 0 <= i < |s| ==> Plus(s, Rotated(s), -1)[i] == 0
  {
    var r := Rotated(s);
    var gap := Plus(s, r, -1);
    forall i | 0 <= i < |s| ensures gap[i] == s[i] - (if i + 1 == |s| then s[0] else s[i + 1]) {}
    if forall i :: 0 <= i < |s| ==> gap[i] == 0 {
      forall i | 0 <= i < |s| - 1 ensures s[i] == s[i + 1] { assert gap[i] == 0; }
      forall i | 0 <= i < |s| ensures s[i] == s[0] { NeighboursEqual(s, i); }
    }
  }

  /** The numerator is at most the denominator, with equality only on constant sequences. */
  lemma UpperBound(s: seq<int>)
    requires s != []
    ensures Numerator(s) <= Spread(s)
    ensures Numerator(s) == Spread(s) <==> AllEqual(s)
  {
    var r := Rotated(s);
    var gap := Plus(s, r, -1);
    RotationKeeps(s);
    PlusExpands(s, r, -1);
    DeviationNonNegative(gap, 0);
    GapsVanish(s);
    UpperArithmetic(|s|, Dot(s, s), Dot(s, r), Sum(s), Dot(gap, gap));
  }

  lemma UpperArithmetic(n: int, q: int, x: int, t: int, e: int)
    requires n > 0 && e >= 0 && e == 2 * q - 2 * x
    ensures n * x - t * t <= n * q - t * t
    ensures n * x - t * t == n * q - t * t <==> e == 0
  {
    assert n * q - n * x == n * (q - x);
    assert q - x > 0 ==> n * (q - x) > 0;
  }

  lemma LowerArithmetic(n: int, q: int, x: int, t: int)
    ensures n * (2 * q + 2 * x) - (2 * t) * (2 * t) == 2 * ((n * q - t * t) + (n * x - t * t))
  {}

  /** The numerator is at least minus the denominator, with equality exactly when cyclic neighbours
      have a constant sum. */
  lemma LowerBound(s: seq<int>)
    requires s != []
    ensures -Spread(s) <= Numerator(s)
    ensures Numerator(s) == -Spread(s) <==> AllEqual(Plus(s, Rotated(s), 1))
  {
    var r := Rotated(s);
    var pairs := Plus(s, r, 1);
    RotationKeeps(s);
    PlusExpands(s, r, 1);
    SpreadNonNegative(pairs);
    assert Dot(pairs, pairs) == 2 * Dot(s, s) + 2 * Dot(s, r) && Sum(pairs) == 2 * Sum(s);
    LowerArithmetic(|s|, Dot(s, s), Dot(s, r), Sum(s));
  }

  lemma SignOfProduct(x: real, d: real)
    requires d > 0.0
    ensures x * d == 0.0 <==> x == 0.0
    ensures x * d <= 0.0 <==> x <= 0.0
  {
    assert x > 0.0 ==> x * d > 0.0;
    assert x < 0.0 ==> x * d < 0.0;
  }

  lemma QuotientBounds(num: int, den: int)
    requires den > 0 && -den <= num <= den
    ensures -1.0 <= num as real / den as real <= 1.0
    ensures num as real / den as real == 1.0 <==> num == den
    ensures num as real / den as real == -1.0 <==> num == -den
  {
    var d := den as real;
    var q := num as real / d;
    assert q * d == num as real;
    assert (q - 1.0) * d == num as real - d;
    assert (-1.0 - q) * d == -d - num as real;
    SignOfProduct(q - 1.0, d);
    SignOfProduct(-1.0 - q, d);
  }

  /** The serial correlation lies in [-1, 1]; it is 1 exactly when all bytes are equal (where the
      quotient would be 0/0), and -1 exactly when cyclic neighbours of unequal bytes have a constant
      sum. Fewer than two bytes give 0. */
  method Correlation(data: seq<byte>) returns (r: real)
    ensures |data| < 2 ==> r == 0.0
    ensures -1.0 <= r <= 1.0
    ensures |data| >= 2 ==> (r == 1.0 <==> AllEqual(data))
    ensures |data| >= 2 ==> (r == -1.0 <==> !AllEqual(data) && AllEqual(Plus(data, Rotated(data), 1)))
    ensures |data| >= 2 && !AllEqual(data) ==> Spread(data) > 0 && r == Numerator(data) as real / Spread(data) as real
  {
    var n := |data|;
    if n < 2 { return 0.0; }
    var t1, t2, t3 := LoopSums(data);
    var den := n * t3 - t2 * t2;
    SpreadNonNegative(data);
    if den == 0 { return 1.0; }
    UpperBound(data);
    LowerBound(data);
    QuotientBounds(Numerator(data), Spread(data));
    return (n * t1 - t2 * t2) as real / den as real;
  }

  lemma NextIndex(i: nat, n: nat)
    requires i < n
    ensures (i + 1) % n == if i + 1 == n then 0 else i + 1
  {}

  lemma PrefixStep(s: seq<int>, t: seq<int>, i: nat)
    requires i < |s| == |t|
    ensures Sum(s[..i + 1]) == Sum(s[..i]) + s[i]
    ensures Dot(s[..i + 1], t[..i + 1]) == Dot(s[..i], t[..i]) + s[i] * t[i]
  {
    assert s[..i + 1][..i] == s[..i] && t[..i + 1][..i] == t[..i];
  }

  method LoopSums(data: seq<byte>) returns (t1: int, t2: int, t3: int)
    requires data != []
    ensures t1 == Dot(data, Rotated(data)) && t2 == Sum(data) && t3 == Dot(data, data)
  {
    t1, t2, t3 := 0, 0, 0;
    ghost var r: seq<int> := Rotated(data);
    for i := 0 to |data|
      invariant t1 == Dot(data[..i], r[..i]) && t2 == Sum(data[..i]) && t3 == Dot(data[..i], data[..i])
    {
      var u: int := data[i];
      var next: int := data[(i + 1) % |data|];
      NextIndex(i, |data|);
      PrefixStep(data, r, i);
      PrefixStep(data, data, i);
      t1 := t1 + u * next;
      t2 := t2 + u;
      t3 := t3 + u * u;
    }
    assert data[..|data|] == data && r[..|data|] == r;
  }
}
