/** Overlapping m-bit patterns of a cyclic bit sequence and the serial test built on their counts
    (SP 800-22 section 2.11), from stattest/nist.go. */
module CyclicPatterns {
  import opened Common

  // ---- windows ----

  /** The m-bit pattern starting at position i of the cyclic sequence, first bit most significant. */
  function Window(b: seq<bit>, i: nat, m: nat): (v: nat)
    requires |b| > 0
    ensures v < Pow2(m)
  {
    if m == 0 then 0 else 2 * Window(b, i, m - 1) + b[(i + m - 1) % |b|]
  }

  /** A window is its first bit followed by the window one position on. */
  lemma {:induction false} WindowFront(b: seq<bit>, i: nat, m: nat)
    requires |b| > 0
    ensures Window(b, i, m + 1) == b[i % |b|] * Pow2(m) + Window(b, i + 1, m)
  {
    if m > 0 {
      WindowFront(b, i, m - 1);
      assert b[i % |b|] * Pow2(m) == 2 * (b[i % |b|] * Pow2(m - 1));
    }
  }

  lemma {:induction false} WindowWraps(b: seq<bit>, m: nat)
    requires |b| > 0
    ensures Window(b, |b|, m) == Window(b, 0, m)
  {
    if m > 0 {
      WindowWraps(b, m - 1);
      assert (|b| + (m - 1)) % |b| == (m - 1) % |b| by { ModAddsOnce(m - 1, |b|); }
    }
  }

  lemma ModAddsOnce(k: nat, n: nat)
    requires n > 0
    ensures (n + k) % n == k % n
  {
    ModPlusMultiple(k, 1, n);
  }

  /** How many of the first k starting positions show pattern v. */
  function Count(b: seq<bit>, m: nat, v: nat, k: nat): nat
    requires |b| > 0
  {
    if k == 0 then 0 else Count(b, m, v, k - 1) + if Window(b, k - 1, m) == v then 1 else 0
  }

  /** How often pattern v occurs in the whole cyclic sequence. */
  function Occurrences(b: seq<bit>, m: nat, v: nat): nat
    requires |b| > 0
  {
    Count(b, m, v, |b|)
  }

  // ---- what is counted, bit by bit ----

  /** Bit k of an m-bit pattern, first bit most significant. */
  function PatternBit(v: nat, m: nat, k: nat): nat
    requires k < m
  {
    (v / Pow2(m - 1 - k)) % 2
  }

  /** The m cyclic bits from position i on are those of the pattern. */
  ghost predicate Shows(b: seq<bit>, i: nat, m: nat, v: nat)
    requires |b| > 0
  {
    forall k :: 0 <= k < m ==> ShowsAt(b, i, m, v, k)
  }

  predicate ShowsAt(b: seq<bit>, i: nat, m: nat, v: nat, k: nat)
    requires |b| > 0 && k < m
  {
    b[(i + k) % |b|] == PatternBit(v, m, k)
  }

  lemma PatternBitHalf(v: nat, m: nat, k: nat)
    requires k + 1 < m
    ensures PatternBit(v, m, k) == PatternBit(v / 2, m - 1, k)
  {
    HalfThenDivide(v, Pow2(m - 2 - k));
  }

  lemma HalfThenDivide(v: nat, p: nat)
    requires p > 0
    ensures (v / 2) / p == v / (2 * p)
  {
    var q, r := v / 2 / p, (v / 2) % p;
    var t := q * p;
    assert v / 2 == t + r && r <= p - 1;
    assert q * (2 * p) == 2 * t;
    ModIs(v, 2 * p, q, 2 * r + v % 2);
  }

  lemma HalfAndRest(x: nat, a: bit, v: nat)
    ensures 2 * x + a == v <==> x == v / 2 && a == v % 2
  {}

  lemma WindowLast(b: seq<bit>, i: nat, m: nat)
    requires |b| > 0 && m > 0
    ensures Window(b, i, m) == 2 * Window(b, i, m - 1) + b[(i + m - 1) % |b|]
  {}

  lemma ShowsFront(b: seq<bit>, i: nat, m: nat, v: nat, k: nat)
    requires |b| > 0 && k + 1 < m
    ensures ShowsAt(b, i, m, v, k) <==> ShowsAt(b, i, m - 1, v / 2, k)
  {
    PatternBitHalf(v, m, k);
  }

  lemma ShowsEnd(b: seq<bit>, i: nat, m: nat, v: nat)
    requires |b| > 0 && m > 0
    ensures ShowsAt(b, i, m, v, m - 1) <==> b[(i + m - 1) % |b|] == v % 2
  {
    assert i + (m - 1) == i + m - 1;
    assert v / Pow2(m - 1 - (m - 1)) == v;
  }

  lemma ShowsLast(b: seq<bit>, i: nat, m: nat, v: nat)
    requires |b| > 0 && m > 0
    ensures Shows(b, i, m, v) <==> Shows(b, i, m - 1, v / 2) && b[(i + m - 1) % |b|] == v % 2
  {
    hide ShowsAt;
    ShowsEnd(b, i, m, v);
    if Shows(b, i, m, v) {
      var n, h := m - 1, v / 2;
      forall k | 0 <= k < n ensures ShowsAt(b, i, n, h, k) { ShowsFront(b, i, m, v, k); }
    }
    if Shows(b, i, m - 1, v / 2) && b[(i + m - 1) % |b|] == v % 2 {
      forall k | 0 <= k < m ensures ShowsAt(b, i, m, v, k) {
        if k < m - 1 { ShowsFront(b, i, m, v, k); }
      }
    }
  }

  /** The value of a window is the pattern whose bits it shows. */
  lemma {:induction false} WindowShows(b: seq<bit>, i: nat, m: nat, v: nat)
    requires |b| > 0 && v < Pow2(m)
    ensures Window(b, i, m) == v <==> Shows(b, i, m, v)
  {
    if m > 0 {
      hide Window, Shows;
      WindowShows(b, i, m - 1, v / 2);
      WindowLast(b, i, m);
      ShowsLast(b, i, m, v);
      HalfAndRest(Window(b, i, m - 1), b[(i + m - 1) % |b|], v);
    }
  }

  /** The positions below n where the cyclic sequence shows the pattern. */
  ghost function Positions(b: seq<bit>, m: nat, v: nat, n: nat): set<nat>
    requires |b| > 0
  {
    set i: nat | i < n && Shows(b, i, m, v)
  }

  /** The count of a pattern is the number of positions where it stands. */
  lemma {:induction false} CountIsPositions(b: seq<bit>, m: nat, v: nat, n: nat)
    requires |b| > 0 && v < Pow2(m)
    ensures Count(b, m, v, n) == |Positions(b, m, v, n)|
  {
    if n == 0 {
      assert Positions(b, m, v, 0) == {};
    } else {
      CountIsPositions(b, m, v, n - 1);
      WindowShows(b, n - 1, m, v);
      if Shows(b, n - 1, m, v) {
        assert Positions(b, m, v, n) == Positions(b, m, v, n - 1) + {n - 1};
      } else {
        assert Positions(b, m, v, n) == Positions(b, m, v, n - 1);
      }
    }
  }

  lemma WindowLastInside(b: seq<bit>, i: nat, m: nat)
    requires m > 0 && i + m <= |b|
    ensures Window(b, i, m) == 2 * Window(b, i, m - 1) + b[i + m - 1]
  {
    ModSmall(i + m - 1, |b|);
  }

  lemma SameSlices(b: seq<bit>, i: nat, j: nat, m: nat)
    requires m > 0 && i + m <= |b| && j + m <= |b|
    ensures b[i..i + m] == b[j..j + m] <==> b[i..i + (m - 1)] == b[j..j + (m - 1)] && b[i + m - 1] == b[j + m - 1]
  {
    var x, y := b[i..i + m], b[j..j + m];
    assert x == x[..m - 1] + [x[m - 1]] && y == y[..m - 1] + [y[m - 1]];
    assert x[..m - 1] == b[i..i + (m - 1)] && y[..m - 1] == b[j..j + (m - 1)];
  }

  /** Windows that do not wrap around have the same value exactly when their bits are the same. */
  lemma {:induction false} SameWindows(b: seq<bit>, i: nat, j: nat, m: nat)
    requires |b| > 0 && i + m <= |b| && j + m <= |b|
    ensures Window(b, i, m) == Window(b, j, m) <==> b[i..i + m] == b[j..j + m]
  {
    if m > 0 {
      hide Window;
      SameWindows(b, i, j, m - 1);
      WindowLastInside(b, i, m);
      WindowLastInside(b, j, m);
      SameSlices(b, i, j, m);
    }
  }

  // ---- marginals: dropping the last or the first bit of a pattern ----

  lemma {:induction false} PrefixCount(b: seq<bit>, m: nat, v: nat, k: nat)
    requires |b| > 0
    ensures Count(b, m, v, k) == Count(b, m + 1, 2 * v, k) + Count(b, m + 1, 2 * v + 1, k)
  {
    if k > 0 { PrefixCount(b, m, v, k - 1); }
  }

  /** A window shows v after its first bit exactly when it is v with either bit in front. */
  lemma WindowRest(b: seq<bit>, i: nat, m: nat, v: nat)
    requires |b| > 0 && v < Pow2(m)
    ensures Window(b, i + 1, m) == v <==> Window(b, i, m + 1) == v || Window(b, i, m + 1) == v + Pow2(m)
  {
    hide Window;
    WindowFront(b, i, m);
    if b[i % |b|] == 0 {
      assert Window(b, i, m + 1) == Window(b, i + 1, m);
    } else {
      assert Window(b, i, m + 1) == Pow2(m) + Window(b, i + 1, m);
    }
  }

  lemma {:induction false} SuffixCount(b: seq<bit>, m: nat, v: nat, k: nat)
    requires |b| > 0 && v < Pow2(m)
    ensures Count(b, m, v, k + 1) - Count(b, m, v, 1)
         == Count(b, m + 1, v, k) + Count(b, m + 1, v + Pow2(m), k)
  {
    hide Window;
    if k > 0 {
      SuffixCount(b, m, v, k - 1);
      WindowRest(b, k - 1, m, v);
    }
  }

  /** Every pattern is counted as often as its two one-bit extensions to the right together, and as
      often as its two one-bit extensions to the left together. */
  lemma Marginals(b: seq<bit>, m: nat, v: nat)
    requires |b| > 0 && v < Pow2(m)
    ensures Occurrences(b, m, v) == Occurrences(b, m + 1, 2 * v) + Occurrences(b, m + 1, 2 * v + 1)
    ensures Occurrences(b, m, v) == Occurrences(b, m + 1, v) + Occurrences(b, m + 1, v + Pow2(m))
  {
    PrefixCount(b, m, v, |b|);
    SuffixCount(b, m, v, |b|);
    WindowWraps(b, m);
    assert Count(b, m, v, 1) == Count(b, m, v, 0) + if Window(b, 0, m) == v then 1 else 0;
  }

  function Total(b: seq<bit>, m: nat, k: nat): nat
    requires |b| > 0
  {
    if k == 0 then 0 else Total(b, m, k - 1) + Occurrences(b, m, k - 1)
  }

  lemma {:induction false} TotalHalves(b: seq<bit>, m: nat, k: nat)
    requires |b| > 0 && k <= Pow2(m)
    ensures Total(b, m + 1, 2 * k) == Total(b, m, k)
  {
    if k > 0 {
      TotalHalves(b, m, k - 1);
      Marginals(b, m, k - 1);
      assert Total(b, m + 1, 2 * k) == Total(b, m + 1, 2 * k - 1) + Occurrences(b, m + 1, 2 * k - 1);
      assert Total(b, m + 1, 2 * k - 1) == Total(b, m + 1, 2 * (k - 1)) + Occurrences(b, m + 1, 2 * (k - 1));
    }
  }

  lemma {:induction false} EmptyPatternCount(b: seq<bit>, k: nat)
    requires |b| > 0
    ensures Count(b, 0, 0, k) == k
  {
    if k > 0 { EmptyPatternCount(b, k - 1); }
  }

  /** The counts of all patterns of one length add up to the length of the sequence. */
  lemma {:induction false} CountsTotal(b: seq<bit>, m: nat)
    requires |b| > 0
    ensures Total(b, m, Pow2(m)) == |b|
  {
    if m == 0 {
      EmptyPatternCount(b, |b|);
      assert Total(b, 0, 1) == Total(b, 0, 0) + Occurrences(b, 0, 0);
    } else {
      CountsTotal(b, m - 1);
      TotalHalves(b, m - 1, Pow2(m - 1));
    }
  }

  // ---- the rolling counter ----

  /** Shifting a bit into a register that holds the last m-1 bits right leaves the last m bits. */
  lemma RollIn(v: nat, x: bit, m: nat)
    requires m > 0
    ensures (2 * v + x) % Pow2(m) == 2 * (v % Pow2(m - 1)) + x
  {
    var p := Pow2(m - 1);
    assert 2 * v + x == (v / p) * (2 * p) + (2 * (v % p) + x);
    ModIs(2 * v + x, 2 * p, v / p, 2 * (v % p) + x);
  }

  lemma WindowTail(b: seq<bit>, i: nat, m: nat)
    requires |b| > 0 && m > 0
    ensures Window(b, i, m) % Pow2(m - 1) == Window(b, i + 1, m - 1)
  {
    WindowFront(b, i, m - 1);
    ModIs(Window(b, i, m), Pow2(m - 1), b[i % |b|], Window(b, i + 1, m - 1));
  }

  /** Counts every m-bit pattern of the cyclic sequence with one register rolled over it. Sequences
      shorter than m-1 would run out of bits in the last loop. */
  method PatternCounts(b: seq<bit>, m: nat) returns (counts: array<nat>)
    requires m == 0 || |b| == 0 || m - 1 <= |b|
    ensures counts.Length == Pow2(m)
    ensures m == 0 || |b| == 0 ==> forall v :: 0 <= v < Pow2(m) ==> counts[v] == 0
    ensures m > 0 && |b| > 0 ==> forall v :: 0 <= v < Pow2(m) ==> counts[v] == Occurrences(b, m, v)
    ensures m > 0 && |b| > 0 ==> forall v :: 0 <= v < Pow2(m) ==> counts[v] == |Positions(b, m, v, |b|)|
  {
    counts := new nat[Pow2(m)](_ => 0);
    if m == 0 || |b| == 0 { return; }
    var v := FirstBits(b, m - 1);
    ModSmall(v, Pow2(m - 1));
    v := CountInside(b, m, v, counts);
    CountAround(b, m, v, counts);
    forall p | 0 <= p < Pow2(m) ensures counts[p] == |Positions(b, m, p, |b|)| { CountIsPositions(b, m, p, |b|); }
  }

  /** The register after the first k bits. */
  method FirstBits(b: seq<bit>, k: nat) returns (v: nat)
    requires |b| > 0
    ensures v == Window(b, 0, k)
  {
    v := 0;
    for i := 0 to k
      invariant v == Window(b, 0, i)
    {
      v := 2 * v + b[i % |b|];
    }
  }

  /** The register holds the last m-1 bits before position start + m - 1, and the patterns that start
      before start have been counted. */
  ghost predicate Rolled(b: seq<bit>, m: nat, v: nat, start: nat, counts: seq<nat>)
    requires |b| > 0 && m > 0
  {
    && v % Pow2(m - 1) == Window(b, start, m - 1)
    && |counts| == Pow2(m)
    && forall u :: 0 <= u < Pow2(m) ==> counts[u] == Count(b, m, u, start)
  }

  /** Counts the patterns that do not wrap around. */
  method CountInside(b: seq<bit>, m: nat, first: nat, counts: array<nat>) returns (v: nat)
    requires 0 < m <= |b| + 1 && |b| > 0 && Rolled(b, m, first, 0, counts[..])
    modifies counts
    ensures Rolled(b, m, v, |b| - (m - 1), counts[..])
  {
    v := first;
    for i := m - 1 to |b|
      invariant Rolled(b, m, v, i - (m - 1), counts[..])
    {
      ModSmall(i, |b|);
      v := RollAndCount(b, m, i - (m - 1), v, b[i], counts);
    }
  }

  /** Counts the patterns that wrap around. */
  method CountAround(b: seq<bit>, m: nat, first: nat, counts: array<nat>)
    requires 0 < m <= |b| + 1 && |b| > 0 && Rolled(b, m, first, |b| - (m - 1), counts[..])
    modifies counts
    ensures exists v :: Rolled(b, m, v, |b|, counts[..])
  {
    var v := first;
    for i := 0 to m - 1
      invariant Rolled(b, m, v, |b| - (m - 1) + i, counts[..])
    {
      ModAddsOnce(i, |b|);
      ModSmall(i, |b|);
      v := RollAndCount(b, m, |b| - (m - 1) + i, v, b[i], counts);
    }
  }

  /** One turn of the register: shift the next bit in, mask to m bits and count the pattern. */
  method RollAndCount(b: seq<bit>, m: nat, ghost start: nat, v: nat, x: bit, counts: array<nat>) returns (r: nat)
    requires |b| > 0 && m > 0 && Rolled(b, m, v, start, counts[..])
    requires x == b[(start + (m - 1)) % |b|]
    modifies counts
    ensures Rolled(b, m, r, start + 1, counts[..])
  {
    RollIn(v, x, m);
    r := (2 * v + x) % Pow2(m);
    WindowTail(b, start, m);
    counts[r] := counts[r] + 1;
  }

  // ---- bytes to bits ----

  /** Bit j of a byte, most significant first. */
  function BitOf(x: byte, j: nat): bit
    requires j < 8
  {
    (x / Pow2(7 - j)) % 2
  }

  lemma HalvingDivision(x: nat, p: nat)
    requires p > 0
    ensures x / p == 2 * (x / (2 * p)) + (x / p) % 2
  {
    var q := x / (2 * p);
    var r := x - q * (2 * p);
    assert 0 <= r < 2 * p;
    var h := if r < p then 0 else 1;
    assert x == (2 * q + h) * p + (r - h * p);
    ModIs(x, p, 2 * q + h, r - h * p);
  }

  ghost predicate HoldsBits(data: seq<byte>, b: seq<bit>) {
    && |b| == 8 * |data|
    && forall i, j :: 0 <= i < |data| && 0 <= j < 8 ==> b[8 * i + j] == BitOf(data[i], j)
  }

  /** The eight bits of a byte, read back as one pattern, are the byte. */
  lemma {:induction false} ByteReadsBack(data: seq<byte>, b: seq<bit>, i: nat, k: nat)
    requires HoldsBits(data, b) && i < |data| && k <= 8
    ensures Window(b, 8 * i, k) == data[i] / Pow2(8 - k)
  {
    if k > 0 {
      ByteReadsBack(data, b, i, k - 1);
      ModSmall(8 * i + (k - 1), |b|);
      HalvingDivision(data[i], Pow2(8 - k));
      assert b[8 * i + (k - 1)] == BitOf(data[i], k - 1);
    }
  }

  /** Expands each byte into eight bits, so that the 8-bit pattern at 8i is byte i again. */
  method ToBits(data: seq<byte>) returns (b: array<bit>)
    ensures b.Length == 8 * |data|
    ensures forall i :: 0 <= i < |data| ==> Window(b[..], 8 * i, 8) == data[i]
  {
    b := new bit[8 * |data|];
    for i := 0 to |data|
      invariant forall h, j :: 0 <= h < i && 0 <= j < 8 ==> b[8 * h + j] == BitOf(data[h], j)
    {
      for j := 0 to 8
        invariant forall h, g :: 0 <= h < i && 0 <= g < 8 ==> b[8 * h + g] == BitOf(data[h], g)
        invariant forall g :: 0 <= g < j ==> b[8 * i + g] == BitOf(data[i], g)
      {
        b[8 * i + j] := BitOf(data[i], j);
      }
    }
    assert HoldsBits(data, b[..]);
    forall i | 0 <= i < |data| ensures Window(b[..], 8 * i, 8) == data[i] {
      ByteReadsBack(data, b[..], i, 8);
    }
  }
}
