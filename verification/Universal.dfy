/** The distances that Maurer's universal test logs (SP 800-22 section 2.9), from stattest/nist.go. */
module Universal {
  import opened Common
  import opened CyclicPatterns

  /** The value of l-bit block number i; blocks count from 1. */
  function Block(b: seq<bit>, l: nat, i: nat): nat
    requires l > 0 && i >= 1 && i * l <= |b|
  {
    BlockEnds(l, i);
    Window(b, (i - 1) * l, l)
  }

  lemma BlockEnds(l: nat, i: nat)
    requires l > 0 && i >= 1
    ensures (i - 1) * l + l == i * l && 0 <= (i - 1) * l
  {}

  lemma BlocksInside(l: nat, h: nat, i: nat)
    requires h <= i
    ensures h * l <= i * l
  {}

  /** The latest block before i with value v, or 0 when there is none. */
  function LastSeen(b: seq<bit>, l: nat, v: nat, i: nat): nat
    requires l > 0 && i >= 1 && (i - 1) * l <= |b|
  {
    if i == 1 then 0
    else
      BlocksInside(l, i - 2, i - 1);
      if Block(b, l, i - 1) == v then i - 1 else LastSeen(b, l, v, i - 1)
  }

  /** LastSeen is what its name says: a block of that value, with none between it and i. */
  lemma {:induction false} LastSeenIsLatest(b: seq<bit>, l: nat, v: nat, i: nat)
    requires l > 0 && i >= 1 && (i - 1) * l <= |b|
    ensures LastSeen(b, l, v, i) < i
    ensures LastSeen(b, l, v, i) > 0 ==>
      LastSeen(b, l, v, i) * l <= |b| && Block(b, l, LastSeen(b, l, v, i)) == v
    ensures forall h :: LastSeen(b, l, v, i) < h < i ==> h * l <= |b| && Block(b, l, h) != v
  {
    if i > 1 {
      BlocksInside(l, i - 2, i - 1);
      LastSeenIsLatest(b, l, v, i - 1);
    }
  }

  /** The source's threshold for block length l: 1010 blocks for every l-bit value. */
  function Threshold(l: nat): nat {
    1010 * Pow2(l) * l
  }

  const THRESHOLDS: seq<nat> := [387840, 904960, 2068480, 4654080, 10342400, 22753280, 49643520,
                                 107560960, 231669760, 496435200, 1059061760]

  lemma ThresholdsFollowRule()
    ensures |THRESHOLDS| == 11
    ensures forall j :: 0 <= j < 11 ==> THRESHOLDS[j] == Threshold(6 + j)
    ensures forall j :: 0 <= j < 10 ==> THRESHOLDS[j] <= THRESHOLDS[j + 1]
  {
    assert Pow2(6) == 64;
    assert Threshold(6) == 387840 && Threshold(7) == 904960 && Threshold(8) == 2068480;
    assert Threshold(9) == 4654080 && Threshold(10) == 10342400 && Threshold(11) == 22753280;
    assert Threshold(12) == 49643520 && Threshold(13) == 107560960 && Threshold(14) == 231669760;
    assert Threshold(15) == 496435200 && Threshold(16) == 1059061760;
  }

  /** The block length for n bits: the longest whose threshold n reaches, or 5 when none is. */
  method BlockLength(n: nat) returns (l: nat)
    ensures 5 <= l <= 16
    ensures l > 5 ==> Threshold(l) <= n
    ensures l < 16 ==> n < Threshold(l + 1)
  {
    ThresholdsFollowRule();
    l := 5;
    for j := 0 to |THRESHOLDS|
      invariant 5 <= l <= 5 + j
      invariant l > 5 ==> THRESHOLDS[l - 6] <= n
      invariant l < 5 + j ==> n < THRESHOLDS[l - 5]
      invariant l < 5 + j && j < 11 ==> n < THRESHOLDS[j]
    {
      if n >= THRESHOLDS[j] {
        l := l + 1;
      }
    }
  }

  lemma DivisionAtLeast(n: nat, l: nat, c: nat)
    requires l > 0 && c * l <= n
    ensures n / l >= c && (n / l) * l <= n
  {
    var q := n / l;
    assert n == q * l + n % l;
    if q < c { BlocksInside(l, q + 1, c); }
  }

  method ReadBlock(b: seq<bit>, l: nat, i: nat) returns (v: nat)
    requires l > 0 && i >= 1 && i * l <= |b|
    ensures v == Block(b, l, i) && v < Pow2(l)
  {
    BlockEnds(l, i);
    v := 0;
    var bits := b[(i - 1) * l..i * l];
    for j := 0 to |bits|
      invariant v == Window(b, (i - 1) * l, j)
    {
      ModSmall((i - 1) * l + j, |b|);
      v := 2 * v + bits[j];
    }
  }

  /** The table holds, for every value, the last block before i that had it. */
  ghost predicate TableAt(table: seq<nat>, b: seq<bit>, l: nat, i: nat)
    requires l > 0 && i >= 1 && (i - 1) * l <= |b|
  {
    |table| == Pow2(l) && forall v :: 0 <= v < Pow2(l) ==> table[v] == LastSeen(b, l, v, i)
  }

  lemma TableStep(table: seq<nat>, b: seq<bit>, l: nat, i: nat)
    requires l > 0 && i >= 1 && i * l <= |b| && (i - 1) * l <= |b|
    requires TableAt(table, b, l, i)
    ensures Block(b, l, i) < |table|
    ensures TableAt(table[Block(b, l, i) := i], b, l, i + 1)
  {}

  /** d is the distance from block i back to the latest earlier block of the same value, or to block
      0 when there is none. */
  ghost predicate IsDistance(b: seq<bit>, l: nat, i: nat, d: int) {
    && l > 0 && i >= 1 && i * l <= |b| && (i - 1) * l <= |b|
    && d == i - LastSeen(b, l, Block(b, l, i), i)
    && d >= 1
  }

  /** The bits of block number i. */
  function BlockBits(b: seq<bit>, l: nat, i: nat): seq<bit>
    requires l > 0 && i >= 1 && i * l <= |b|
  {
    BlockEnds(l, i);
    b[(i - 1) * l..i * l]
  }

  lemma SameBlocks(b: seq<bit>, l: nat, i: nat, j: nat)
    requires l > 0 && i >= 1 && j >= 1 && i * l <= |b| && j * l <= |b|
    ensures Block(b, l, i) == Block(b, l, j) <==> BlockBits(b, l, i) == BlockBits(b, l, j)
  {
    BlockEnds(l, i);
    BlockEnds(l, j);
    SameWindows(b, (i - 1) * l, (j - 1) * l, l);
  }

  /** Going back from block i, the first block with the same bits is d blocks away; if there is none d
      leads to block 0. */
  ghost predicate IsGap(b: seq<bit>, l: nat, i: nat, d: int) {
    && l > 0 && 1 <= d <= i && i * l <= |b|
    && (d < i ==> SameBits(b, l, i - d, i))
    && forall h :: i - d < h < i ==> !SameBits(b, l, h, i)
  }

  ghost predicate SameBits(b: seq<bit>, l: nat, h: nat, i: nat) {
    && l > 0 && h >= 1 && i >= 1 && h * l <= |b| && i * l <= |b|
    && BlockBits(b, l, h) == BlockBits(b, l, i)
  }

  lemma DistanceIsGap(b: seq<bit>, l: nat, i: nat, d: int)
    requires IsDistance(b, l, i, d)
    ensures IsGap(b, l, i, d)
  {
    LastSeenIsLatest(b, l, Block(b, l, i), i);
    if d < i { SameBlocks(b, l, i - d, i); }
    forall h | i - d < h < i ensures !SameBits(b, l, h, i) { SameBlocks(b, l, h, i); }
  }

  /** Looks block i up in the table and then enters it. */
  method LookUp(b: seq<bit>, l: nat, i: nat, table: array<nat>) returns (d: int)
    requires l > 0 && i >= 1 && i * l <= |b| && (i - 1) * l <= |b| && TableAt(table[..], b, l, i)
    modifies table
    ensures i * l <= |b| && TableAt(table[..], b, l, i + 1)
    ensures IsDistance(b, l, i, d)
  {
    var v := ReadBlock(b, l, i);
    LastSeenIsLatest(b, l, v, i);
    d := i - table[v];
    TableStep(table[..], b, l, i);
    ghost var next := table[..][v := i];
    table[v] := i;
    assert table[..] == next;
  }

  /** The initialisation blocks 1 to q enter the table. */
  method FillTable(b: seq<bit>, l: nat, q: nat, table: array<nat>)
    requires l > 0 && q * l <= |b| && table.Length == Pow2(l) && forall v :: 0 <= v < Pow2(l) ==> table[v] == 0
    modifies table
    ensures TableAt(table[..], b, l, q + 1)
  {
    for i := 1 to q + 1
      invariant (i - 1) * l <= |b|
      invariant TableAt(table[..], b, l, i)
    {
      BlocksInside(l, i, q);
      var _ := LookUp(b, l, i, table);
    }
  }

  /** The test blocks q+1 to q+k are looked up, and then enter the table themselves. */
  method Distances(b: seq<bit>, l: nat, q: nat, k: nat, table: array<nat>) returns (distances: seq<int>)
    requires l > 0 && (q + k) * l <= |b| && q * l <= |b| && TableAt(table[..], b, l, q + 1)
    modifies table
    ensures |distances| == k
    ensures forall j :: 0 <= j < k ==> IsDistance(b, l, q + 1 + j, distances[j])
  {
    distances := [];
    for i := q + 1 to q + k + 1
      invariant (i - 1) * l <= |b|
      invariant TableAt(table[..], b, l, i)
      invariant |distances| == i - (q + 1)
      invariant forall j :: 0 <= j < |distances| ==> IsDistance(b, l, q + 1 + j, distances[j])
    {
      BlocksInside(l, i, q + k);
      var d := LookUp(b, l, i, table);
      distances := distances + [d];
    }
  }

  method TableDistances(b: seq<bit>, l: nat, q: nat, k: nat) returns (distances: seq<int>)
    requires l > 0 && (q + k) * l <= |b|
    ensures |distances| == k
    ensures forall j :: 0 <= j < k ==> IsGap(b, l, q + 1 + j, distances[j])
  {
    BlocksInside(l, q, q + k);
    var table := new nat[Pow2(l)](_ => 0);
    FillTable(b, l, q, table);
    distances := Distances(b, l, q, k, table);
    forall j | 0 <= j < k ensures IsGap(b, l, q + 1 + j, distances[j]) {
      DistanceIsGap(b, l, q + 1 + j, distances[j]);
    }
  }

  lemma BlocksSuffice(n: nat, l: nat)
    requires l > 0 && Threshold(l) <= n
    ensures n / l >= 1010 * Pow2(l) && (n / l) * l <= n
  {
    DivisionAtLeast(n, l, 1010 * Pow2(l));
  }

  /** The distances the test takes logarithms of. The test applies exactly from 387840 bits on, and
      then has at least 1000 test blocks for every block value, so its second applicability check
      never fires. */
  method LoggedDistances(b: seq<bit>) returns (l: nat, q: nat, r: Option<seq<int>>)
    ensures r.None? <==> |b| < 387840
    ensures r.Some? ==> 6 <= l <= 16 && Threshold(l) <= |b| && (l < 16 ==> |b| < Threshold(l + 1))
    ensures r.Some? ==> q == 10 * Pow2(l)
    ensures r.Some? ==> |r.value| == |b| / l - q >= 1000 * Pow2(l)
    ensures r.Some? ==> forall j :: 0 <= j < |r.value| ==> IsGap(b, l, q + 1 + j, r.value[j])
  {
    hide IsGap;
    l := BlockLength(|b|);
    q := 0;
    assert Threshold(6) == 387840 by { ThresholdsFollowRule(); }
    if l < 6 { return l, 0, None; }
    BlocksSuffice(|b|, l);
    q := 10 * Pow2(l);
    var k := |b| / l - q;
    if k <= 0 { assert false; }
    var distances := TableDistances(b, l, q, k);
    r := Some(distances);
  }
}
