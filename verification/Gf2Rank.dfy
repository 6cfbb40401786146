/** Binary matrix rank (SP 800-22 section 2.5) of 32 rows of 32 bits, and the rank test's counts over
    a bit sequence. */
module Gf2Rank {
  import opened Common
  import opened Gf2Space

  /** Column col of a row; column 31 is the most significant bit. */
  predicate Bit(row: bv32, col: nat)
    requires col < 32
  {
    (row >> col) & 1 == 1
  }

  /** Rows of 32 columns under XOR. */
  function Rows(): Space<bv32> {
    Space(0, (a: bv32, b: bv32) => a ^ b, (row: bv32, col: nat) => col < 32 && Bit(row, col), 32)
  }

  lemma BitOfXorAt(a: bv32, b: bv32, col: bv6)
    requires col < 32
    ensures ((a ^ b) >> col) & 1 == 1 <==> ((a >> col) & 1 == 1) != ((b >> col) & 1 == 1)
    ensures (0 as bv32 >> col) & 1 == 0
  {}

  lemma BitOfXor(a: bv32, b: bv32, col: nat)
    requires col < 32
    ensures Bit(a ^ b, col) <==> Bit(a, col) != Bit(b, col)
    ensures !Bit(0, col)
  {
    BitOfXorAt(a, b, col as bv6);
  }

  lemma ColumnBefore(col: nat)
    requires 0 < col < 32
    ensures (col - 1) as bv6 == (col as bv6) - 1
  {}

  lemma ShiftOutAt(row: bv32, col: bv6)
    requires col < 32
    ensures ((row >> 1) >> col) & 1 == if col == 31 then 0 else (row >> (col + 1)) & 1
  {}

  lemma ShiftOut(row: bv32, col: nat)
    requires col < 32
    ensures Bit(row >> 1, col) <==> col < 31 && Bit(row, col + 1)
  {
    ShiftOutAt(row, col as bv6);
    if col < 31 { ColumnBefore(col + 1); }
  }

  lemma LowestBit(row: bv32)
    ensures Bit(row, 0) <==> row & 1 == 1
    ensures row & 1 == 0 && row != 0 ==> row >> 1 != 0 && row >> 1 < row
  {}

  /** A nonzero row has a one in some column. */
  lemma {:induction false} SomeBit(row: bv32) returns (c: nat)
    requires row != 0
    ensures c < 32 && Bit(row, c)
    decreases row
  {
    LowestBit(row);
    if row & 1 == 1 { return 0; }
    c := SomeBit(row >> 1);
    ShiftOut(row, c);
    c := c + 1;
  }

  lemma NoBitsIsZero(row: bv32)
    requires forall c :: 0 <= c < 32 ==> !Bit(row, c)
    ensures row == 0
  {
    if row != 0 { var c := SomeBit(row); }
  }

  lemma ZeroColumnsIsZero(a: bv32)
    ensures ZeroColumns(Rows(), a) <==> a == 0
  {
    forall c | 0 <= c < 32 ensures !Bit(0, c) { BitOfXor(0, 0, c); }
    if ZeroColumns(Rows(), a) {
      forall c | 0 <= c < 32 ensures !Bit(a, c) { assert !Rows().bit(a, c); }
      NoBitsIsZero(a);
    }
  }

  lemma XorAssociates(a: bv32, b: bv32, c: bv32)
    ensures Rows().add(Rows().add(a, b), c) == Rows().add(a, Rows().add(b, c))
  {}

  lemma XorCommutes(a: bv32, b: bv32)
    ensures Rows().add(a, b) == Rows().add(b, a)
  {}

  lemma XorCancels(a: bv32)
    ensures Rows().add(a, a) == Rows().zero && Rows().add(a, Rows().zero) == a
  {}

  lemma XorIsSpace()
    ensures Valid(Rows())
  {
    forall a, b, c ensures Laws(Rows(), a, b, c) {
      XorAssociates(a, b, c);
      XorCommutes(a, b);
      XorCancels(a);
    }
  }

  lemma BitsAreLinear()
    ensures LinearColumns(Rows())
  {
    var sp := Rows();
    forall a, b, c | 0 <= c < 32 ensures sp.bit(sp.add(a, b), c) <==> sp.bit(a, c) != sp.bit(b, c) {
      BitOfXor(a, b, c);
    }
    forall a ensures ZeroColumns(sp, a) <==> a == sp.zero {
      ZeroColumnsIsZero(a);
    }
  }

  /** The rank of a 32x32 matrix: the logarithm of the number of XOR combinations of its rows, all
      of which the rows, then in reduced echelon form with that many pivots, still span when the
      method ends. */
  method Rank32(rows: array<bv32>) returns (rank: nat)
    requires rows.Length == 32
    modifies rows
    ensures |Span(Rows(), old(rows[..]))| == Pow2(rank)
    ensures Span(Rows(), rows[..]) == Span(Rows(), old(rows[..]))
    ensures exists pivots :: |pivots| == rank && Reduced(Rows(), rows[..], pivots, 0)
  {
    XorIsSpace();
    BitsAreLinear();
    rank := Rank(Rows(), rows);
  }

  // ---- the matrices of a bit sequence ----

  /** The row that v = v<<1 | bit builds from a stretch of bits, first bit most significant. */
  function RowValue(bits: seq<bv8>): bv32 {
    if bits == [] then 0 else AppendBit(RowValue(bits[..|bits| - 1]), bits[|bits| - 1])
  }

  function AppendBit(v: bv32, bit: bv8): bv32 {
    (v << 1) | (bit as bv32)
  }

  lemma ShiftInAt(v: bv32, bit: bv8, col: bv6)
    requires bit <= 1 && col < 32
    ensures (((v << 1) | (bit as bv32)) >> col) & 1 == if col == 0 then bit as bv32 else (v >> (col - 1)) & 1
  {}

  lemma AppendBitAt(v: bv32, bit: bv8, col: nat)
    requires bit <= 1 && col < 32
    ensures Bit(AppendBit(v, bit), col) <==> if col == 0 then bit == 1 else Bit(v, col - 1)
  {
    ShiftInAt(v, bit, col as bv6);
    if col > 0 { ColumnBefore(col); }
  }

  ghost predicate IsBits(b: seq<bv8>) {
    forall i :: 0 <= i < |b| ==> b[i] <= 1
  }

  /** The columns of a row are its bits, first bit most significant. */
  lemma {:induction false} RowValueAt(bits: seq<bv8>, c: nat)
    requires IsBits(bits) && c < |bits| <= 32
    ensures Bit(RowValue(bits), |bits| - 1 - c) <==> bits[c] == 1
  {
    var n := |bits| - 1;
    AppendBitAt(RowValue(bits[..n]), bits[n], n - c);
    if c < n { RowValueAt(bits[..n], c); }
  }

  /** The rows of the 32x32 matrix number k of the sequence. */
  ghost function Matrix(b: seq<bv8>, k: nat): seq<bv32>
    requires 1024 * (k + 1) <= |b|
  {
    seq(32, r requires 0 <= r < 32 => RowValue(b[1024 * k + 32 * r..1024 * k + 32 * r + 32]))
  }

  /** The columns of the row are 32 bits of the sequence, first bit most significant. */
  ghost predicate HoldsRow(row: bv32, b: seq<bv8>, start: nat) {
    start + 32 <= |b| && forall c :: 0 <= c < 32 ==> (Bit(row, c) <==> b[start + 31 - c] == 1)
  }

  /** Column 31-c of row r of matrix k is bit 1024k + 32r + c of the sequence. */
  lemma MatrixAt(b: seq<bv8>, k: nat, r: nat, c: nat)
    requires IsBits(b) && 1024 * (k + 1) <= |b| && r < 32 && c < 32
    ensures Bit(Matrix(b, k)[r], 31 - c) <==> b[1024 * k + 32 * r + c] == 1
  {
    var start := 1024 * k + 32 * r;
    RowValueAt(b[start..start + 32], c);
  }

  lemma MatrixHolds(b: seq<bv8>, k: nat, r: nat)
    requires IsBits(b) && 1024 * (k + 1) <= |b| && r < 32
    ensures HoldsRow(Matrix(b, k)[r], b, 1024 * k + 32 * r)
  {
    hide Bit;
    forall c | 0 <= c < 32 ensures Bit(Matrix(b, k)[r], c) <==> b[1024 * k + 32 * r + 31 - c] == 1 {
      MatrixAt(b, k, r, 31 - c);
    }
  }

  /** Matrix k has rank r: its rows have 2^r XOR combinations. */
  ghost predicate HasRank(b: seq<bv8>, k: nat, r: nat)
    requires 1024 * (k + 1) <= |b|
  {
    |Span(Rows(), Matrix(b, k))| == Pow2(r)
  }

  /** How many of the first n matrices have rank r. */
  ghost function MatricesOfRank(b: seq<bv8>, n: nat, r: nat): nat
    requires 1024 * n <= |b|
  {
    |OfRank(b, n, r)|
  }

  ghost function OfRank(b: seq<bv8>, n: nat, r: nat): set<nat>
    requires 1024 * n <= |b|
  {
    set k: nat | k < n && HasRank(b, k, r)
  }

  lemma {:induction false} Pow2Injective(a: nat, b: nat)
    requires Pow2(a) == Pow2(b)
    ensures a == b
  {
    if a > 0 && b > 0 { Pow2Injective(a - 1, b - 1); }
  }

  function Occurrences(ranks: seq<nat>, r: nat): nat {
    if ranks == [] then 0
    else Occurrences(ranks[..|ranks| - 1], r) + if ranks[|ranks| - 1] == r then 1 else 0
  }

  lemma NoneOfRank(b: seq<bv8>, r: nat)
    ensures MatricesOfRank(b, 0, r) == 0
  {
    assert OfRank(b, 0, r) == {};
  }

  lemma OfRankGrows(b: seq<bv8>, k: nat, r: nat)
    requires 1024 * (k + 1) <= |b|
    ensures MatricesOfRank(b, k + 1, r) == MatricesOfRank(b, k, r) + if HasRank(b, k, r) then 1 else 0
  {
    hide HasRank;
    if HasRank(b, k, r) {
      assert OfRank(b, k + 1, r) == OfRank(b, k, r) + {k};
    } else {
      assert OfRank(b, k + 1, r) == OfRank(b, k, r);
    }
  }

  /** A matrix has one rank, so counting by rank is counting in any list of the matrices' ranks. */
  lemma {:induction false} CountByRank(b: seq<bv8>, ranks: seq<nat>, r: nat)
    requires 1024 * |ranks| <= |b|
    requires forall k :: 0 <= k < |ranks| ==> HasRank(b, k, ranks[k])
    ensures MatricesOfRank(b, |ranks|, r) == Occurrences(ranks, r)
  {
    hide OfRank;
    if ranks == [] {
      NoneOfRank(b, r);
    } else {
      var k := |ranks| - 1;
      CountByRank(b, ranks[..k], r);
      if HasRank(b, k, r) { Pow2Injective(ranks[k], r); }
      OfRankGrows(b, k, r);
    }
  }

  /** Row r of the matrix, read bit by bit. */
  method BuildRow(b: seq<bv8>, start: nat) returns (v: bv32)
    requires start + 32 <= |b|
    ensures v == RowValue(b[start..start + 32])
  {
    hide AppendBit;
    v := 0;
    for c := 0 to 32
      invariant v == RowValue(b[start..start + c])
    {
      assert b[start..start + c + 1][..c] == b[start..start + c];
      v := AppendBit(v, b[start + c]);
    }
  }

  method BuildMatrix(b: seq<bv8>, k: nat) returns (rows: array<bv32>)
    requires 1024 * (k + 1) <= |b|
    ensures fresh(rows) && rows.Length == 32 && rows[..] == Matrix(b, k)
    ensures IsBits(b) ==> forall r :: 0 <= r < 32 ==> HoldsRow(rows[r], b, 1024 * k + 32 * r)
  {
    hide RowValue, HoldsRow;
    rows := new bv32[32];
    var base := k * 32 * 32;
    for r := 0 to 32
      invariant forall i :: 0 <= i < r ==> rows[i] == RowValue(b[base + 32 * i..base + 32 * i + 32])
    {
      rows[r] := BuildRow(b, base + r * 32);
    }
    assert rows[..] == Matrix(b, k);
    if IsBits(b) {
      forall r | 0 <= r < 32 ensures HoldsRow(rows[r], b, 1024 * k + 32 * r) { MatrixHolds(b, k, r); }
    }
  }

  method MatrixRank(b: seq<bv8>, k: nat) returns (rank: nat)
    requires 1024 * (k + 1) <= |b|
    ensures HasRank(b, k, rank)
  {
    var rows := BuildMatrix(b, k);
    rank := Rank32(rows);
  }

  method Tally(b: seq<bv8>, nb: nat) returns (f32: nat, f31: nat, ghost ranks: seq<nat>)
    requires 1024 * nb <= |b|
    ensures |ranks| == nb && forall k :: 0 <= k < nb ==> HasRank(b, k, ranks[k])
    ensures f32 == Occurrences(ranks, 32) && f31 == Occurrences(ranks, 31)
  {
    f32, f31, ranks := 0, 0, [];
    for k := 0 to nb
      invariant |ranks| == k && forall i :: 0 <= i < k ==> HasRank(b, i, ranks[i])
      invariant f32 == Occurrences(ranks, 32) && f31 == Occurrences(ranks, 31)
    {
      var rank := MatrixRank(b, k);
      assert (ranks + [rank])[..k] == ranks;
      ranks := ranks + [rank];
      if rank == 32 {
        f32 := f32 + 1;
      } else if rank == 31 {
        f31 := f31 + 1;
      }
    }
  }

  /** The rank test counts exactly the matrices of rank 32 and of rank 31 among the complete
      32x32 matrices, and applies only to 38 of them or more. */
  method RankCounts(b: seq<bv8>) returns (counts: Option<(nat, nat)>)
    ensures counts.None? <==> |b| / 1024 < 38
    ensures counts.Some? ==> counts.value.0 == MatricesOfRank(b, |b| / 1024, 32)
    ensures counts.Some? ==> counts.value.1 == MatricesOfRank(b, |b| / 1024, 31)
  {
    var nb := |b| / (32 * 32);
    if nb < 38 { return None; }
    var f32, f31, ranks := Tally(b, nb);
    CountByRank(b, ranks, 32);
    CountByRank(b, ranks, 31);
    return Some((f32, f31));
  }
}
