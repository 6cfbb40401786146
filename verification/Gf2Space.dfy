/** Linear algebra over GF(2), for any rows whose addition is its own inverse and whose columns are
    linear: combinations, row spaces, reduced echelon form and rank. */
module Gf2Space {
  import opened Common

  datatype Space<!T> = Space(zero: T, add: (T, T) -> T, bit: (T, nat) -> bool, width: nat)

  /** Addition is commutative and associative, zero is neutral and every row is its own inverse. */
  ghost predicate Valid<T(!new)>(sp: Space<T>) {
    forall a, b, c :: Laws(sp, a, b, c)
  }

  ghost predicate Laws<T>(sp: Space<T>, a: T, b: T, c: T) {
    && sp.add(a, sp.zero) == a
    && sp.add(a, a) == sp.zero
    && sp.add(a, b) == sp.add(b, a)
    && sp.add(sp.add(a, b), c) == sp.add(a, sp.add(b, c))
  }

  /** A column of a sum is the exclusive or of the columns, and only zero has all columns zero. */
  ghost predicate LinearColumns<T(!new)>(sp: Space<T>) {
    && (forall a, b, c :: 0 <= c < sp.width ==> (sp.bit(sp.add(a, b), c) <==> sp.bit(a, c) != sp.bit(b, c)))
    && (forall a :: ZeroColumns(sp, a) <==> a == sp.zero)
  }

  ghost predicate ZeroColumns<T>(sp: Space<T>, row: T) {
    forall c :: 0 <= c < sp.width ==> !sp.bit(row, c)
  }

  lemma AddTwice<T(!new)>(sp: Space<T>, a: T, b: T)
    requires Valid(sp)
    ensures sp.add(sp.add(a, b), b) == a
  {
    assert Laws(sp, a, b, b) && Laws(sp, b, b, b);
  }

  /** The sum of the rows that pick selects. */
  ghost function Combine<T>(sp: Space<T>, rows: seq<T>, pick: seq<bool>): T
    requires |pick| == |rows|
  {
    if rows == [] then sp.zero
    else
      var rest := Combine(sp, rows[1..], pick[1..]);
      if pick[0] then sp.add(rest, rows[0]) else rest
  }

  /** The row space: every value that some selection of rows adds up to (SpanIsCombinations). */
  ghost function Span<T>(sp: Space<T>, rows: seq<T>): set<T> {
    if rows == [] then {sp.zero}
    else Span(sp, rows[1..]) + Shifted(sp, Span(sp, rows[1..]), rows[0])
  }

  ghost function Shifted<T>(sp: Space<T>, s: set<T>, r: T): set<T> {
    set v | v in s :: sp.add(v, r)
  }

  lemma ShiftedMembership<T(!new)>(sp: Space<T>, s: set<T>, r: T, v: T)
    requires Valid(sp)
    ensures v in Shifted(sp, s, r) <==> sp.add(v, r) in s
  {
    AddTwice(sp, v, r);
    if v in Shifted(sp, s, r) {
      var u :| u in s && v == sp.add(u, r);
      AddTwice(sp, u, r);
    }
  }

  lemma {:induction false} SpanIsCombinations<T(!new)>(sp: Space<T>, rows: seq<T>, v: T)
    requires Valid(sp)
    ensures v in Span(sp, rows)
       <==> exists pick: seq<bool> :: |pick| == |rows| && Combine(sp, rows, pick) == v
  {
    if rows == [] {
      var none: seq<bool> := [];
      assert |none| == |rows| && Combine(sp, rows, none) == sp.zero;
    } else {
      var rest, r := rows[1..], rows[0];
      SpanIsCombinations(sp, rest, v);
      SpanIsCombinations(sp, rest, sp.add(v, r));
      ShiftedMembership(sp, Span(sp, rest), r, v);
      AddTwice(sp, v, r);
      if v in Span(sp, rows) {
        var take := v !in Span(sp, rest);
        var p :| |p| == |rest| && Combine(sp, rest, p) == if take then sp.add(v, r) else v;
        var pick := [take] + p;
        assert pick[1..] == p;
        assert |pick| == |rows| && Combine(sp, rows, pick) == v;
      }
      if pick: seq<bool> :| |pick| == |rows| && Combine(sp, rows, pick) == v {
        AddTwice(sp, Combine(sp, rest, pick[1..]), r);
        assert Combine(sp, rest, pick[1..]) == if pick[0] then sp.add(v, r) else v;
      }
    }
  }

  // ---- the row space is closed under addition and is the least such set holding the rows ----

  lemma {:induction false} SpanClosed<T(!new)>(sp: Space<T>, rows: seq<T>, a: T, b: T)
    requires Valid(sp)
    requires a in Span(sp, rows) && b in Span(sp, rows)
    ensures sp.add(a, b) in Span(sp, rows)
  {
    if rows == [] {
      assert Laws(sp, a, b, b);
    } else {
      var rest, r := rows[1..], rows[0];
      ShiftedMembership(sp, Span(sp, rest), r, a);
      ShiftedMembership(sp, Span(sp, rest), r, b);
      ShiftedMembership(sp, Span(sp, rest), r, sp.add(a, b));
      var a' := if a in Span(sp, rest) then a else sp.add(a, r);
      var b' := if b in Span(sp, rest) then b else sp.add(b, r);
      SpanClosed(sp, rest, a', b');
      assert Laws(sp, a, b, r) && Laws(sp, a, r, b) && Laws(sp, b, r, r) && Laws(sp, a, r, sp.add(b, r));
      assert Laws(sp, r, sp.add(b, r), r);
      AddTwice(sp, b, r);
    }
  }

  lemma {:induction false} ZeroInSpan<T(!new)>(sp: Space<T>, rows: seq<T>)
    ensures sp.zero in Span(sp, rows)
  {
    if rows != [] { ZeroInSpan(sp, rows[1..]); }
  }

  lemma {:induction false} RowInSpan<T(!new)>(sp: Space<T>, rows: seq<T>, i: nat)
    requires Valid(sp)
    requires i < |rows|
    ensures rows[i] in Span(sp, rows)
  {
    if i == 0 {
      assert Laws(sp, rows[0], rows[0], rows[0]);
      ZeroInSpan(sp, rows[1..]);
      ShiftedMembership(sp, Span(sp, rows[1..]), rows[0], rows[0]);
    } else {
      RowInSpan(sp, rows[1..], i - 1);
    }
  }

  lemma {:induction false} SpanLeast<T(!new)>(sp: Space<T>, rows: seq<T>, other: seq<T>)
    requires Valid(sp)
    requires forall i :: 0 <= i < |rows| ==> rows[i] in Span(sp, other)
    ensures Span(sp, rows) <= Span(sp, other)
  {
    if rows == [] {
      ZeroInSpan(sp, other);
    } else {
      var rest, r := rows[1..], rows[0];
      SpanLeast(sp, rest, other);
      forall v | v in Shifted(sp, Span(sp, rest), r) ensures v in Span(sp, other) {
        ShiftedMembership(sp, Span(sp, rest), r, v);
        SpanClosed(sp, other, sp.add(v, r), r);
        AddTwice(sp, v, r);
      }
    }
  }

  /** Swapping two rows keeps the row space. */
  lemma SwapKeepsSpan<T(!new)>(sp: Space<T>, rows: seq<T>, i: nat, j: nat)
    requires Valid(sp)
    requires i < |rows| && j < |rows|
    ensures Span(sp, rows[i := rows[j]][j := rows[i]]) == Span(sp, rows)
  {
    var swapped := rows[i := rows[j]][j := rows[i]];
    forall k | 0 <= k < |rows| ensures swapped[k] in Span(sp, rows) && rows[k] in Span(sp, swapped) {
      var k' := if k == i then j else if k == j then i else k;
      RowInSpan(sp, rows, k');
      RowInSpan(sp, swapped, k');
    }
    SpanLeast(sp, swapped, rows);
    SpanLeast(sp, rows, swapped);
  }

  /** Adding one row to any of the other rows keeps the row space. */
  lemma AddKeepsSpan<T(!new)>(sp: Space<T>, before: seq<T>, after: seq<T>, p: nat)
    requires Valid(sp)
    requires |before| == |after| && p < |before| && after[p] == before[p]
    requires forall i :: 0 <= i < |before| ==> after[i] == before[i] || after[i] == sp.add(before[i], before[p])
    ensures Span(sp, after) == Span(sp, before)
  {
    forall k | 0 <= k < |before| ensures after[k] in Span(sp, before) && before[k] in Span(sp, after) {
      RowInSpan(sp, before, k);
      RowInSpan(sp, before, p);
      RowInSpan(sp, after, k);
      RowInSpan(sp, after, p);
      SpanClosed(sp, before, before[k], before[p]);
      SpanClosed(sp, after, after[k], after[p]);
      AddTwice(sp, before[k], before[p]);
    }
    SpanLeast(sp, after, before);
    SpanLeast(sp, before, after);
  }

  // ---- how many elements a reduced row space has ----

  lemma {:induction false} SpanLacksBit<T(!new)>(sp: Space<T>, col: nat, rows: seq<T>, v: T)
    requires Valid(sp) && LinearColumns(sp) && col < sp.width
    requires v in Span(sp, rows)
    requires forall j :: 0 <= j < |rows| ==> !sp.bit(rows[j], col)
    ensures !sp.bit(v, col)
  {
    if rows == [] {
      assert ZeroColumns(sp, v);
    } else {
      var rest, r := rows[1..], rows[0];
      ShiftedMembership(sp, Span(sp, rest), r, v);
      SpanLacksBit(sp, col, rest, if v in Span(sp, rest) then v else sp.add(v, r));
    }
  }

  lemma {:induction false} ShiftedSize<T(!new)>(sp: Space<T>, s: set<T>, r: T)
    requires Valid(sp)
    ensures |Shifted(sp, s, r)| == |s|
  {
    if s == {} {
      assert Shifted(sp, s, r) == {};
    } else {
      var x :| x in s;
      var t := s - {x};
      ShiftedSize(sp, t, r);
      ShiftedMembership(sp, t, r, sp.add(x, r));
      AddTwice(sp, x, r);
      assert Shifted(sp, s, r) == Shifted(sp, t, r) + {sp.add(x, r)};
    }
  }

  lemma {:induction false} ZeroRowsSpan<T(!new)>(sp: Space<T>, rows: seq<T>)
    requires Valid(sp)
    requires forall j :: 0 <= j < |rows| ==> rows[j] == sp.zero
    ensures Span(sp, rows) == {sp.zero}
  {
    if rows != [] {
      assert Laws(sp, sp.zero, sp.zero, sp.zero);
      ZeroRowsSpan(sp, rows[1..]);
    }
  }

  /** A row with a one in a column that is zero in all later rows doubles the row space. */
  lemma OwnColumnDoubles<T(!new)>(sp: Space<T>, col: nat, rows: seq<T>)
    requires Valid(sp) && LinearColumns(sp) && col < sp.width
    requires rows != [] && sp.bit(rows[0], col)
    requires forall j :: 1 <= j < |rows| ==> !sp.bit(rows[j], col)
    ensures |Span(sp, rows)| == 2 * |Span(sp, rows[1..])|
  {
    var rest, r := rows[1..], rows[0];
    var base := Span(sp, rest);
    ShiftedSize(sp, base, r);
    forall v | v in base && v in Shifted(sp, base, r) ensures false {
      SpanLacksBit(sp, col, rest, v);
      ShiftedMembership(sp, base, r, v);
      SpanLacksBit(sp, col, rest, sp.add(v, r));
    }
    assert base !! Shifted(sp, base, r);
  }

  /** When the first |pivots| rows each have a one in a column that is zero in every other row, and
      the other rows are zero, the row space has 2^|pivots| elements: |pivots| is the rank. */
  lemma {:induction false} ReducedSpanSize<T(!new)>(sp: Space<T>, rows: seq<T>, pivots: seq<nat>)
    requires Valid(sp) && LinearColumns(sp)
    requires |pivots| <= |rows|
    requires forall i :: 0 <= i < |pivots| ==> pivots[i] < sp.width && sp.bit(rows[i], pivots[i])
    requires forall i, j :: 0 <= i < |pivots| && 0 <= j < |rows| && i != j ==> !sp.bit(rows[j], pivots[i])
    requires forall j :: |pivots| <= j < |rows| ==> rows[j] == sp.zero
    ensures |Span(sp, rows)| == Pow2(|pivots|)
  {
    if pivots == [] {
      ZeroRowsSpan(sp, rows);
    } else {
      OwnColumnDoubles(sp, pivots[0], rows);
      ReducedSpanSize(sp, rows[1..], pivots[1..]);
    }
  }

  // ---- reduced echelon form ----

  /** Reduced echelon form on the columns from floor up: row i < |pivots| leads with a one in column
      pivots[i], that column is zero in every other row, leading columns descend, and the remaining
      rows are zero on all those columns. */
  ghost predicate Reduced<T>(sp: Space<T>, rows: seq<T>, pivots: seq<nat>, floor: nat) {
    && |pivots| <= |rows|
    && (forall i :: 0 <= i < |pivots| ==> floor <= pivots[i] < sp.width && sp.bit(rows[i], pivots[i]))
    && (forall i, j :: 0 <= i < |pivots| && 0 <= j < |rows| && i != j ==> !sp.bit(rows[j], pivots[i]))
    && (forall i, j :: 0 <= i < j < |pivots| ==> pivots[j] < pivots[i])
    && (forall i, c :: 0 <= i < |pivots| && pivots[i] < c < sp.width ==> !sp.bit(rows[i], c))
    && (forall j, c :: |pivots| <= j < |rows| && floor <= c < sp.width ==> !sp.bit(rows[j], c))
  }

  /** The row after column col has been cleared with the pivot row. */
  function Cleared<T>(sp: Space<T>, row: T, pivot: T, isPivot: bool, col: nat): T {
    if !isPivot && sp.bit(row, col) then sp.add(row, pivot) else row
  }

  /** Clearing column col with a row below the pivots that has a one there makes it the next pivot. */
  lemma PivotStep<T(!new)>(sp: Space<T>, before: seq<T>, after: seq<T>, pivots: seq<nat>, col: nat)
    requires LinearColumns(sp)
    requires |before| == |after| && |pivots| < |before| && col < sp.width
    requires Reduced(sp, before, pivots, col + 1)
    requires sp.bit(before[|pivots|], col)
    requires forall i :: 0 <= i < |before| ==>
      after[i] == Cleared(sp, before[i], before[|pivots|], i == |pivots|, col)
    ensures Reduced(sp, after, pivots + [col], col)
  {
    var p := before[|pivots|];
    forall i, c | 0 <= i < |before| && 0 <= c < sp.width
      ensures sp.bit(after[i], c)
         <==> sp.bit(before[i], c) != (i != |pivots| && sp.bit(before[i], col) && sp.bit(p, c))
    {}
  }

  lemma SwapKeepsReduced<T>(sp: Space<T>, rows: seq<T>, pivots: seq<nat>, floor: nat, piv: nat)
    requires Reduced(sp, rows, pivots, floor) && |pivots| <= piv < |rows|
    ensures Reduced(sp, rows[|pivots| := rows[piv]][piv := rows[|pivots|]], pivots, floor)
  {}

  /** A matrix reduced on all its columns, or with a pivot in every row, has 2^|pivots| elements in
      its row space, and its rows below the pivots are zero. */
  lemma ReducedHasRank<T(!new)>(sp: Space<T>, rows: seq<T>, pivots: seq<nat>, floor: nat)
    requires Valid(sp) && LinearColumns(sp)
    requires Reduced(sp, rows, pivots, floor)
    requires floor == 0 || |pivots| == |rows|
    ensures |Span(sp, rows)| == Pow2(|pivots|)
    ensures Reduced(sp, rows, pivots, 0)
  {
    forall j | |pivots| <= j < |rows| ensures rows[j] == sp.zero {
      assert ZeroColumns(sp, rows[j]);
    }
    ReducedSpanSize(sp, rows, pivots);
  }

  // ---- Gaussian elimination in place ----

  /** The first row from rank down with a one in column col, or -1. */
  method FindPivot<T>(sp: Space<T>, rows: array<T>, rank: nat, col: nat) returns (piv: int)
    requires rank < rows.Length
    ensures piv == -1 || (rank <= piv < rows.Length && sp.bit(rows[piv], col))
    ensures forall i :: rank <= i < (if piv == -1 then rows.Length else piv) ==> !sp.bit(rows[i], col)
  {
    piv := -1;
    for i := rank to rows.Length
      invariant piv == -1
      invariant forall k :: rank <= k < i ==> !sp.bit(rows[k], col)
    {
      if sp.bit(rows[i], col) {
        piv := i;
        break;
      }
    }
  }

  /** Clears column col in every row but the pivot row. */
  method Eliminate<T>(sp: Space<T>, rows: array<T>, rank: nat, col: nat)
    requires rank < rows.Length
    modifies rows
    ensures forall i :: 0 <= i < rows.Length ==>
      rows[i] == Cleared(sp, old(rows[i]), old(rows[rank]), i == rank, col)
  {
    for i := 0 to rows.Length
      invariant rows[rank] == old(rows[rank])
      invariant forall k :: 0 <= k < i ==> rows[k] == Cleared(sp, old(rows[k]), old(rows[rank]), k == rank, col)
      invariant forall k :: i <= k < rows.Length ==> rows[k] == old(rows[k])
    {
      if i != rank && sp.bit(rows[i], col) {
        rows[i] := sp.add(rows[i], rows[rank]);
      }
    }
  }

  /** Swapping row piv up to the first row below the pivots and clearing column col with it extends
      the reduced form by that column and keeps the row space. */
  lemma PivotKeeps<T(!new)>(sp: Space<T>, before: seq<T>, after: seq<T>, pivots: seq<nat>, piv: nat, col: nat)
    requires Valid(sp) && LinearColumns(sp)
    requires |before| == |after| && |pivots| <= piv < |before| && col < sp.width
    requires Reduced(sp, before, pivots, col + 1) && sp.bit(before[piv], col)
    requires var swapped := before[|pivots| := before[piv]][piv := before[|pivots|]];
      forall i :: 0 <= i < |before| ==>
        after[i] == Cleared(sp, swapped[i], swapped[|pivots|], i == |pivots|, col)
    ensures Reduced(sp, after, pivots + [col], col)
    ensures Span(sp, after) == Span(sp, before)
  {
    var swapped := before[|pivots| := before[piv]][piv := before[|pivots|]];
    SwapKeepsSpan(sp, before, |pivots|, piv);
    SwapKeepsReduced(sp, before, pivots, col + 1, piv);
    AddKeepsSpan(sp, swapped, after, |pivots|);
    PivotStep(sp, swapped, after, pivots, col);
  }

  /** Makes the first row below the pivots with a one in column col the next pivot, if there is one. */
  method PivotColumn<T(!new)>(sp: Space<T>, rows: array<T>, rank: nat, col: nat, ghost pivots: seq<nat>)
    returns (found: bool)
    requires Valid(sp) && LinearColumns(sp)
    requires rank == |pivots| < rows.Length && col < sp.width
    requires Reduced(sp, rows[..], pivots, col + 1)
    modifies rows
    ensures Reduced(sp, rows[..], if found then pivots + [col] else pivots, col)
    ensures Span(sp, rows[..]) == Span(sp, old(rows[..]))
  {
    ghost var before := rows[..];
    var piv := FindPivot(sp, rows, rank, col);
    if piv < 0 {
      return false;
    }
    rows[rank], rows[piv] := rows[piv], rows[rank];
    Eliminate(sp, rows, rank, col);
    PivotKeeps(sp, before, rows[..], pivots, piv, col);
    return true;
  }

  /** Gaussian elimination: the result is the rank of the matrix it is given, as the base-2
      logarithm of the size of the row space; the rows end in reduced echelon form and still span
      the same space. */
  method Rank<T(!new)>(sp: Space<T>, rows: array<T>) returns (rank: nat)
    requires Valid(sp) && LinearColumns(sp)
    modifies rows
    ensures |Span(sp, old(rows[..]))| == Pow2(rank)
    ensures Span(sp, rows[..]) == Span(sp, old(rows[..]))
    ensures exists pivots :: |pivots| == rank && Reduced(sp, rows[..], pivots, 0)
  {
    rank := 0;
    ghost var pivots: seq<nat> := [];
    var col: int := sp.width - 1;
    while col >= 0 && rank < rows.Length
      invariant -1 <= col < sp.width && rank == |pivots| <= rows.Length
      invariant Reduced(sp, rows[..], pivots, col + 1)
      invariant Span(sp, rows[..]) == Span(sp, old(rows[..]))
    {
      var found := PivotColumn(sp, rows, rank, col, pivots);
      if found {
        pivots := pivots + [col];
        rank := rank + 1;
      }
      col := col - 1;
    }
    ReducedHasRank(sp, rows[..], pivots, col + 1);
  }
}
