/**
 * The transposes of trans.c on arrays updated in place. `A` has `N` rows and
 * `M` columns (`int A[N][M]`), `B` has `M` rows and `N` columns
 * (`int B[M][N]`), and the routines store `A[r][c]` into `B[c][r]`.
 */
module Transpose {
  import opened Conflicts

  /** `B` has the shape of the transpose of `A`. */
  predicate Shaped(A: array2<int>, B: array2<int>) {
    B.Length0 == A.Length1 && B.Length1 == A.Length0
  }

  /** Every cell of `B` holds the matching cell of `A`. */
  ghost predicate IsTranspose(A: array2<int>, B: array2<int>)
    reads A, B
  {
    Shaped(A, B) &&
    forall r, c :: 0 <= r < A.Length0 && 0 <= c < A.Length1 ==> B[c, r] == A[r, c]
  }

  function Min(x: nat, y: nat): nat {
    if x < y then x else y
  }

  /** `trans`: the row-by-row baseline. `A` is not written. */
  method Trans(A: array2<int>, B: array2<int>)
    requires Shaped(A, B) && A != B
    modifies B
    ensures IsTranspose(A, B)
  {
    for i := 0 to A.Length0
      invariant forall r, c :: 0 <= r < i && 0 <= c < A.Length1 ==> B[c, r] == A[r, c]
    {
      for j := 0 to A.Length1
        invariant forall r, c :: 0 <= r < i && 0 <= c < A.Length1 ==> B[c, r] == A[r, c]
        invariant forall c :: 0 <= c < j ==> B[c, i] == A[i, c]
      {
        var tmp := A[i, j];
        B[j, i] := tmp;
      }
    }
  }

  /**
   * `transpose_naive`: the `block x block` square of `A` at `(Ai, Aj)` is
   * stored transposed into the square of `B` at `(Bi, Bj)`, two columns of
   * `B` per round, the second one from the bottom up. The rounds read row
   * `Ai + i + 1`, so `block` must be even. `A` and `B` may be the same
   * array when the two squares do not overlap.
   */
  method TransposeNaive(A: array2<int>, Ai: nat, Aj: nat, B: array2<int>, Bi: nat, Bj: nat, block: nat)
    requires block % 2 == 0
    requires Ai + block <= A.Length0 && Aj + block <= A.Length1
    requires Bi + block <= B.Length0 && Bj + block <= B.Length1
    requires A != B || Apart(Ai, Aj, Bi, Bj, block)
    modifies B
    ensures forall x, y :: 0 <= x < B.Length0 && 0 <= y < B.Length1 ==>
      B[x, y] == if Bi <= x < Bi + block && Bj <= y < Bj + block
                 then old(A[Ai + (y - Bj), Aj + (x - Bi)]) else old(B[x, y])
  {
    var i := 0;
    while i < block
      invariant 0 <= i <= block && i % 2 == 0
      invariant forall p, q :: Ai <= p < Ai + block && Aj <= q < Aj + block ==> A[p, q] == old(A[p, q])
      invariant forall x, y :: 0 <= x < B.Length0 && 0 <= y < B.Length1 ==>
        B[x, y] == if Bi <= x < Bi + block && Bj <= y < Bj + i
                   then old(A[Ai + (y - Bj), Aj + (x - Bi)]) else old(B[x, y])
    {
      for j := 0 to block
        invariant forall p, q :: Ai <= p < Ai + block && Aj <= q < Aj + block ==> A[p, q] == old(A[p, q])
        invariant forall x, y :: 0 <= x < B.Length0 && 0 <= y < B.Length1 ==>
          B[x, y] == if (Bi <= x < Bi + block && Bj <= y < Bj + i) || (Bi <= x < Bi + j && y == Bj + i)
                     then old(A[Ai + (y - Bj), Aj + (x - Bi)]) else old(B[x, y])
      {
        B[Bi + j, Bj + i] := A[Ai + i, Aj + j];
      }
      var j: int := block - 1;
      while j >= 0
        invariant -1 <= j < block
        invariant forall p, q :: Ai <= p < Ai + block && Aj <= q < Aj + block ==> A[p, q] == old(A[p, q])
        invariant forall x, y :: 0 <= x < B.Length0 && 0 <= y < B.Length1 ==>
          B[x, y] == if (Bi <= x < Bi + block && Bj <= y < Bj + i + 1) || (Bi + j < x < Bi + block && y == Bj + i + 1)
                     then old(A[Ai + (y - Bj), Aj + (x - Bi)]) else old(B[x, y])
      {
        B[Bi + j, Bj + i + 1] := A[Ai + i + 1, Aj + j];
        j := j - 1;
      }
      i := i + 2;
    }
  }

  /**
   * `copy_naive`: the `block x block` square of `A` at `(Ai, Aj)` is copied
   * into the square of `B` at `(Bi, Bj)`, two rows per round, the second one
   * from right to left; `block` must be even for the same reason.
   */
  method CopyNaive(A: array2<int>, Ai: nat, Aj: nat, B: array2<int>, Bi: nat, Bj: nat, block: nat)
    requires block % 2 == 0
    requires Ai + block <= A.Length0 && Aj + block <= A.Length1
    requires Bi + block <= B.Length0 && Bj + block <= B.Length1
    requires A != B || Apart(Ai, Aj, Bi, Bj, block)
    modifies B
    ensures forall x, y :: 0 <= x < B.Length0 && 0 <= y < B.Length1 ==>
      B[x, y] == if Bi <= x < Bi + block && Bj <= y < Bj + block
                 then old(A[Ai + (x - Bi), Aj + (y - Bj)]) else old(B[x, y])
  {
    var i := 0;
    while i < block
      invariant 0 <= i <= block && i % 2 == 0
      invariant forall p, q :: Ai <= p < Ai + block && Aj <= q < Aj + block ==> A[p, q] == old(A[p, q])
      invariant forall x, y :: 0 <= x < B.Length0 && 0 <= y < B.Length1 ==>
        B[x, y] == if Bi <= x < Bi + i && Bj <= y < Bj + block
                   then old(A[Ai + (x - Bi), Aj + (y - Bj)]) else old(B[x, y])
    {
      for j := 0 to block
        invariant forall p, q :: Ai <= p < Ai + block && Aj <= q < Aj + block ==> A[p, q] == old(A[p, q])
        invariant forall x, y :: 0 <= x < B.Length0 && 0 <= y < B.Length1 ==>
          B[x, y] == if (Bi <= x < Bi + i && Bj <= y < Bj + block) || (x == Bi + i && Bj <= y < Bj + j)
                     then old(A[Ai + (x - Bi), Aj + (y - Bj)]) else old(B[x, y])
      {
        B[Bi + i, Bj + j] := A[Ai + i, Aj + j];
      }
      var j: int := block - 1;
      while j >= 0
        invariant -1 <= j < block
        invariant forall p, q :: Ai <= p < Ai + block && Aj <= q < Aj + block ==> A[p, q] == old(A[p, q])
        invariant forall x, y :: 0 <= x < B.Length0 && 0 <= y < B.Length1 ==>
          B[x, y] == if (Bi <= x < Bi + i + 1 && Bj <= y < Bj + block) || (x == Bi + i + 1 && Bj + j < y < Bj + block)
                     then old(A[Ai + (x - Bi), Aj + (y - Bj)]) else old(B[x, y])
      {
        B[Bi + i + 1, Bj + j] := A[Ai + i + 1, Aj + j];
        j := j - 1;
      }
      i := i + 2;
    }
  }

  /** The squares at `(Ai, Aj)` and `(Bi, Bj)` share no cell. */
  predicate Apart(Ai: nat, Aj: nat, Bi: nat, Bj: nat, block: nat) {
    Ai + block <= Bi || Bi + block <= Ai || Aj + block <= Bj || Bj + block <= Aj
  }

  /**
   * `transpose_32`, first loop of a diagonal block at `(R, R)` (rows
   * `R .. R + 3` of `A`): the upper-left 4 x 4 sub-block goes, transposed, to
   * the lower-right sub-block of `B`'s block, out of the way of the row of `A`
   * being read; the upper-right sub-block goes to the lower-left one, where it
   * belongs.
   */
  method DiagonalUpperRows(A: array2<int>, B: array2<int>, R: nat)
    requires Shaped(A, B) && A != B
    requires R + 8 <= A.Length0 && R + 8 <= A.Length1
    modifies B
    ensures forall x, y {:trigger B[x, y]} :: 0 <= x < B.Length0 && 0 <= y < B.Length1 ==>
      B[x, y] == if R + 4 <= x < R + 8 && R + 4 <= y < R + 8 then A[y - 4, x - 4]
                 else if R + 4 <= x < R + 8 && R <= y < R + 4 then A[y, x]
                 else old(B[x, y])
  {
    for dr := 0 to 4
      invariant forall x, y {:trigger B[x, y]} :: 0 <= x < B.Length0 && 0 <= y < B.Length1 ==>
        B[x, y] == if R + 4 <= x < R + 8 && R + 4 <= y < R + 4 + dr then A[y - 4, x - 4]
                   else if R + 4 <= x < R + 8 && R <= y < R + dr then A[y, x]
                   else old(B[x, y])
    {
      for dc := 0 to 4
        invariant forall x, y {:trigger B[x, y]} :: 0 <= x < B.Length0 && 0 <= y < B.Length1 ==>
          B[x, y] == if R + 4 <= x < R + 8 && R + 4 <= y < R + 4 + dr then A[y - 4, x - 4]
                     else if R + 4 <= x < R + 4 + dc && y == R + 4 + dr then A[y - 4, x - 4]
                     else if R + 4 <= x < R + 8 && R <= y < R + dr then A[y, x]
                     else old(B[x, y])
      {
        var r, c := R + dr, R + dc;
        B[c + 4, r + 4] := A[r, c];
      }
      for dc := 4 to 8
        invariant forall x, y {:trigger B[x, y]} :: 0 <= x < B.Length0 && 0 <= y < B.Length1 ==>
          B[x, y] == if R + 4 <= x < R + 8 && R + 4 <= y < R + 4 + dr + 1 then A[y - 4, x - 4]
                     else if R + 4 <= x < R + 8 && R <= y < R + dr then A[y, x]
                     else if R + 4 <= x < R + dc && y == R + dr then A[y, x]
                     else old(B[x, y])
      {
        var r, c := R + dr, R + dc;
        B[c, r] := A[r, c];
      }
    }
  }

  /**
   * `transpose_32`, second loop of a diagonal block (rows `R + 4 .. R + 7` of
   * `A`): the lower-left sub-block goes to the upper-right one of `B`'s
   * block, where it belongs; the lower-right sub-block goes, transposed, to
   * the upper-left one.
   */
  method DiagonalLowerRows(A: array2<int>, B: array2<int>, R: nat)
    requires Shaped(A, B) && A != B
    requires R + 8 <= A.Length0 && R + 8 <= A.Length1
    modifies B
    ensures forall x, y {:trigger B[x, y]} :: 0 <= x < B.Length0 && 0 <= y < B.Length1 ==>
      B[x, y] == if R <= x < R + 4 && R + 4 <= y < R + 8 then A[y, x]
                 else if R <= x < R + 4 && R <= y < R + 4 then A[y + 4, x + 4]
                 else old(B[x, y])
  {
    for dr := 4 to 8
      invariant forall x, y {:trigger B[x, y]} :: 0 <= x < B.Length0 && 0 <= y < B.Length1 ==>
        B[x, y] == if R <= x < R + 4 && R + 4 <= y < R + dr then A[y, x]
                   else if R <= x < R + 4 && R <= y < R + dr - 4 then A[y + 4, x + 4]
                   else old(B[x, y])
    {
      for dc := 0 to 4
        invariant forall x, y {:trigger B[x, y]} :: 0 <= x < B.Length0 && 0 <= y < B.Length1 ==>
          B[x, y] == if R <= x < R + 4 && R + 4 <= y < R + dr then A[y, x]
                     else if R <= x < R + dc && y == R + dr then A[y, x]
                     else if R <= x < R + 4 && R <= y < R + dr - 4 then A[y + 4, x + 4]
                     else old(B[x, y])
      {
        var r, c := R + dr, R + dc;
        B[c, r] := A[r, c];
      }
      for dc := 4 to 8
        invariant forall x, y {:trigger B[x, y]} :: 0 <= x < B.Length0 && 0 <= y < B.Length1 ==>
          B[x, y] == if R <= x < R + 4 && R + 4 <= y < R + dr + 1 then A[y, x]
                     else if R <= x < R + 4 && R <= y < R + dr - 4 then A[y + 4, x + 4]
                     else if R <= x < R + dc - 4 && y == R + dr - 4 then A[y + 4, x + 4]
                     else old(B[x, y])
      {
        var r, c := R + dr, R + dc;
        B[c - 4, r - 4] := A[r, c];
      }
    }
  }

  /**
   * `transpose_32`, third loop of a diagonal block: the upper-left and
   * lower-right 4 x 4 sub-blocks of `B`'s block trade places through `tmp`.
   */
  method SwapDiagonalSubBlocks(B: array2<int>, R: nat)
    requires R + 8 <= B.Length0 && R + 8 <= B.Length1
    modifies B
    ensures forall x, y :: 0 <= x < B.Length0 && 0 <= y < B.Length1 ==>
      B[x, y] == if R <= x < R + 4 && R <= y < R + 4 then old(B[x + 4, y + 4])
                 else if R + 4 <= x < R + 8 && R + 4 <= y < R + 8 then old(B[x - 4, y - 4])
                 else old(B[x, y])
  {
    for dr := 0 to 4
      invariant forall x, y :: 0 <= x < B.Length0 && 0 <= y < B.Length1 ==>
        B[x, y] == if R <= x < R + dr && R <= y < R + 4 then old(B[x + 4, y + 4])
                   else if R + 4 <= x < R + 4 + dr && R + 4 <= y < R + 8 then old(B[x - 4, y - 4])
                   else old(B[x, y])
    {
      for dc := 0 to 4
        invariant forall x, y :: 0 <= x < B.Length0 && 0 <= y < B.Length1 ==>
          B[x, y] == if R <= x < R + dr && R <= y < R + 4 then old(B[x + 4, y + 4])
                     else if x == R + dr && R <= y < R + dc then old(B[x + 4, y + 4])
                     else if R + 4 <= x < R + 4 + dr && R + 4 <= y < R + 8 then old(B[x - 4, y - 4])
                     else if x == R + 4 + dr && R + 4 <= y < R + 4 + dc then old(B[x - 4, y - 4])
                     else old(B[x, y])
      {
        var r, c := R + dr, R + dc;
        var tmp := B[r, c];
        B[r, c] := B[r + 4, c + 4];
        B[r + 4, c + 4] := tmp;
      }
    }
  }

  /** A diagonal 8 x 8 block of `transpose_32`: the three loops together store its transpose. */
  method DiagonalBlock(A: array2<int>, B: array2<int>, R: nat)
    requires Shaped(A, B) && A != B
    requires R + 8 <= A.Length0 && R + 8 <= A.Length1
    modifies B
    ensures forall x, y :: 0 <= x < B.Length0 && 0 <= y < B.Length1 ==>
      B[x, y] == if R <= x < R + 8 && R <= y < R + 8 then A[y, x] else old(B[x, y])
  {
    DiagonalUpperRows(A, B, R);
    DiagonalLowerRows(A, B, R);
    SwapDiagonalSubBlocks(B, R);
  }

  /**
   * An off-diagonal block of `transpose_32` at rows `row ..` and columns
   * `col ..` of `A`: cell by cell, cut short at the edges of the matrix.
   */
  method OffDiagonalBlock(A: array2<int>, B: array2<int>, row: nat, col: nat)
    requires Shaped(A, B) && A != B
    modifies B
    ensures forall x, y :: 0 <= x < B.Length0 && 0 <= y < B.Length1 ==>
      B[x, y] == if col <= x < col + 8 && row <= y < row + 8 then A[y, x] else old(B[x, y])
  {
    var dr := 0;
    while dr < 8 && row + dr < A.Length0
      invariant 0 <= dr <= 8
      invariant forall x, y :: 0 <= x < B.Length0 && 0 <= y < B.Length1 ==>
        B[x, y] == if col <= x < col + 8 && row <= y < row + dr then A[y, x] else old(B[x, y])
    {
      var dc := 0;
      while dc < 8 && col + dc < A.Length1
        invariant 0 <= dc <= 8
        invariant forall x, y :: 0 <= x < B.Length0 && 0 <= y < B.Length1 ==>
          B[x, y] == if (col <= x < col + 8 && row <= y < row + dr) || (col <= x < col + dc && y == row + dr)
                     then A[y, x] else old(B[x, y])
      {
        var r, c := row + dr, col + dc;
        B[c, r] := A[r, c];
        dc := dc + 1;
      }
      dr := dr + 1;
    }
  }

  /**
   * `transpose_32`: 8 x 8 blocks in row-major order, the diagonal ones through
   * `DiagonalBlock`. A diagonal block must lie inside both matrices, which
   * holds when the smaller dimension is a multiple of 8, as for 32 x 32.
   */
  method Transpose32(A: array2<int>, B: array2<int>)
    requires Shaped(A, B) && A != B
    requires Min(A.Length0, A.Length1) % 8 == 0
    modifies B
    ensures IsTranspose(A, B)
  {
    var row := 0;
    while row < A.Length0
      invariant row % 8 == 0
      invariant forall x, y :: 0 <= x < B.Length0 && 0 <= y < B.Length1 ==>
        B[x, y] == if y < row then A[y, x] else old(B[x, y])
    {
      var col := 0;
      while col < A.Length1
        invariant col % 8 == 0
        invariant forall x, y :: 0 <= x < B.Length0 && 0 <= y < B.Length1 ==>
          B[x, y] == if y < row || (y < row + 8 && x < col) then A[y, x] else old(B[x, y])
      {
        if row == col {
          DiagonalBlock(A, B, row);
        } else {
          OffDiagonalBlock(A, B, row, col);
        }
        col := col + 8;
      }
      row := row + 8;
    }
  }

  /**
   * Whether cell `A[r][c]` is stored into `B[c][r]`: by `transpose_generic`
   * as written (`Stored`), or, with `storeOverflow`, by the corrected
   * routine, which stores every cell.
   */
  predicate StoredBy(storeOverflow: bool, M: nat, N: nat, r: nat, c: nat) {
    storeOverflow || Stored(M, N, r, c)
  }

  /**
   * What the `dj` loop knows after `dj` columns of a segment: `dj1` (`dj2`)
   * is `-1` until a first (second) conflicting cell is met, then its column
   * in the segment.
   */
  predicate HeldBack(M: nat, N: nat, r: nat, j: nat, dj: nat, dj1: int, dj2: int) {
    var k := ConflictsBefore(M, N, r, j, dj);
    (dj1 < 0 <==> k == 0) && (dj2 < 0 <==> k <= 1) &&
    (k >= 1 ==> 0 <= dj1 < dj && InRange(M, N, r, j + dj1) && Conflict(M, N, r, j + dj1) &&
                ConflictsBefore(M, N, r, j, dj1) == 0) &&
    (k >= 2 ==> dj1 < dj2 < dj && InRange(M, N, r, j + dj2) && Conflict(M, N, r, j + dj2) &&
                ConflictsBefore(M, N, r, j, dj2) == 1)
  }

  /**
   * The `dj` loop of `transpose_generic` over the segment of row `r` that
   * starts at column `j`: cells outside the matrix are skipped, the first two
   * conflicting cells are held in `temp1`/`temp2`, the others are stored at
   * once, except that a third conflicting cell is dropped unless
   * `storeOverflow` is set.
   */
  method GenericRowScan(A: array2<int>, B: array2<int>, r: nat, j: nat, storeOverflow: bool)
      returns (dj1: int, dj2: int, temp1: int, temp2: int)
    requires Shaped(A, B) && A != B
    modifies B
    ensures HeldBack(A.Length1, A.Length0, r, j, SegmentWidth, dj1, dj2)
    ensures dj1 >= 0 ==> temp1 == A[r, j + dj1]
    ensures dj2 >= 0 ==> temp2 == A[r, j + dj2]
    ensures forall x, y :: 0 <= x < B.Length0 && 0 <= y < B.Length1 ==>
      B[x, y] == if y == r && j <= x < j + SegmentWidth && DirectlyStored(storeOverflow, A.Length1, A.Length0, y, j, x - j)
                 then A[y, x] else old(B[x, y])
  {
    var M, N := A.Length1, A.Length0;
    temp1, temp2 := 0, 0;
    dj1, dj2 := -1, -1;
    for dj := 0 to SegmentWidth
      invariant HeldBack(M, N, r, j, dj, dj1, dj2)
      invariant dj1 >= 0 ==> temp1 == A[r, j + dj1]
      invariant dj2 >= 0 ==> temp2 == A[r, j + dj2]
      invariant forall x, y :: 0 <= x < B.Length0 && 0 <= y < B.Length1 ==>
        B[x, y] == if y == r && j <= x < j + dj && DirectlyStored(storeOverflow, M, N, y, j, x - j)
                   then A[y, x] else old(B[x, y])
    {
      if r >= N || j + dj >= M {
        continue;
      }
      if Conflict(M, N, r, j + dj) {
        if dj1 < 0 {
          temp1 := A[r, j + dj];
          dj1 := dj;
        } else if dj2 < 0 {
          temp2 := A[r, j + dj];
          dj2 := dj;
        } else if storeOverflow {
          B[j + dj, r] := A[r, j + dj];
        }
      } else {
        B[j + dj, r] := A[r, j + dj];
      }
    }
  }

  /** After the segment, a conflicting cell with fewer than two before it is one of the held-back ones. */
  lemma HeldBackCell(M: nat, N: nat, r: nat, j: nat, dj1: int, dj2: int, d: nat)
    requires HeldBack(M, N, r, j, SegmentWidth, dj1, dj2)
    requires d < SegmentWidth && InRange(M, N, r, j + d) && Conflict(M, N, r, j + d)
    ensures ConflictsBefore(M, N, r, j, d) == 0 ==> d == dj1
    ensures ConflictsBefore(M, N, r, j, d) == 1 ==> d == dj2
  {
    CountPasses(M, N, r, j, d, SegmentWidth);
    if ConflictsBefore(M, N, r, j, d) == 0 && d != dj1 {
      if d < dj1 { CountPasses(M, N, r, j, d, dj1); } else { CountPasses(M, N, r, j, dj1, d); }
    }
    if ConflictsBefore(M, N, r, j, d) == 1 && d != dj2 {
      if d < dj2 { CountPasses(M, N, r, j, d, dj2); } else { CountPasses(M, N, r, j, dj2, d); }
    }
  }

  /**
   * One pass of the `di` loop of `transpose_generic`: the `dj` loop over the
   * segment, then the held-back cells stored.
   */
  method GenericRow(A: array2<int>, B: array2<int>, r: nat, j: nat, storeOverflow: bool)
    requires Shaped(A, B) && A != B
    requires j % SegmentWidth == 0
    modifies B
    ensures forall x, y :: 0 <= x < B.Length0 && 0 <= y < B.Length1 ==>
      B[x, y] == if y == r && j <= x < j + SegmentWidth && StoredBy(storeOverflow, A.Length1, A.Length0, y, x)
                 then A[y, x] else old(B[x, y])
  {
    var M, N := A.Length1, A.Length0;
    var dj1, dj2, temp1, temp2 := GenericRowScan(A, B, r, j, storeOverflow);
    if dj1 >= 0 {
      B[j + dj1, r] := temp1;
    }
    if dj2 >= 0 {
      B[j + dj2, r] := temp2;
    }
    forall x, y | 0 <= x < B.Length0 && 0 <= y < B.Length1 && y == r && j <= x < j + SegmentWidth
      ensures B[x, y] == if StoredBy(storeOverflow, M, N, y, x) then A[y, x] else old(B[x, y])
    {
      SegmentOf(j, x);
      if Conflict(M, N, r, x) {
        HeldBackCell(M, N, r, j, dj1, dj2, x - j);
      }
    }
  }

  /**
   * Cells the `dj` loop itself stores, before the held-back ones: those that
   * do not conflict and, with `storeOverflow`, the conflicting ones past the
   * second.
   */
  predicate DirectlyStored(storeOverflow: bool, M: nat, N: nat, r: nat, j: nat, d: nat) {
    !Conflict(M, N, r, j + d) || (storeOverflow && ConflictsBefore(M, N, r, j, d) >= 2)
  }

  /**
   * The loops of `transpose_generic` over 16 x 16 tiles, column of tiles by
   * column of tiles, each tile row by row through `GenericRow`.
   */
  method GenericTiles(A: array2<int>, B: array2<int>, storeOverflow: bool)
    requires Shaped(A, B) && A != B
    modifies B
    ensures forall x, y :: 0 <= x < B.Length0 && 0 <= y < B.Length1 ==>
      B[x, y] == if StoredBy(storeOverflow, A.Length1, A.Length0, y, x) then A[y, x] else old(B[x, y])
  {
    var M, N := A.Length1, A.Length0;
    var j := 0;
    while j < M
      invariant j % SegmentWidth == 0
      invariant forall x, y :: 0 <= x < B.Length0 && 0 <= y < B.Length1 ==>
        B[x, y] == if x < j && StoredBy(storeOverflow, M, N, y, x) then A[y, x] else old(B[x, y])
    {
      var i := 0;
      while i < N
        invariant forall x, y :: 0 <= x < B.Length0 && 0 <= y < B.Length1 ==>
          B[x, y] == if (x < j || (x < j + SegmentWidth && y < i)) && StoredBy(storeOverflow, M, N, y, x)
                     then A[y, x] else old(B[x, y])
      {
        for di := 0 to SegmentWidth
          invariant forall x, y :: 0 <= x < B.Length0 && 0 <= y < B.Length1 ==>
            B[x, y] == if (x < j || (x < j + SegmentWidth && y < i + di)) && StoredBy(storeOverflow, M, N, y, x)
                       then A[y, x] else old(B[x, y])
        {
          GenericRow(A, B, i + di, j, storeOverflow);
        }
        i := i + SegmentWidth;
      }
      j := j + SegmentWidth;
    }
  }

  /**
   * `transpose_generic` as written: `B[c][r]` receives `A[r][c]` for every
   * stored cell and keeps its old value for a dropped one.
   */
  method TransposeGeneric(A: array2<int>, B: array2<int>)
    requires Shaped(A, B) && A != B
    modifies B
    ensures forall r, c :: 0 <= r < A.Length0 && 0 <= c < A.Length1 ==>
      B[c, r] == if Stored(A.Length1, A.Length0, r, c) then A[r, c] else old(B[c, r])
    ensures SegmentsFit(A.Length1, A.Length0) ==> IsTranspose(A, B)
  {
    GenericTiles(A, B, false);
    if SegmentsFit(A.Length1, A.Length0) {
      StoresAllIffSegmentsFit(A.Length1, A.Length0);
    }
  }

  /**
   * `transpose_generic` with a conflicting cell past the second stored at
   * once: the full transpose for every shape.
   */
  method TransposeGenericCorrected(A: array2<int>, B: array2<int>)
    requires Shaped(A, B) && A != B
    modifies B
    ensures IsTranspose(A, B)
  {
    GenericTiles(A, B, true);
  }

  /**
   * `transpose_submit`: 32 x 32 goes to `transpose_32`, every other shape but
   * 64 x 64 to `transpose_generic` as written, which drops the cells it
   * cannot store.
   */
  method TransposeSubmit(A: array2<int>, B: array2<int>)
    requires Shaped(A, B) && A != B
    requires !(A.Length1 == 64 && A.Length0 == 64)
    modifies B
    ensures forall r, c :: 0 <= r < A.Length0 && 0 <= c < A.Length1 ==>
      B[c, r] == if (A.Length1 == 32 && A.Length0 == 32) || Stored(A.Length1, A.Length0, r, c)
                 then A[r, c] else old(B[c, r])
    ensures (A.Length1 == 32 && A.Length0 == 32) || SegmentsFit(A.Length1, A.Length0) ==> IsTranspose(A, B)
  {
    if A.Length1 == 32 && A.Length0 == 32 {
      Transpose32(A, B);
    } else {
      TransposeGeneric(A, B);
    }
  }

  /**
   * `transpose_submit` dispatching to the corrected generic routine: the
   * full transpose for every shape but 64 x 64.
   */
  method TransposeSubmitCorrected(A: array2<int>, B: array2<int>)
    requires Shaped(A, B) && A != B
    requires !(A.Length1 == 64 && A.Length0 == 64)
    modifies B
    ensures IsTranspose(A, B)
  {
    if A.Length1 == 32 && A.Length0 == 32 {
      Transpose32(A, B);
    } else {
      TransposeGenericCorrected(A, B);
    }
  }
}
