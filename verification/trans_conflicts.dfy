/**
 * Which cells `transpose_generic` (trans.c) stores. The routine walks each
 * row of `A` in segments of 16 columns and holds back the cells whose
 * source `A[r][c]` and destination `B[c][r]` would share a cache set; it has
 * room for two such cells per segment, so a third one is never stored.
 */
module Conflicts {
  import opened Arith

  /** Width of a row segment: `block` in `transpose_generic`. */
  const SegmentWidth: nat := 16

  /**
   * `((M*r + c)/8) & 31 == ((N*c + r)/8) & 31`: cell `A[r][c]` of an `N`-row,
   * `M`-column matrix and cell `B[c][r]` of its transpose sit in the same set
   * of a cache of 32 sets with 8 `int`s per block. The operands are never
   * negative, so `&31` is `% 32` and `/` is the same in C and Dafny.
   */
  predicate Conflict(M: nat, N: nat, r: nat, c: nat) {
    CacheSet(M * r + c) == CacheSet(N * c + r)
  }

  /** Set of the 32-set cache holding the `int` at element offset `index`. */
  function CacheSet(index: nat): (k: nat)
    ensures k < 32
  {
    (index / 8) % 32
  }

  /** The cell is inside the matrix; the routine skips the others. */
  predicate InRange(M: nat, N: nat, r: nat, c: nat) {
    r < N && c < M
  }

  /**
   * Conflicting cells that the routine meets in row `r` at columns
   * `j`, ..., `j + d - 1`, skipping the cells outside the matrix.
   */
  function ConflictsBefore(M: nat, N: nat, r: nat, j: nat, d: nat): (k: nat)
    ensures k <= d
  {
    if d == 0 then 0
    else ConflictsBefore(M, N, r, j, d - 1)
         + (if InRange(M, N, r, j + d - 1) && Conflict(M, N, r, j + d - 1) then 1 else 0)
  }

  /** First column of the segment that column `c` lies in. */
  function SegmentStart(c: nat): (j: nat)
    ensures j <= c < j + SegmentWidth && j % SegmentWidth == 0
  {
    c - c % SegmentWidth
  }

  /**
   * Whether `transpose_generic` stores `A[r][c]` into `B[c][r]`: every cell
   * that does not conflict, and the first two conflicting cells of a segment.
   */
  predicate Stored(M: nat, N: nat, r: nat, c: nat) {
    !Conflict(M, N, r, c) || ConflictsBefore(M, N, r, SegmentStart(c), c - SegmentStart(c)) < 2
  }

  /** No 16-column segment of a row holds more than two conflicting cells. */
  predicate SegmentsFit(M: nat, N: nat) {
    forall r: nat, j: nat :: r < N && j < M && j % SegmentWidth == 0 ==>
      ConflictsBefore(M, N, r, j, SegmentWidth) <= 2
  }

  /** A column of a segment starting at a multiple of 16 has that start. */
  lemma SegmentOf(j: nat, c: nat)
    requires j % SegmentWidth == 0 && j <= c < j + SegmentWidth
    ensures SegmentStart(c) == j
  {
    DivModUnique(c, SegmentWidth, j / SegmentWidth, c - j);
  }

  /** Counting further along a segment never counts fewer cells. */
  lemma {:induction false} CountMonotone(M: nat, N: nat, r: nat, j: nat, d: nat, e: nat)
    requires d <= e
    ensures ConflictsBefore(M, N, r, j, d) <= ConflictsBefore(M, N, r, j, e)
  {
    if d < e {
      CountMonotone(M, N, r, j, d, e - 1);
    }
  }

  /**
   * A conflicting cell is counted by every later position: two conflicting
   * cells of a segment never have the same count before them.
   */
  lemma CountPasses(M: nat, N: nat, r: nat, j: nat, d: nat, e: nat)
    requires d < e
    requires InRange(M, N, r, j + d) && Conflict(M, N, r, j + d)
    ensures ConflictsBefore(M, N, r, j, d) < ConflictsBefore(M, N, r, j, e)
  {
    CountMonotone(M, N, r, j, d + 1, e);
  }

  /**
   * Where the count first reaches `n + 1` there is a conflicting cell with
   * exactly `n` conflicting cells before it.
   */
  lemma {:induction false} CountReaches(M: nat, N: nat, r: nat, j: nat, e: nat, n: nat)
    requires ConflictsBefore(M, N, r, j, e) > n
    ensures exists d: nat :: d < e && InRange(M, N, r, j + d) && Conflict(M, N, r, j + d) &&
                        ConflictsBefore(M, N, r, j, d) == n
  {
    if ConflictsBefore(M, N, r, j, e - 1) > n {
      CountReaches(M, N, r, j, e - 1, n);
    } else {
      assert InRange(M, N, r, j + (e - 1)) && Conflict(M, N, r, j + (e - 1));
    }
  }

  /** With at most two conflicting cells per segment, every cell is stored. */
  lemma StoresAllWhenSegmentsFit(M: nat, N: nat, r: nat, c: nat)
    requires SegmentsFit(M, N) && InRange(M, N, r, c)
    ensures Stored(M, N, r, c)
  {
    var j := SegmentStart(c);
    if Conflict(M, N, r, c) {
      CountPasses(M, N, r, j, c - j, SegmentWidth);
      assert ConflictsBefore(M, N, r, j, SegmentWidth) <= 2;
    }
  }

  /** A segment with a third conflicting cell loses that cell. */
  lemma LosesCellWhenSegmentOverfull(M: nat, N: nat, r: nat, j: nat)
    requires j % SegmentWidth == 0 && ConflictsBefore(M, N, r, j, SegmentWidth) > 2
    ensures exists c: nat :: InRange(M, N, r, c) && !Stored(M, N, r, c)
  {
    CountReaches(M, N, r, j, SegmentWidth, 2);
    var d: nat :| d < SegmentWidth && InRange(M, N, r, j + d) && Conflict(M, N, r, j + d) &&
                  ConflictsBefore(M, N, r, j, d) == 2;
    SegmentOf(j, j + d);
    assert !Stored(M, N, r, j + d);
  }

  /**
   * `transpose_generic` stores every cell of the matrix exactly when no
   * segment holds more than two conflicting cells.
   */
  lemma StoresAllIffSegmentsFit(M: nat, N: nat)
    ensures (forall r: nat, c: nat :: InRange(M, N, r, c) ==> Stored(M, N, r, c)) <==> SegmentsFit(M, N)
  {
    if SegmentsFit(M, N) {
      forall r: nat, c: nat | InRange(M, N, r, c) ensures Stored(M, N, r, c) {
        StoresAllWhenSegmentsFit(M, N, r, c);
      }
    } else {
      var r: nat, j: nat :| r < N && j < M && j % SegmentWidth == 0 &&
                            ConflictsBefore(M, N, r, j, SegmentWidth) > 2;
      LosesCellWhenSegmentOverfull(M, N, r, j);
    }
  }

  /**
   * On a 128 x 128 matrix the first segment of row 0 has conflicting cells
   * at columns 0, 2 and 4, so `A[0][4]` is never stored into `B[4][0]`.
   */
  lemma Square128LosesCell()
    ensures Conflict(128, 128, 0, 0) && Conflict(128, 128, 0, 2) && Conflict(128, 128, 0, 4)
    ensures !Stored(128, 128, 0, 4)
    ensures !SegmentsFit(128, 128)
  {
    Square128Row0();
    assert SegmentStart(4) == 0 by { SegmentOf(0, 4); }
    assert ConflictsBefore(128, 128, 0, 0, SegmentWidth) > 2 by {
      CountMonotone(128, 128, 0, 0, 5, SegmentWidth);
    }
  }

  lemma Square128Row0()
    ensures Conflict(128, 128, 0, 0) && !Conflict(128, 128, 0, 1) && Conflict(128, 128, 0, 2)
    ensures !Conflict(128, 128, 0, 3) && Conflict(128, 128, 0, 4)
    ensures ConflictsBefore(128, 128, 0, 0, 4) == 2 && ConflictsBefore(128, 128, 0, 0, 5) == 3
  {
    forall c: nat | c < 5 ensures CacheSet(c) == 0 && CacheSet(128 * c) == (16 * c) % 32 {
      CacheSetOfBlock(c, 0);
      CacheSetOfBlock(128 * c, 16 * c);
    }
    Square128Count();
  }

  lemma Square128Count()
    requires Conflict(128, 128, 0, 0) && !Conflict(128, 128, 0, 1) && Conflict(128, 128, 0, 2)
    requires !Conflict(128, 128, 0, 3) && Conflict(128, 128, 0, 4)
    ensures ConflictsBefore(128, 128, 0, 0, 4) == 2 && ConflictsBefore(128, 128, 0, 0, 5) == 3
  {
    assert ConflictsBefore(128, 128, 0, 0, 1) == 1;
    assert ConflictsBefore(128, 128, 0, 0, 2) == 1;
    assert ConflictsBefore(128, 128, 0, 0, 3) == 2;
  }

  /** An offset in the `q`-th block of 8 `int`s lies in set `q mod 32`. */
  lemma CacheSetOfBlock(index: nat, q: nat)
    requires 8 * q <= index < 8 * q + 8
    ensures CacheSet(index) == q % 32
  {
    DivModUnique(index, 8, q, index - 8 * q);
  }
}
