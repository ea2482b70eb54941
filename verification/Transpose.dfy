/**
 The in-place transposes of Lab4_cachelab/cachelab-handout/trans.c.  The 64x64
 version works in 8x8 blocks and uses columns of B that it has yet to fill as
 scratch; it is carried out here for any size that is a multiple of 8.
 */
module Transpose {

  /** Columns col..col+3 of A, rows lo..hi-1, stand in rows row..row+3 of B,
      `shift` places to the right of where their row number puts them. */
  ghost predicate Quad(A: array2<int>, B: array2<int>, lo: nat, hi: nat, col: nat, row: nat, shift: nat)
    reads A, B
  {
    && hi <= A.Length0 && col + 4 <= A.Length1 && row + 4 <= B.Length0 && hi + shift <= B.Length1
    && forall r, c :: row <= r < row + 4 && lo + shift <= c < hi + shift ==> B[r, c] == A[c - shift, col + (r - row)]
  }

  /** Nothing of B changes outside rows r0..r1-1 and columns c0..c1-1. */
  twostate predicate OnlyIn(B: array2<int>, r0: int, r1: int, c0: int, c1: int)
    reads B
  {
    forall r, c :: 0 <= r < B.Length0 && 0 <= c < B.Length1 && !(r0 <= r < r1 && c0 <= c < c1) ==> B[r, c] == old(B[r, c])
  }

  method StoreFour(B: array2<int>, row: nat, c: nat, v0: int, v1: int, v2: int, v3: int)
    requires row + 4 <= B.Length0 && c < B.Length1
    modifies B
    ensures B[row, c] == v0 && B[row + 1, c] == v1 && B[row + 2, c] == v2 && B[row + 3, c] == v3
    ensures OnlyIn(B, row, row + 4, c, c + 1)
  {
    B[row, c] := v0;
    B[row + 1, c] := v1;
    B[row + 2, c] := v2;
    B[row + 3, c] := v3;
  }

  /** Four elements of a row of A go into a column of B. */
  method CopyQuad(A: array2<int>, B: array2<int>, lo: nat, hi: nat, col: nat, row: nat, shift: nat)
    requires A != B && lo <= hi <= A.Length0 && col + 4 <= A.Length1
    requires row + 4 <= B.Length0 && hi + shift <= B.Length1
    modifies B
    ensures Quad(A, B, lo, hi, col, row, shift)
    ensures OnlyIn(B, row, row + 4, lo + shift, hi + shift)
  {
    for il := lo to hi
      invariant Quad(A, B, lo, il, col, row, shift)
      invariant OnlyIn(B, row, row + 4, lo + shift, hi + shift)
    {
      var v0, v1, v2, v3 := A[il, col], A[il, col + 1], A[il, col + 2], A[il, col + 3];
      StoreFour(B, row, il + shift, v0, v1, v2, v3);
    }
  }

  /** First branch of transpose_64by64: both halves of a block are parked in
      the lower rows of the next two blocks. */
  method ParkBoth(A: array2<int>, B: array2<int>, i: nat, j: nat)
    requires A != B && i + 8 <= A.Length0 && j + 8 <= A.Length1 && j + 8 <= B.Length0 && i + 24 <= B.Length1
    modifies B
    ensures Quad(A, B, i, i + 8, j, j + 4, 16) && Quad(A, B, i, i + 8, j + 4, j + 4, 8)
    ensures OnlyIn(B, j + 4, j + 8, i + 8, i + 24)
  {
    for il := i to i + 8
      invariant Quad(A, B, i, il, j, j + 4, 16) && Quad(A, B, i, il, j + 4, j + 4, 8)
      invariant OnlyIn(B, j + 4, j + 8, i + 8, i + 24)
    {
      var v0, v1, v2, v3 := A[il, j], A[il, j + 1], A[il, j + 2], A[il, j + 3];
      var v4, v5, v6, v7 := A[il, j + 4], A[il, j + 5], A[il, j + 6], A[il, j + 7];
      StoreFour(B, j + 4, il + 16, v0, v1, v2, v3);
      StoreFour(B, j + 4, il + 8, v4, v5, v6, v7);
    }
  }

  /** A parked half is copied back into columns i..i+7, rows row..row+3. */
  method PutBack(B: array2<int>, i: nat, row: nat, from: nat, shift: nat)
    requires row + 4 <= B.Length0 && from + 4 <= B.Length0 && shift >= 8 && i + 8 + shift <= B.Length1
    modifies B
    ensures forall r, c :: row <= r < row + 4 && i <= c < i + 8 ==> B[r, c] == old(B[r + (from - row), c + shift])
    ensures OnlyIn(B, row, row + 4, i, i + 8)
  {
    for il := i to i + 8
      invariant forall r, c :: row <= r < row + 4 && i <= c < il ==> B[r, c] == old(B[r + (from - row), c + shift])
      invariant OnlyIn(B, row, row + 4, i, il)
    {
      for jl := row to row + 4
        invariant forall r, c :: row <= r < row + 4 && i <= c < il ==> B[r, c] == old(B[r + (from - row), c + shift])
        invariant forall r :: row <= r < jl ==> B[r, il] == old(B[r + (from - row), il + shift])
        invariant OnlyIn(B, row, row + 4, i, il + 1)
      {
        B[jl, il] := B[jl + from - row, il + shift];
      }
    }
  }

  /** A half block in place, four rows of A at a time. */
  method CopyInPlace(A: array2<int>, B: array2<int>, i: nat, col: nat, lowFirst: bool)
    requires A != B && i + 8 <= A.Length0 && col + 4 <= A.Length1 && col + 4 <= B.Length0 && i + 8 <= B.Length1
    modifies B
    ensures Quad(A, B, i, i + 8, col, col, 0) && OnlyIn(B, col, col + 4, i, i + 8)
  {
    if lowFirst {
      CopyQuad(A, B, i, i + 4, col, col, 0);
      CopyQuad(A, B, i + 4, i + 8, col, col, 0);
    } else {
      CopyQuad(A, B, i + 4, i + 8, col, col, 0);
      CopyQuad(A, B, i, i + 4, col, col, 0);
    }
  }

  /** The lower half of block (i, j) can be parked one block further on. */
  predicate ParkLower(n: nat, i: nat, j: nat) {
    i + 8 < n && (i + 8 < j || i >= j)
  }

  /** The upper half of block (i, j) can be parked two blocks further on. */
  predicate ParkUpper(n: nat, i: nat, j: nat) {
    i + 16 < n && (i + 16 < j || i + 8 >= j)
  }

  /** One block of transpose_64by64 before its halves are put back. */
  method Spread(A: array2<int>, B: array2<int>, n: nat, i: nat, j: nat)
    requires A != B && A.Length0 == n && A.Length1 == n && B.Length0 == n && B.Length1 == n
    requires n % 8 == 0 && i % 8 == 0 && j % 8 == 0 && i < n && j < n
    modifies B
    ensures Quad(A, B, i, i + 8, j + 4, j + 4, if ParkLower(n, i, j) then 8 else 0)
    ensures if ParkUpper(n, i, j) then Quad(A, B, i, i + 8, j, j + 4, 16) else Quad(A, B, i, i + 8, j, j, 0)
    ensures OnlyIn(B, j, j + 8, i, n)
  {
    if i + 16 < n && (i + 16 < j || i + 8 >= j) && (i + 8 < j || i >= j) {
      ParkBoth(A, B, i, j);
    } else if i + 8 < n && (i + 8 < j || i >= j) {
      CopyQuad(A, B, i, i + 8, j + 4, j + 4, 8);
      CopyInPlace(A, B, i, j, true);
    } else if i + 16 < n && (i + 16 < j || i + 8 >= j) {
      CopyQuad(A, B, i, i + 8, j, j + 4, 16);
      CopyInPlace(A, B, i, j + 4, false);
    } else {
      CopyInPlace(A, B, i, j + 4, false);
      CopyInPlace(A, B, i, j, false);
    }
  }

  /** One block of transpose_64by64. */
  method Block(A: array2<int>, B: array2<int>, n: nat, i: nat, j: nat)
    requires A != B && A.Length0 == n && A.Length1 == n && B.Length0 == n && B.Length1 == n
    requires n % 8 == 0 && i % 8 == 0 && j % 8 == 0 && i < n && j < n
    modifies B
    ensures Quad(A, B, i, i + 8, j, j, 0) && Quad(A, B, i, i + 8, j + 4, j + 4, 0)
    ensures OnlyIn(B, j, j + 8, i, n)
  {
    Spread(A, B, n, i, j);
    if i + 8 < n && (i + 8 < j || i >= j) {
      PutBack(B, i, j + 4, j + 4, 8);
    }
    if i + 16 < n && (i + 16 < j || i + 8 >= j) {
      PutBack(B, i, j, j + 4, 16);
    }
  }

  /** transpose_64by64 for size n. */
  method TransposeByBlocks(A: array2<int>, B: array2<int>, n: nat)
    requires A != B && A.Length0 == n && A.Length1 == n && B.Length0 == n && B.Length1 == n
    requires n % 8 == 0
    modifies B
    ensures forall r, c :: 0 <= r < n && 0 <= c < n ==> B[r, c] == A[c, r]
  {
    var j := 0;
    while j < n
      invariant j % 8 == 0 && j <= n
      invariant forall r, c :: 0 <= r < j && 0 <= c < n ==> B[r, c] == A[c, r]
    {
      var i := 0;
      while i < n
        invariant i % 8 == 0 && i <= n
        invariant forall r, c :: 0 <= r < j && 0 <= c < n ==> B[r, c] == A[c, r]
        invariant forall r, c :: j <= r < j + 8 && 0 <= c < i ==> B[r, c] == A[c, r]
      {
        Block(A, B, n, i, j);
        i := i + 8;
      }
      j := j + 8;
    }
  }

  // --------------------------------------------------- the other two sizes

  /** Rows lo..hi-1 of A, columns col..col+wide-1, stand transposed in B. */
  ghost predicate Part(A: array2<int>, B: array2<int>, lo: nat, hi: nat, col: nat, wide: nat)
    requires hi <= A.Length0 && hi <= B.Length1 && col + wide <= A.Length1 && col + wide <= B.Length0
    reads A, B
  {
    forall r, c :: col <= r < col + wide && lo <= c < hi ==> B[r, c] == A[c, r]
  }

  /** The eight-wide loops of transpose_67by61. */
  method CopyEight(A: array2<int>, B: array2<int>, lo: nat, hi: nat, col: nat)
    requires A != B && lo <= hi <= A.Length0 && hi <= B.Length1 && col + 8 <= A.Length1 && col + 8 <= B.Length0
    modifies B
    ensures Part(A, B, lo, hi, col, 8) && OnlyIn(B, col, col + 8, lo, hi)
  {
    for il := lo to hi
      invariant Part(A, B, lo, il, col, 8) && OnlyIn(B, col, col + 8, lo, il)
    {
      var v0, v1, v2, v3 := A[il, col], A[il, col + 1], A[il, col + 2], A[il, col + 3];
      var v4, v5, v6, v7 := A[il, col + 4], A[il, col + 5], A[il, col + 6], A[il, col + 7];
      StoreFour(B, col, il, v0, v1, v2, v3);
      StoreFour(B, col + 4, il, v4, v5, v6, v7);
    }
  }

  /** The five-wide loops of transpose_67by61. */
  method CopyFive(A: array2<int>, B: array2<int>, lo: nat, hi: nat, col: nat)
    requires A != B && lo <= hi <= A.Length0 && hi <= B.Length1 && col + 5 <= A.Length1 && col + 5 <= B.Length0
    modifies B
    ensures Part(A, B, lo, hi, col, 5) && OnlyIn(B, col, col + 5, lo, hi)
  {
    for il := lo to hi
      invariant Part(A, B, lo, il, col, 5) && OnlyIn(B, col, col + 5, lo, il)
    {
      var v0, v1, v2, v3, v4 := A[il, col], A[il, col + 1], A[il, col + 2], A[il, col + 3], A[il, col + 4];
      StoreFour(B, col, il, v0, v1, v2, v3);
      B[col + 4, il] := v4;
    }
  }

  /** Rows lo..hi-1 of a matrix 61 wide: seven strips of eight, one of five. */
  method CopyStrips(A: array2<int>, B: array2<int>, lo: nat, hi: nat)
    requires A != B && lo <= hi <= A.Length0 == B.Length1 && A.Length1 == B.Length0 == 61
    modifies B
    ensures Part(A, B, lo, hi, 0, 61) && OnlyIn(B, 0, 61, lo, hi)
  {
    var j := 0;
    while j < 56
      invariant j % 8 == 0 && 0 <= j <= 56
      invariant Part(A, B, lo, hi, 0, j) && OnlyIn(B, 0, j, lo, hi)
    {
      CopyEight(A, B, lo, hi, j);
      j := j + 8;
    }
    CopyFive(A, B, lo, hi, 56);
  }

  method Transpose67By61(A: array2<int>, B: array2<int>)
    requires A != B && A.Length0 == B.Length1 == 67 && A.Length1 == B.Length0 == 61
    modifies B
    ensures Part(A, B, 0, 67, 0, 61)
  {
    var i := 0;
    while i < 64
      invariant i % 8 == 0 && 0 <= i <= 64
      invariant Part(A, B, 0, i, 0, 61)
    {
      CopyStrips(A, B, i, i + 8);
      i := i + 8;
    }
    CopyStrips(A, B, 64, 67);
  }

  /** One row of a block of transpose_32by32: the diagonal element comes last. */
  method CopyRow(A: array2<int>, B: array2<int>, il: nat, j: nat)
    requires A != B && il < A.Length0 && il < B.Length1 && il < B.Length0 && j + 8 <= A.Length1 && j + 8 <= B.Length0
    modifies B
    ensures Part(A, B, il, il + 1, j, 8) && OnlyIn(B, j, j + 8, il, il + 1)
  {
    var diag, diagIDX, diagFlag := 0, 0, false;
    for jl := j to j + 8
      invariant forall r :: j <= r < jl && r != il ==> B[r, il] == A[il, r]
      invariant diagFlag <==> j <= il < jl
      invariant diagFlag ==> diag == A[il, il] && diagIDX == il
      invariant OnlyIn(B, j, jl, il, il + 1)
    {
      if il == jl {
        diag, diagIDX, diagFlag := A[il, jl], il, true;
      } else {
        B[jl, il] := A[il, jl];
      }
    }
    if diagFlag {
      B[diagIDX, diagIDX] := diag;
    }
  }

  method Transpose32By32(A: array2<int>, B: array2<int>)
    requires A != B && A.Length0 == B.Length1 == 32 && A.Length1 == B.Length0 == 32
    modifies B
    ensures Part(A, B, 0, 32, 0, 32)
  {
    var i := 0;
    while i < 32
      invariant i % 8 == 0 && 0 <= i <= 32
      invariant Part(A, B, 0, i, 0, 32)
    {
      var j := 0;
      while j < 32
        invariant j % 8 == 0 && 0 <= j <= 32
        invariant Part(A, B, 0, i, 0, 32) && Part(A, B, i, i + 8, 0, j)
      {
        for il := i to i + 8
          invariant Part(A, B, 0, i, 0, 32) && Part(A, B, i, i + 8, 0, j)
          invariant Part(A, B, i, il, j, 8)
        {
          CopyRow(A, B, il, j);
        }
        j := j + 8;
      }
      i := i + 8;
    }
  }

  /** transpose_submit: B becomes the transpose for the three sizes it knows,
      and for no other size is anything done. */
  method TransposeSubmit(A: array2<int>, B: array2<int>)
    requires A != B && A.Length0 == B.Length1 && A.Length1 == B.Length0
    modifies B
    ensures if (A.Length1, A.Length0) in {(32, 32), (64, 64), (61, 67)} then Part(A, B, 0, A.Length0, 0, A.Length1)
            else OnlyIn(B, 0, 0, 0, 0)
  {
    var M, N := A.Length1, A.Length0;
    if M == 32 && N == 32 {
      Transpose32By32(A, B);
    } else if M == 64 && N == 64 {
      TransposeByBlocks(A, B, 64);
    } else if M == 61 && N == 67 {
      Transpose67By61(A, B);
    }
  }
}
