/** The cache-friendly matrix transposes: B becomes the transpose of A, although
    one of them parks half of its data in the wrong quadrant of B for a while. */
module Transpose {
  type Matrix = array2<int>

  /** A has n rows and m columns, B m rows and n columns, and they do not overlap. */
  ghost predicate Shapes(A: Matrix, B: Matrix, m: nat, n: nat) {
    A != B && A.Length0 == n && A.Length1 == m && B.Length0 == m && B.Length1 == n
  }

  ghost predicate IsTranspose(A: Matrix, B: Matrix, m: nat, n: nat)
    requires Shapes(A, B, m, n)
    reads A, B
  {
    forall r, c | 0 <= r < n && 0 <= c < m :: B[c, r] == A[r, c]
  }

  /** Rows r0..r1 and columns c0..c1 of A are transposed in B. */
  ghost predicate Done(A: Matrix, B: Matrix, m: nat, n: nat, r0: int, r1: int, c0: int, c1: int)
    requires Shapes(A, B, m, n)
    reads A, B
  {
    forall r, c | 0 <= r < n && 0 <= c < m && r0 <= r < r1 && c0 <= c < c1 :: B[c, r] == A[r, c]
  }

  /** Only B's cells for rows r0..r1 and columns c0..c1 of A have changed. */
  twostate predicate Within(B: Matrix, r0: int, r1: int, c0: int, c1: int)
    reads B
  {
    forall c, r | 0 <= c < B.Length0 && 0 <= r < B.Length1 && !(r0 <= r < r1 && c0 <= c < c1) :: B[c, r] == old(B[c, r])
  }

  // ----- the 8x8 block with a parked quadrant -----

  /** Upper half of A's block: its left quadrant goes where it belongs, its right
      quadrant is parked beside it. */
  method ParkUpperHalf(A: Matrix, B: Matrix, m: nat, n: nat, i: nat, j: nat)
    requires Shapes(A, B, m, n) && i + 8 <= n && j + 8 <= m
    modifies B
    ensures Within(B, i, i + 8, j, j + 4)
    ensures forall r, c | i <= r < i + 4 && j <= c < j + 4 :: B[c, r] == A[r, c]
    ensures forall r, c | i + 4 <= r < i + 8 && j <= c < j + 4 :: B[c, r] == A[r - 4, c + 4]
  {
    var k := i;
    while k < i + 4
      invariant i <= k <= i + 4 && Within(B, i, i + 8, j, j + 4)
      invariant forall r, c | i <= r < k && j <= c < j + 4 :: B[c, r] == A[r, c]
      invariant forall r, c | i + 4 <= r < k + 4 && j <= c < j + 4 :: B[c, r] == A[r - 4, c + 4]
    {
      var v1, v2, v3, v4 := A[k, j], A[k, j + 1], A[k, j + 2], A[k, j + 3];
      var v5, v6, v7, v8 := A[k, j + 4], A[k, j + 5], A[k, j + 6], A[k, j + 7];
      B[j, k], B[j, k + 4] := v1, v5;
      B[j + 1, k], B[j + 1, k + 4] := v2, v6;
      B[j + 2, k], B[j + 2, k + 4] := v3, v7;
      B[j + 3, k], B[j + 3, k + 4] := v4, v8;
      k := k + 1;
    }
  }

  /** Row by row, the parked data moves to where it belongs and the lower left
      quadrant of A takes its place. */
  method RepairQuadrants(A: Matrix, B: Matrix, m: nat, n: nat, i: nat, j: nat)
    requires Shapes(A, B, m, n) && i + 8 <= n && j + 8 <= m
    modifies B
    ensures forall c, r | 0 <= c < m && 0 <= r < n && !(i + 4 <= r < i + 8 && j <= c < j + 4)
            && !(i <= r < i + 4 && j + 4 <= c < j + 8) :: B[c, r] == old(B[c, r])
    ensures forall r, c | i + 4 <= r < i + 8 && j <= c < j + 4 :: B[c, r] == A[r, c]
    ensures forall r, c | i <= r < i + 4 && j + 4 <= c < j + 8 :: B[c, r] == old(B[c - 4, r + 4])
  {
    var k := j;
    while k < j + 4
      invariant j <= k <= j + 4
      invariant forall c, r | 0 <= c < m && 0 <= r < n && !(i + 4 <= r < i + 8 && j <= c < k)
                && !(i <= r < i + 4 && j + 4 <= c < k + 4) :: B[c, r] == old(B[c, r])
      invariant forall r, c | i + 4 <= r < i + 8 && j <= c < k :: B[c, r] == A[r, c]
      invariant forall r, c | i <= r < i + 4 && j + 4 <= c < k + 4 :: B[c, r] == old(B[c - 4, r + 4])
    {
      var v1, v2, v3, v4 := A[i + 4, k], A[i + 5, k], A[i + 6, k], A[i + 7, k];
      var v5, v6, v7, v8 := B[k, i + 4], B[k, i + 5], B[k, i + 6], B[k, i + 7];
      B[k, i + 4], B[k, i + 5], B[k, i + 6], B[k, i + 7] := v1, v2, v3, v4;
      B[k + 4, i], B[k + 4, i + 1], B[k + 4, i + 2], B[k + 4, i + 3] := v5, v6, v7, v8;
      k := k + 1;
    }
  }

  method CopyLastQuadrant(A: Matrix, B: Matrix, m: nat, n: nat, i: nat, j: nat)
    requires Shapes(A, B, m, n) && i + 8 <= n && j + 8 <= m
    modifies B
    ensures Within(B, i + 4, i + 8, j + 4, j + 8)
    ensures forall r, c | i + 4 <= r < i + 8 && j + 4 <= c < j + 8 :: B[c, r] == A[r, c]
  {
    var k := i + 4;
    while k < i + 8
      invariant i + 4 <= k <= i + 8 && Within(B, i + 4, i + 8, j + 4, j + 8)
      invariant forall r, c | i + 4 <= r < k && j + 4 <= c < j + 8 :: B[c, r] == A[r, c]
    {
      var v1, v2, v3, v4 := A[k, j + 4], A[k, j + 5], A[k, j + 6], A[k, j + 7];
      B[j + 4, k] := v1;
      B[j + 5, k] := v2;
      B[j + 6, k] := v3;
      B[j + 7, k] := v4;
      k := k + 1;
    }
  }

  method ParkedBlock(A: Matrix, B: Matrix, m: nat, n: nat, i: nat, j: nat)
    requires Shapes(A, B, m, n) && i + 8 <= n && j + 8 <= m
    modifies B
    ensures Within(B, i, i + 8, j, j + 8) && Done(A, B, m, n, i, i + 8, j, j + 8)
  {
    ParkUpperHalf(A, B, m, n, i, j);
    label parked:
    RepairQuadrants(A, B, m, n, i, j);
    assert forall r, c | i <= r < i + 4 && j + 4 <= c < j + 8 :: B[c, r] == old@parked(B[c - 4, r + 4]) == A[r, c];
    CopyLastQuadrant(A, B, m, n, i, j);
  }

  /** transpose_64, for any dimensions that are multiples of 8. */
  method Transpose64(A: Matrix, B: Matrix, m: nat, n: nat)
    requires Shapes(A, B, m, n) && m % 8 == 0 && n % 8 == 0
    modifies B
    ensures IsTranspose(A, B, m, n)
  {
    var i := 0;
    while i < n
      invariant 0 <= i <= n && i % 8 == 0 && Done(A, B, m, n, 0, i, 0, m)
    {
      var j := 0;
      while j < m
        invariant 0 <= j <= m && j % 8 == 0 && Done(A, B, m, n, 0, i, 0, m) && Done(A, B, m, n, i, i + 8, 0, j)
      {
        ParkedBlock(A, B, m, n, i, j);
        j := j + 8;
      }
      i := i + 8;
    }
  }

  // ----- the unrolled 8x8 block -----

  method UnrolledBlock(A: Matrix, B: Matrix, m: nat, n: nat, i: nat, j: nat)
    requires Shapes(A, B, m, n) && i + 8 <= n && j + 8 <= m
    modifies B
    ensures Within(B, i, i + 8, j, j + 8) && Done(A, B, m, n, i, i + 8, j, j + 8)
  {
    var k := i;
    while k < i + 8
      invariant i <= k <= i + 8 && Within(B, i, i + 8, j, j + 8) && Done(A, B, m, n, i, k, j, j + 8)
    {
      var v1, v2, v3, v4 := A[k, j], A[k, j + 1], A[k, j + 2], A[k, j + 3];
      var v5, v6, v7, v8 := A[k, j + 4], A[k, j + 5], A[k, j + 6], A[k, j + 7];
      B[j, k], B[j + 1, k], B[j + 2, k], B[j + 3, k] := v1, v2, v3, v4;
      B[j + 4, k], B[j + 5, k], B[j + 6, k], B[j + 7, k] := v5, v6, v7, v8;
      k := k + 1;
    }
  }

  method TransposeUnrolled(A: Matrix, B: Matrix, m: nat, n: nat)
    requires Shapes(A, B, m, n) && m % 8 == 0 && n % 8 == 0
    modifies B
    ensures IsTranspose(A, B, m, n)
  {
    var i := 0;
    while i < n
      invariant 0 <= i <= n && i % 8 == 0 && Done(A, B, m, n, 0, i, 0, m)
    {
      var j := 0;
      while j < m
        invariant 0 <= j <= m && j % 8 == 0 && Done(A, B, m, n, 0, i, 0, m) && Done(A, B, m, n, i, i + 8, 0, j)
      {
        UnrolledBlock(A, B, m, n, i, j);
        j := j + 8;
      }
      i := i + 8;
    }
  }

  // ----- blocks of 16 with ragged edges -----

  method RaggedBlock(A: Matrix, B: Matrix, m: nat, n: nat, i: nat, j: nat)
    requires Shapes(A, B, m, n) && i < n && j < m
    modifies B
    ensures Within(B, i, i + 16, j, j + 16) && Done(A, B, m, n, i, i + 16, j, j + 16)
  {
    var v1 := i;
    while v1 < i + 16 && v1 < n
      invariant i <= v1 <= i + 16 && v1 <= n && Within(B, i, i + 16, j, j + 16) && Done(A, B, m, n, i, v1, j, j + 16)
    {
      var v2 := j;
      while v2 < j + 16 && v2 < m
        invariant j <= v2 <= j + 16 && v2 <= m && Within(B, i, i + 16, j, j + 16)
        invariant Done(A, B, m, n, i, v1, j, j + 16) && Done(A, B, m, n, v1, v1 + 1, j, v2)
      {
        B[v2, v1] := A[v1, v2];
        v2 := v2 + 1;
      }
      v1 := v1 + 1;
    }
  }

  method TransposeRagged(A: Matrix, B: Matrix, m: nat, n: nat)
    requires Shapes(A, B, m, n)
    modifies B
    ensures IsTranspose(A, B, m, n)
  {
    var i := 0;
    while i < n
      invariant 0 <= i && Done(A, B, m, n, 0, i, 0, m)
    {
      var j := 0;
      while j < m
        invariant 0 <= j && Done(A, B, m, n, 0, i, 0, m) && Done(A, B, m, n, i, i + 16, 0, j)
      {
        RaggedBlock(A, B, m, n, i, j);
        j := j + 16;
      }
      i := i + 16;
    }
  }

  /** The submission: a special loop for each of two sizes, the ragged one otherwise. */
  method Submit(A: Matrix, B: Matrix, m: nat, n: nat)
    requires Shapes(A, B, m, n)
    modifies B
    ensures IsTranspose(A, B, m, n)
  {
    if m == 32 && n == 32 {
      TransposeUnrolled(A, B, m, n);
    } else if m == 64 && n == 64 {
      Transpose64(A, B, m, n);
    } else {
      TransposeRagged(A, B, m, n);
    }
  }

  // ----- delayed diagonal -----

  /** One row of an 8x8 block; on the diagonal the diagonal element comes last. */
  method DelayedRow(A: Matrix, B: Matrix, m: nat, n: nat, i: nat, j: nat, i1: nat)
    requires Shapes(A, B, m, n) && i + 8 <= n && j + 8 <= m && i <= i1 < i + 8
    modifies B
    ensures Within(B, i1, i1 + 1, j, j + 8) && Done(A, B, m, n, i1, i1 + 1, j, j + 8)
  {
    var tmp := 0;
    var j1 := j;
    while j1 < j + 8
      invariant j <= j1 <= j + 8 && Within(B, i1, i1 + 1, j, j + 8)
      invariant forall c | j <= c < j1 && !(i == j && c == i1) :: B[c, i1] == A[i1, c]
      invariant i == j && i1 < j1 ==> tmp == A[i1, i1]
    {
      if j == i && j1 == i1 {
        tmp := A[j1, j1];
      } else {
        B[j1, i1] := A[i1, j1];
      }
      j1 := j1 + 1;
    }
    if i == j {
      B[i1, i1] := tmp;
    }
  }

  /** transpose_32, for any dimensions that are multiples of 8. */
  method Transpose32(A: Matrix, B: Matrix, m: nat, n: nat)
    requires Shapes(A, B, m, n) && m % 8 == 0 && n % 8 == 0
    modifies B
    ensures IsTranspose(A, B, m, n)
  {
    var i := 0;
    while i < n
      invariant 0 <= i <= n && i % 8 == 0 && Done(A, B, m, n, 0, i, 0, m)
    {
      var j := 0;
      while j < m
        invariant 0 <= j <= m && j % 8 == 0 && Done(A, B, m, n, 0, i, 0, m) && Done(A, B, m, n, i, i + 8, 0, j)
      {
        var i1 := i;
        while i1 < i + 8
          invariant i <= i1 <= i + 8 && Done(A, B, m, n, 0, i, 0, m) && Done(A, B, m, n, i, i + 8, 0, j)
                    && Done(A, B, m, n, i, i1, j, j + 8)
        {
          DelayedRow(A, B, m, n, i, j, i1);
          i1 := i1 + 1;
        }
        j := j + 8;
      }
      i := i + 8;
    }
  }
}
