/** matrix_multiply-seq.c and matrix_multiply.c: the blocked product and the row-by-row product of two
    square matrices are the same, for every size. */
module BlockedMultiply {

  const BLOCK_LEN: nat := 100

  /** Three different square matrices of one size. */
  predicate Square(A: array2<int>, B: array2<int>, out: array2<int>, n: nat) {
    && A.Length0 == A.Length1 == B.Length0 == B.Length1 == out.Length0 == out.Length1 == n
    && A != out && B != out
  }

  /** A[x, lo] * B[lo, y] + ... + A[x, hi - 1] * B[hi - 1, y] */
  ghost function Dot(A: array2<int>, B: array2<int>, x: nat, y: nat, lo: nat, hi: nat): int
    requires x < A.Length0 && y < B.Length1 && lo <= hi <= A.Length1 && hi <= B.Length0
    reads A, B
    decreases hi
  {
    if lo == hi then 0 else Dot(A, B, x, y, lo, hi - 1) + A[x, hi - 1] * B[hi - 1, y]
  }

  lemma {:induction false} DotSplit(A: array2<int>, B: array2<int>, x: nat, y: nat, lo: nat, mid: nat, hi: nat)
    requires x < A.Length0 && y < B.Length1 && lo <= mid <= hi <= A.Length1 && hi <= B.Length0
    ensures Dot(A, B, x, y, lo, hi) == Dot(A, B, x, y, lo, mid) + Dot(A, B, x, y, mid, hi)
    decreases hi
  {
    if mid < hi {
      DotSplit(A, B, x, y, lo, mid, hi - 1);
    }
  }

  // ---------- the laws of the matrix product ----------

  /** E is the matrix with a 1 at (p, q) and zeros elsewhere. */
  predicate IsUnit(E: array2<int>, p: nat, q: nat)
    reads E
  {
    forall x, y :: 0 <= x < E.Length0 && 0 <= y < E.Length1 ==> E[x, y] == if x == p && y == q then 1 else 0
  }

  predicate IsIdentity(I: array2<int>)
    reads I
  {
    forall x, y :: 0 <= x < I.Length0 && 0 <= y < I.Length1 ==> I[x, y] == if x == y then 1 else 0
  }

  /** A unit matrix on the left moves row q of B to row p. */
  lemma {:induction false} UnitTimes(E: array2<int>, B: array2<int>, p: nat, q: nat, x: nat, y: nat, hi: nat)
    requires IsUnit(E, p, q) && x < E.Length0 && y < B.Length1 && hi <= E.Length1 && hi <= B.Length0
    ensures Dot(E, B, x, y, 0, hi) == if x == p && q < hi then B[q, y] else 0
  {
    if hi > 0 {
      UnitTimes(E, B, p, q, x, y, hi - 1);
    }
  }

  /** A unit matrix on the right moves column p of A to column q. */
  lemma {:induction false} TimesUnit(A: array2<int>, E: array2<int>, p: nat, q: nat, x: nat, y: nat, hi: nat)
    requires IsUnit(E, p, q) && x < A.Length0 && y < E.Length1 && hi <= A.Length1 && hi <= E.Length0
    ensures Dot(A, E, x, y, 0, hi) == if y == q && p < hi then A[x, p] else 0
  {
    if hi > 0 {
      TimesUnit(A, E, p, q, x, y, hi - 1);
    }
  }

  /** Products of unit matrices: e_pq e_rs is e_ps if q == r, and zero otherwise. */
  lemma {:induction false} UnitTimesUnit(E: array2<int>, F: array2<int>, p: nat, q: nat, r: nat, s: nat, x: nat, y: nat)
    requires IsUnit(E, p, q) && IsUnit(F, r, s) && E.Length1 == F.Length0 && q < E.Length1 && r < F.Length0
    requires x < E.Length0 && y < F.Length1
    ensures Dot(E, F, x, y, 0, E.Length1) == if q == r && x == p && y == s then 1 else 0
  {
    UnitTimes(E, F, p, q, x, y, E.Length1);
  }

  /** The identity on the left. */
  lemma {:induction false} IdentityTimes(I: array2<int>, B: array2<int>, x: nat, y: nat, hi: nat)
    requires IsIdentity(I) && x < I.Length0 && y < B.Length1 && hi <= I.Length1 && hi <= B.Length0
    ensures Dot(I, B, x, y, 0, hi) == if x < hi then B[x, y] else 0
  {
    if hi > 0 {
      IdentityTimes(I, B, x, y, hi - 1);
    }
  }

  /** The identity on the right. */
  lemma {:induction false} TimesIdentity(A: array2<int>, I: array2<int>, x: nat, y: nat, hi: nat)
    requires IsIdentity(I) && x < A.Length0 && y < I.Length1 && hi <= A.Length1 && hi <= I.Length0
    ensures Dot(A, I, x, y, 0, hi) == if y < hi then A[x, y] else 0
  {
    if hi > 0 {
      TimesIdentity(A, I, x, y, hi - 1);
    }
  }

  lemma {:induction false} Distribute(c: int, a: int, b: int, d: int)
    ensures (c * a + b) * d == c * (a * d) + b * d
    ensures d * (c * a + b) == c * (d * a) + d * b
  {
  }

  lemma {:induction false} Gather(c: int, s: int, t: int, a: int, b: int)
    ensures (c * s + t) + (c * a + b) == c * (s + a) + (t + b)
  {
  }

  /** The product is linear in its first matrix: if row x of M is c times that of A plus that of B. */
  lemma {:induction false} LinearInFirst(A: array2<int>, B: array2<int>, M: array2<int>, C: array2<int>, c: int,
                                         x: nat, y: nat, hi: nat)
    requires x < A.Length0 && x < B.Length0 && x < M.Length0 && y < C.Length1
    requires hi <= A.Length1 && hi <= B.Length1 && hi <= M.Length1 && hi <= C.Length0
    requires forall k :: 0 <= k < hi ==> M[x, k] == c * A[x, k] + B[x, k]
    ensures Dot(M, C, x, y, 0, hi) == c * Dot(A, C, x, y, 0, hi) + Dot(B, C, x, y, 0, hi)
  {
    if hi > 0 {
      var k := hi - 1;
      LinearInFirst(A, B, M, C, c, x, y, k);
      Distribute(c, A[x, k], B[x, k], C[k, y]);
      Gather(c, Dot(A, C, x, y, 0, k), Dot(B, C, x, y, 0, k), A[x, k] * C[k, y], B[x, k] * C[k, y]);
    }
  }

  /** And in its second: if column y of M is c times that of B plus that of C. */
  lemma {:induction false} LinearInSecond(A: array2<int>, B: array2<int>, C: array2<int>, M: array2<int>, c: int,
                                          x: nat, y: nat, hi: nat)
    requires x < A.Length0 && y < B.Length1 && y < C.Length1 && y < M.Length1
    requires hi <= A.Length1 && hi <= B.Length0 && hi <= C.Length0 && hi <= M.Length0
    requires forall k :: 0 <= k < hi ==> M[k, y] == c * B[k, y] + C[k, y]
    ensures Dot(A, M, x, y, 0, hi) == c * Dot(A, B, x, y, 0, hi) + Dot(A, C, x, y, 0, hi)
  {
    if hi > 0 {
      var k := hi - 1;
      LinearInSecond(A, B, C, M, c, x, y, k);
      Distribute(c, B[k, y], C[k, y], A[x, k]);
      Gather(c, Dot(A, B, x, y, 0, k), Dot(A, C, x, y, 0, k), A[x, k] * B[k, y], A[x, k] * C[k, y]);
    }
  }

  /** A[x, 0] * v[0] + ... + A[x, |v| - 1] * v[|v| - 1] */
  ghost function Weighted(A: array2<int>, x: nat, v: seq<int>): int
    requires x < A.Length0 && |v| <= A.Length1
    reads A
  {
    if v == [] then 0 else Weighted(A, x, v[..|v| - 1]) + A[x, |v| - 1] * v[|v| - 1]
  }

  lemma {:induction false} WeightedAdds(A: array2<int>, x: nat, u: seq<int>, v: seq<int>, c: int, w: seq<int>)
    requires x < A.Length0 && |u| == |v| == |w| <= A.Length1
    requires forall j :: 0 <= j < |u| ==> w[j] == c * v[j] + u[j]
    ensures Weighted(A, x, w) == c * Weighted(A, x, v) + Weighted(A, x, u)
  {
    if u != [] {
      var n := |u| - 1;
      WeightedAdds(A, x, u[..n], v[..n], c, w[..n]);
      Distribute(c, v[n], u[n], A[x, n]);
      Gather(c, Weighted(A, x, v[..n]), Weighted(A, x, u[..n]), A[x, n] * v[n], A[x, n] * u[n]);
    }
  }

  lemma {:induction false} WeightedColumn(A: array2<int>, B: array2<int>, x: nat, y: nat, v: seq<int>)
    requires x < A.Length0 && y < B.Length1 && |v| <= A.Length1 && |v| <= B.Length0
    requires forall j :: 0 <= j < |v| ==> v[j] == B[j, y]
    ensures Weighted(A, x, v) == Dot(A, B, x, y, 0, |v|)
  {
    if v != [] {
      WeightedColumn(A, B, x, y, v[..|v| - 1]);
    }
  }

  lemma {:induction false} WeightedZeros(A: array2<int>, x: nat, v: seq<int>)
    requires x < A.Length0 && |v| <= A.Length1 && forall j :: 0 <= j < |v| ==> v[j] == 0
    ensures Weighted(A, x, v) == 0
  {
    if v != [] {
      WeightedZeros(A, x, v[..|v| - 1]);
    }
  }

  /** Row by row of B, the first m terms of B C. */
  ghost function Column(B: array2<int>, C: array2<int>, y: nat, m: nat): (v: seq<int>)
    requires y < C.Length1 && m <= B.Length1 && m <= C.Length0
    reads B, C
    ensures |v| == B.Length0 && forall j :: 0 <= j < |v| ==> v[j] == Dot(B, C, j, y, 0, m)
  {
    seq(B.Length0, j requires 0 <= j < B.Length0 reads B, C => Dot(B, C, j, y, 0, m))
  }

  /** Exchanging the two sums of (A B) C. */
  lemma {:induction false} ExchangeSums(A: array2<int>, B: array2<int>, C: array2<int>, AB: array2<int>, x: nat,
                                        y: nat, m: nat)
    requires A.Length1 == B.Length0 && x < A.Length0 == AB.Length0 && y < C.Length1
    requires m <= B.Length1 == AB.Length1 && m <= C.Length0
    requires forall k :: 0 <= k < AB.Length1 ==> AB[x, k] == Dot(A, B, x, k, 0, A.Length1)
    ensures Dot(AB, C, x, y, 0, m) == Weighted(A, x, Column(B, C, y, m))
  {
    if m == 0 {
      WeightedZeros(A, x, Column(B, C, y, 0));
    } else {
      var k := m - 1;
      ExchangeSums(A, B, C, AB, x, y, k);
      var b := seq(B.Length0, j requires 0 <= j < B.Length0 reads B => B[j, k]);
      WeightedColumn(A, B, x, k, b);
      forall j | 0 <= j < B.Length0
        ensures Column(B, C, y, m)[j] == C[k, y] * b[j] + Column(B, C, y, k)[j]
      {
        assert B[j, k] * C[k, y] == C[k, y] * b[j];
      }
      WeightedAdds(A, x, Column(B, C, y, k), b, C[k, y], Column(B, C, y, m));
      assert AB[x, k] * C[k, y] == C[k, y] * Weighted(A, x, b);
    }
  }

  /** (A B) C = A (B C) */
  lemma {:induction false} ProductIsAssociative(A: array2<int>, B: array2<int>, C: array2<int>, AB: array2<int>,
                                                BC: array2<int>,
                                                n: nat, x: nat, y: nat)
    requires A.Length0 == A.Length1 == B.Length0 == B.Length1 == C.Length0 == C.Length1 == n && x < n && y < n
    requires AB.Length0 == AB.Length1 == BC.Length0 == BC.Length1 == n
    requires forall i, j :: 0 <= i < n && 0 <= j < n ==>
             AB[i, j] == Dot(A, B, i, j, 0, n) && BC[i, j] == Dot(B, C, i, j, 0, n)
    ensures Dot(AB, C, x, y, 0, n) == Dot(A, BC, x, y, 0, n)
  {
    ExchangeSums(A, B, C, AB, x, y, n);
    WeightedColumn(A, BC, x, y, Column(B, C, y, n));
  }

  // ---------- the blocked program ----------

  function Min(a: nat, b: nat): nat {
    if a < b then a else b
  }

  /** The loop over c. */
  method AddCell(A: array2<int>, B: array2<int>, out: array2<int>, n: nat, a: nat, b: nat, k: nat)
    requires Square(A, B, out, n) && a < n && b < n && k < n
    modifies out
    ensures out[a, b] == old(out[a, b]) + Dot(A, B, a, b, k, Min(k + BLOCK_LEN, n))
    ensures forall x, y :: 0 <= x < n && 0 <= y < n && (x != a || y != b) ==> out[x, y] == old(out[x, y])
  {
    var endK := k + BLOCK_LEN;
    var c := k;
    while c < endK && c < n
      invariant k <= c <= Min(endK, n)
      invariant out[a, b] == old(out[a, b]) + Dot(A, B, a, b, k, c)
      invariant forall x, y :: 0 <= x < n && 0 <= y < n && (x != a || y != b) ==> out[x, y] == old(out[x, y])
    {
      out[a, b] := out[a, b] + A[a, c] * B[c, b];
      c := c + 1;
    }
  }

  /** The loop over b. */
  method AddRow(A: array2<int>, B: array2<int>, out: array2<int>, n: nat, a: nat, j: nat, k: nat)
    requires Square(A, B, out, n) && a < n && j < n && k < n
    modifies out
    ensures forall x, y :: 0 <= x < n && 0 <= y < n ==>
              out[x, y] == old(out[x, y])
                 + if x == a && j <= y < j + BLOCK_LEN then Dot(A, B, x, y, k, Min(k + BLOCK_LEN, n)) else 0
  {
    var endJ := j + BLOCK_LEN;
    var b := j;
    while b < endJ && b < n
      invariant j <= b <= Min(endJ, n)
      invariant forall x, y :: 0 <= x < n && 0 <= y < n ==>
                  out[x, y] == old(out[x, y])
                     + if x == a && j <= y < b then Dot(A, B, x, y, k, Min(k + BLOCK_LEN, n)) else 0
    {
      AddCell(A, B, out, n, a, b, k);
      b := b + 1;
    }
  }

  /** The loop over a: one block of the output gets the products of one block of the inputs. */
  method AddBlock(A: array2<int>, B: array2<int>, out: array2<int>, n: nat, i: nat, j: nat, k: nat)
    requires Square(A, B, out, n) && i < n && j < n && k < n
    modifies out
    ensures forall x, y :: 0 <= x < n && 0 <= y < n ==>
              out[x, y] == old(out[x, y])
                + if i <= x < i + BLOCK_LEN && j <= y < j + BLOCK_LEN
                   then Dot(A, B, x, y, k, Min(k + BLOCK_LEN, n)) else 0
  {
    var endI := i + BLOCK_LEN;
    var a := i;
    while a < endI && a < n
      invariant i <= a <= Min(endI, n)
      invariant forall x, y :: 0 <= x < n && 0 <= y < n ==>
                  out[x, y] == old(out[x, y])
                    + if i <= x < a && j <= y < j + BLOCK_LEN then Dot(A, B, x, y, k, Min(k + BLOCK_LEN, n)) else 0
    {
      AddRow(A, B, out, n, a, j, k);
      a := a + 1;
    }
  }

  /** The loop over k: one block of the output gets its whole product. */
  method FillBlock(A: array2<int>, B: array2<int>, out: array2<int>, n: nat, i: nat, j: nat)
    requires Square(A, B, out, n) && i < n && j < n
    modifies out
    ensures forall x, y :: 0 <= x < n && 0 <= y < n ==>
              out[x, y] == old(out[x, y])
                + if i <= x < i + BLOCK_LEN && j <= y < j + BLOCK_LEN then Dot(A, B, x, y, 0, n) else 0
  {
    var k := 0;
    while k < n
      invariant 0 <= k
      invariant forall x, y :: 0 <= x < n && 0 <= y < n ==>
                  out[x, y] == old(out[x, y])
                    + if i <= x < i + BLOCK_LEN && j <= y < j + BLOCK_LEN then Dot(A, B, x, y, 0, Min(k, n)) else 0
    {
      forall x, y | 0 <= x < n && 0 <= y < n
        ensures Dot(A, B, x, y, 0, Min(k + BLOCK_LEN, n))
                == Dot(A, B, x, y, 0, k) + Dot(A, B, x, y, k, Min(k + BLOCK_LEN, n))
      {
        DotSplit(A, B, x, y, 0, k, Min(k + BLOCK_LEN, n));
      }
      AddBlock(A, B, out, n, i, j, k);
      k := k + BLOCK_LEN;
    }
  }

  /** matrix_mult: the loops over i and j. From an output of zeros, every element becomes the product of its
      row and column, also in the last blocks when the size is no multiple of BLOCK_LEN. */
  method MatrixMult(A: array2<int>, B: array2<int>, out: array2<int>, n: nat)
    requires Square(A, B, out, n) && forall x, y :: 0 <= x < n && 0 <= y < n ==> out[x, y] == 0
    modifies out
    ensures forall x, y :: 0 <= x < n && 0 <= y < n ==> out[x, y] == Dot(A, B, x, y, 0, n)
  {
    var i := 0;
    while i < n
      invariant 0 <= i
      invariant forall x, y :: 0 <= x < n && 0 <= y < n ==> out[x, y] == if x < i then Dot(A, B, x, y, 0, n) else 0
    {
      var j := 0;
      while j < n
        invariant 0 <= j
        invariant forall x, y :: 0 <= x < n && 0 <= y < n ==>
                    out[x, y] == if x < i || (x < i + BLOCK_LEN && y < j) then Dot(A, B, x, y, 0, n) else 0
      {
        FillBlock(A, B, out, n, i, j);
        j := j + BLOCK_LEN;
      }
      i := i + BLOCK_LEN;
    }
  }

  /** matrixmult_map: the plain product, for the rows of one map task. */
  method MatrixmultMap(A: array2<int>, B: array2<int>, out: array2<int>, n: nat, rowNum: nat, length: nat)
    requires Square(A, B, out, n) && rowNum + length <= n
    modifies out
    ensures forall x, y :: 0 <= x < n && 0 <= y < n ==>
              out[x, y] == if rowNum <= x < rowNum + length then Dot(A, B, x, y, 0, n) else old(out[x, y])
  {
    for rowCount := 0 to length
      invariant forall x, y :: 0 <= x < n && 0 <= y < n ==>
                  out[x, y] == if rowNum <= x < rowNum + rowCount then Dot(A, B, x, y, 0, n) else old(out[x, y])
    {
      MapRow(A, B, out, n, rowNum + rowCount);
    }
  }

  method MapRow(A: array2<int>, B: array2<int>, out: array2<int>, n: nat, row: nat)
    requires Square(A, B, out, n) && row < n
    modifies out
    ensures forall x, y :: 0 <= x < n && 0 <= y < n ==>
            out[x, y] == if x == row then Dot(A, B, x, y, 0, n) else old(out[x, y])
  {
    for i := 0 to n
      invariant forall x, y :: 0 <= x < n && 0 <= y < n ==>
                  out[x, y] == if x == row && y < i then Dot(A, B, x, y, 0, n) else old(out[x, y])
    {
      var value := 0;
      for j := 0 to n
        invariant value == Dot(A, B, row, i, 0, j)
      {
        value := value + A[row, j] * B[j, i];
      }
      out[row, i] := value;
    }
  }

  class RowSplitter {
    const matrixLen: nat
    var rowNum: nat

    constructor (matrixLen: nat)
      ensures this.matrixLen == matrixLen && rowNum == 0
    {
      this.matrixLen, rowNum := matrixLen, 0;
    }

    /** matrixmult_splitter: the next rows, as many as asked for or as are left. */
    method Split(reqUnits: nat) returns (more: bool, start: nat, length: nat)
      requires rowNum <= matrixLen
      modifies this
      ensures more == (old(rowNum) < matrixLen) && start == old(rowNum) && rowNum == start + length <= matrixLen
      ensures !more ==> length == 0
      ensures more ==> length <= reqUnits && (length == reqUnits || rowNum == matrixLen)
    {
      start, length := rowNum, 0;
      more := rowNum < matrixLen;
      if more {
        var availableRows := matrixLen - rowNum;
        length := if reqUnits < availableRows then reqUnits else availableRows;
        rowNum := rowNum + length;
      }
    }
  }

  /** The parallel program in one thread after the other: the splitter's row sets cover the matrix, and
      what the map tasks write is what the blocked program computes. */
  method MultiplyByRows(A: array2<int>, B: array2<int>, out: array2<int>, n: nat, reqUnits: nat)
    requires Square(A, B, out, n) && reqUnits > 0
    modifies out
    ensures forall x, y :: 0 <= x < n && 0 <= y < n ==> out[x, y] == Dot(A, B, x, y, 0, n)
  {
    var splitter := new RowSplitter(n);
    var more, start, length := splitter.Split(reqUnits);
    while more
      invariant start + length == splitter.rowNum <= n == splitter.matrixLen
      invariant if more then 0 < length && start < n else start == n
      invariant forall x, y :: 0 <= x < start && 0 <= y < n ==> out[x, y] == Dot(A, B, x, y, 0, n)
      decreases n - start
    {
      MatrixmultMap(A, B, out, n, start, length);
      more, start, length := splitter.Split(reqUnits);
    }
  }
}
