/** gemm.c: the same kernels as gemm_time.c, with the matrix size n a signed
    int and the transpose of B written inline in each transposed kernel. For
    n <= 0 every loop is skipped. Elements are exact integers and the OpenMP
    pragmas are read as sequential loops. */
module Gemm {
  import opened Dense

  /** The inline transpose loop of pro_gemm, pro_gemm_parallel_simd and
      pro_gemm_parallel: Bt[IDX(i, j, n)] = B[IDX(j, i, n)]. */
  method TransposeInto(Bt: array<Elem>, B: array<Elem>, n: int)
    requires n > 0 ==> Bt.Length == n * n && B.Length == n * n && n * n <= I32_RANGE
    requires Bt != B
    modifies Bt
    ensures n > 0 ==> Bt[..] == Transpose(B[..], n)
    ensures n <= 0 ==> Bt[..] == old(Bt[..])
  {
    ghost var m: nat := if n > 0 then n else 0;
    ghost var t := if n > 0 then Transpose(B[..], n) else Bt[..];
    AllRows(m);
    var i := 0;
    while i < n
      invariant 0 <= i <= m && RowStart(i, m) <= m * m
      invariant forall p :: 0 <= p < RowStart(i, m) ==> Bt[p] == t[p]
      invariant i == 0 ==> unchanged(Bt)
    {
      RowStartMonotone(i, m, m);
      var j := 0;
      while j < n
        invariant 0 <= j <= m
        invariant forall p :: 0 <= p < RowStart(i, m) + j ==> Bt[p] == t[p]
      {
        TransposeAt(B[..], n, i, j);
        Bt[Idx(i, j, n)] := B[Idx(j, i, n)];
        j := j + 1;
      }
      i := i + 1;
    }
    if n > 0 {
      MatrixExt(Bt[..], t, n);
    }
  }

  /** naive_gemm: C := alpha * A * B + beta * C, walking B column-wise; C is
      left as it was when n <= 0. */
  method NaiveGemm(C: array<Elem>, A: array<Elem>, B: array<Elem>, alpha: Elem, beta: Elem, n: int)
    requires n > 0 ==> C.Length == n * n && A.Length == n * n && B.Length == n * n && n * n <= I32_RANGE
    requires C != A && C != B
    modifies C
    ensures n > 0 ==> C[..] == GemmSpec(old(C[..]), A[..], B[..], alpha, beta, n)
    ensures n <= 0 ==> C[..] == old(C[..])
  {
    ghost var c0 := C[..];
    ghost var g := if n > 0 then GemmSpec(c0, A[..], B[..], alpha, beta, n) else c0;
    var i := 0;
    while i < n
      invariant 0 <= i && (i <= n || i == 0)
      invariant n > 0 ==> RowsDone(C[..], c0, g, n, i)
      invariant i == 0 ==> unchanged(C)
    {
      ghost var before := C[..];
      NaiveRow(C, A, B, alpha, beta, n, i);
      RowStep(c0, A[..], B[..], alpha, beta, n, i, g, before, C[..]);
      i := i + 1;
    }
    if n > 0 {
      AllRowsDone(C[..], c0, g, n);
    }
  }

  /** pro_gemm: transposes B into a private buffer of n*n elements, then takes
      contiguous dot products. Same result as NaiveGemm. */
  method ProGemm(C: array<Elem>, A: array<Elem>, B: array<Elem>, alpha: Elem, beta: Elem, n: int)
    requires n > 0 ==> C.Length == n * n && A.Length == n * n && B.Length == n * n && n * n <= I32_RANGE
    requires C != A && C != B
    modifies C
    ensures n > 0 ==> C[..] == GemmSpec(old(C[..]), A[..], B[..], alpha, beta, n)
    ensures n <= 0 ==> C[..] == old(C[..])
  {
    var Bt := new Elem[n * n];
    TransposeInto(Bt, B, n);
    ghost var c0 := C[..];
    ghost var g := if n > 0 then GemmSpec(c0, A[..], B[..], alpha, beta, n) else c0;
    var i := 0;
    while i < n
      invariant 0 <= i && (i <= n || i == 0)
      invariant n > 0 ==> RowsDone(C[..], c0, g, n, i)
      modifies C
      invariant i == 0 ==> unchanged(C)
    {
      ghost var before := C[..];
      TransposedRow(C, A, Bt, alpha, beta, n, i, Scalar, B[..]);
      RowStep(c0, A[..], B[..], alpha, beta, n, i, g, before, C[..]);
      i := i + 1;
    }
    if n > 0 {
      AllRowsDone(C[..], c0, g, n);
    }
  }

  /** pro_gemm_parallel_simd: pro_gemm with `omp parallel for` on the i-loop,
      run here in sequence, and the k-loop reduced in `lanes` SIMD lanes. */
  method ProGemmParallelSimd(C: array<Elem>, A: array<Elem>, B: array<Elem>, alpha: Elem, beta: Elem, n: int, lanes: nat)
    requires n > 0 ==> C.Length == n * n && A.Length == n * n && B.Length == n * n && n * n <= I32_RANGE
    requires C != A && C != B
    requires lanes > 0
    modifies C
    ensures n > 0 ==> C[..] == GemmSpec(old(C[..]), A[..], B[..], alpha, beta, n)
    ensures n <= 0 ==> C[..] == old(C[..])
  {
    var Bt := new Elem[n * n];
    TransposeInto(Bt, B, n);
    ghost var c0 := C[..];
    ghost var g := if n > 0 then GemmSpec(c0, A[..], B[..], alpha, beta, n) else c0;
    var i := 0;
    while i < n
      invariant 0 <= i && (i <= n || i == 0)
      invariant n > 0 ==> RowsDone(C[..], c0, g, n, i)
      modifies C
      invariant i == 0 ==> unchanged(C)
    {
      ghost var before := C[..];
      TransposedRow(C, A, Bt, alpha, beta, n, i, Simd(lanes), B[..]);
      RowStep(c0, A[..], B[..], alpha, beta, n, i, g, before, C[..]);
      i := i + 1;
    }
    if n > 0 {
      AllRowsDone(C[..], c0, g, n);
    }
  }

  /** pro_gemm_parallel: pro_gemm with `omp parallel for` on the i-loop, run
      here in sequence. */
  method ProGemmParallel(C: array<Elem>, A: array<Elem>, B: array<Elem>, alpha: Elem, beta: Elem, n: int)
    requires n > 0 ==> C.Length == n * n && A.Length == n * n && B.Length == n * n && n * n <= I32_RANGE
    requires C != A && C != B
    modifies C
    ensures n > 0 ==> C[..] == GemmSpec(old(C[..]), A[..], B[..], alpha, beta, n)
    ensures n <= 0 ==> C[..] == old(C[..])
  {
    var Bt := new Elem[n * n];
    TransposeInto(Bt, B, n);
    ghost var c0 := C[..];
    ghost var g := if n > 0 then GemmSpec(c0, A[..], B[..], alpha, beta, n) else c0;
    var i := 0;
    while i < n
      invariant 0 <= i && (i <= n || i == 0)
      invariant n > 0 ==> RowsDone(C[..], c0, g, n, i)
      modifies C
      invariant i == 0 ==> unchanged(C)
    {
      ghost var before := C[..];
      TransposedRow(C, A, Bt, alpha, beta, n, i, Scalar, B[..]);
      RowStep(c0, A[..], B[..], alpha, beta, n, i, g, before, C[..]);
      i := i + 1;
    }
    if n > 0 {
      AllRowsDone(C[..], c0, g, n);
    }
  }

  /** main after parsing n: allocates A, B and C of n*n elements (the size is
      an int product), fills them with ones, runs pro_gemm_parallel_simd with
      alpha = beta = 1 and yields C. For n >= 0 every entry is n + 1; for
      negative n nothing is written and C holds whatever the allocation held. */
  method RunMain(n: int, lanes: nat) returns (result: seq<Elem>)
    requires n * n < I32_RANGE
    requires lanes > 0
    ensures |result| == n * n
    ensures n >= 0 ==> result == Filled(n * n, n + 1)
  {
    var A := new Elem[n * n];
    var B := new Elem[n * n];
    var C := new Elem[n * n];
    FillOnes(A, B, C, n);
    ProGemmParallelSimd(C, A, B, 1, 1, n, lanes);
    if n > 0 {
      GemmOfOnes(1, 1, n);
    }
    result := C[..];
  }
}
