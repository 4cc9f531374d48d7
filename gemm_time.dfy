/** gemm_time.c: the transpose, the four kernels and the benchmark harness,
    with the matrix size n an unsigned 32-bit integer. Elements are exact integers
    and the OpenMP pragmas are read as sequential loops. */
module GemmTime {
  import opened Dense

  /** The kernels passed to the harness through a function pointer; the SIMD
      kernel carries the vector width the compiler picks for its reduction. */
  datatype Kernel = Naive | Pro | ProParallel | ProParallelSimd(lanes: nat)

  /** tranpose: a freshly allocated buffer holding M transposed. M is only read. */
  method Tranpose(M: array<Elem>, n: nat) returns (Mt: array<Elem>)
    requires M.Length == n * n
    requires n * n <= U32_RANGE
    ensures fresh(Mt)
    ensures Mt[..] == Transpose(M[..], n)
  {
    Mt := new Elem[n * n];
    ghost var t := Transpose(M[..], n);
    var i := 0;
    while i < n
      invariant i <= n && RowStart(i, n) <= n * n
      invariant Mt[..RowStart(i, n)] == t[..RowStart(i, n)]
    {
      RowStartMonotone(i, n, n);
      var j := 0;
      while j < n
        invariant j <= n
        invariant Mt[..RowStart(i, n) + j] == t[..RowStart(i, n) + j]
      {
        TransposeAt(M[..], n, i, j);
        Mt[Idx(i, j, n)] := M[Idx(j, i, n)];
        j := j + 1;
      }
      i := i + 1;
    }
    assert Mt[..] == Mt[..n * n];
  }

  /** naive_gemm: C := alpha * A * B + beta * C, walking B column-wise. Rows
      are produced in order; a row not yet reached keeps its old values, and A
      and B are only read. */
  method NaiveGemm(C: array<Elem>, A: array<Elem>, B: array<Elem>, alpha: Elem, beta: Elem, n: nat)
    requires C.Length == n * n && A.Length == n * n && B.Length == n * n
    requires n * n <= U32_RANGE
    requires C != A && C != B
    modifies C
    ensures C[..] == GemmSpec(old(C[..]), A[..], B[..], alpha, beta, n)
  {
    ghost var c0 := C[..];
    ghost var g := GemmSpec(c0, A[..], B[..], alpha, beta, n);
    var i := 0;
    while i < n
      invariant i <= n && RowsDone(C[..], c0, g, n, i)
    {
      ghost var before := C[..];
      NaiveRow(C, A, B, alpha, beta, n, i);
      RowStep(c0, A[..], B[..], alpha, beta, n, i, g, before, C[..]);
      i := i + 1;
    }
    AllRowsDone(C[..], c0, g, n);
  }

  /** pro_gemm: transposes B, then takes contiguous dot products of rows of A
      with rows of Bt. It computes the same C as NaiveGemm. */
  method ProGemm(C: array<Elem>, A: array<Elem>, B: array<Elem>, alpha: Elem, beta: Elem, n: nat)
    requires C.Length == n * n && A.Length == n * n && B.Length == n * n
    requires n * n <= U32_RANGE
    requires C != A && C != B
    modifies C
    ensures C[..] == GemmSpec(old(C[..]), A[..], B[..], alpha, beta, n)
  {
    var Bt := Tranpose(B, n);
    ghost var c0 := C[..];
    ghost var g := GemmSpec(c0, A[..], B[..], alpha, beta, n);
    var i := 0;
    while i < n
      invariant i <= n && RowsDone(C[..], c0, g, n, i)
      modifies C
    {
      ghost var before := C[..];
      TransposedRow(C, A, Bt, alpha, beta, n, i, Scalar, B[..]);
      RowStep(c0, A[..], B[..], alpha, beta, n, i, g, before, C[..]);
      i := i + 1;
    }
    AllRowsDone(C[..], c0, g, n);
  }

  /** pro_gemm_parallel: the loops of pro_gemm under `omp parallel for`, run
      here in sequence. */
  method ProGemmParallel(C: array<Elem>, A: array<Elem>, B: array<Elem>, alpha: Elem, beta: Elem, n: nat)
    requires C.Length == n * n && A.Length == n * n && B.Length == n * n
    requires n * n <= U32_RANGE
    requires C != A && C != B
    modifies C
    ensures C[..] == GemmSpec(old(C[..]), A[..], B[..], alpha, beta, n)
  {
    var Bt := Tranpose(B, n);
    ghost var c0 := C[..];
    ghost var g := GemmSpec(c0, A[..], B[..], alpha, beta, n);
    var i := 0;
    while i < n
      invariant i <= n && RowsDone(C[..], c0, g, n, i)
      modifies C
    {
      ghost var before := C[..];
      TransposedRow(C, A, Bt, alpha, beta, n, i, Scalar, B[..]);
      RowStep(c0, A[..], B[..], alpha, beta, n, i, g, before, C[..]);
      i := i + 1;
    }
    AllRowsDone(C[..], c0, g, n);
  }

  /** pro_gemm_parallel_simd: as ProGemmParallel, with the k-loop reduced in
      `lanes` SIMD lanes. Over exact arithmetic the reordering changes nothing. */
  method ProGemmParallelSimd(C: array<Elem>, A: array<Elem>, B: array<Elem>, alpha: Elem, beta: Elem, n: nat, lanes: nat)
    requires C.Length == n * n && A.Length == n * n && B.Length == n * n
    requires n * n <= U32_RANGE
    requires C != A && C != B
    requires lanes > 0
    modifies C
    ensures C[..] == GemmSpec(old(C[..]), A[..], B[..], alpha, beta, n)
  {
    var Bt := Tranpose(B, n);
    ghost var c0 := C[..];
    ghost var g := GemmSpec(c0, A[..], B[..], alpha, beta, n);
    var i := 0;
    while i < n
      invariant i <= n && RowsDone(C[..], c0, g, n, i)
      modifies C
    {
      ghost var before := C[..];
      TransposedRow(C, A, Bt, alpha, beta, n, i, Simd(lanes), B[..]);
      RowStep(c0, A[..], B[..], alpha, beta, n, i, g, before, C[..]);
      i := i + 1;
    }
    AllRowsDone(C[..], c0, g, n);
  }

  /** run_gemm_benchmark without the timing: allocates A, B and C, fills them
      with ones, runs the kernel with alpha = beta = 1 and yields C, every entry
      of which is n + 1. The n*n in malloc's size is computed in 32 bits. */
  method RunGemmBenchmark(n: nat, kernel: Kernel) returns (result: seq<Elem>)
    requires n * n < U32_RANGE
    requires kernel.ProParallelSimd? ==> kernel.lanes > 0
    ensures result == Filled(n * n, n + 1)
  {
    var A := new Elem[n * n];
    var B := new Elem[n * n];
    var C := new Elem[n * n];
    FillOnes(A, B, C, n);
    match kernel {
      case Naive => NaiveGemm(C, A, B, 1, 1, n);
      case Pro => ProGemm(C, A, B, 1, 1, n);
      case ProParallel => ProGemmParallel(C, A, B, 1, 1, n);
      case ProParallelSimd(lanes) => ProGemmParallelSimd(C, A, B, 1, 1, n, lanes);
    }
    GemmOfOnes(1, 1, n);
    result := C[..];
  }

  /** main after parsing n: the four benchmarks in turn, each ending with every
      entry of its C equal to n + 1. */
  method RunAll(n: nat, lanes: nat) returns (naive: seq<Elem>, pro: seq<Elem>, parallel: seq<Elem>, simd: seq<Elem>)
    requires n * n < U32_RANGE
    requires lanes > 0
    ensures naive == pro == parallel == simd == Filled(n * n, n + 1)
  {
    naive := RunGemmBenchmark(n, Naive);
    pro := RunGemmBenchmark(n, Pro);
    parallel := RunGemmBenchmark(n, ProParallel);
    simd := RunGemmBenchmark(n, ProParallelSimd(lanes));
  }
}
