/** Dense n-by-n matrices stored row-major in one flat buffer of length n*n,
    and the specification every GEMM kernel is proved against:
    C := alpha * A * B + beta * C. */
module Dense {

  /** A matrix element. The C code's elements are doubles; here they are exact
      integers, so sums and products are exact and summation order is
      irrelevant. */
  type Elem = int

  /** Values of a 32-bit unsigned index (uint32_t). */
  const U32_RANGE: int := 0x1_0000_0000
  /** Positive values of a 32-bit signed index (int), plus one. */
  const I32_RANGE: int := 0x8000_0000

  /** i * n, the offset at which row i starts, written as repeated addition so
      that reasoning about offsets stays linear; RowStartIsProduct shows that it
      is the product. */
  function RowStart(i: nat, n: nat): nat
  {
    if i == 0 then 0 else RowStart(i - 1, n) + n
  }

  lemma {:induction false} RowStartIsProduct(i: nat, n: nat)
    ensures RowStart(i, n) == i * n
  {
    if i > 0 {
      RowStartIsProduct(i - 1, n);
      assert (i - 1) * n + n == i * n;
    }
  }

  /** Row i ends no later than row k starts, when i < k. */
  lemma {:induction false} RowStartMonotone(i: nat, k: nat, n: nat)
    requires i < k
    ensures RowStart(i, n) + n <= RowStart(k, n)
  {
    if i < k - 1 {
      RowStartMonotone(i, k - 1, n);
    }
  }

  /** The rows of an n-by-n matrix fill its n * n buffer exactly. */
  lemma AllRows(n: nat)
    ensures RowStart(n, n) == n * n
  {
    RowStartIsProduct(n, n);
  }

  /** The IDX macro: the flat offset i * n + j of element (i, j), which lies
      inside the buffer. */
  function Idx(i: nat, j: nat, n: nat): (p: nat)
    requires i < n && j < n
    ensures p < n * n
  {
    RowStartMonotone(i, n, n);
    AllRows(n);
    RowStart(i, n) + j
  }

  /** IDX(i, j) is the row-major offset i * n + j. */
  lemma IdxIsRowMajor(i: nat, j: nat, n: nat)
    requires i < n && j < n
    ensures Idx(i, j, n) == i * n + j
  {
    RowStartIsProduct(i, n);
  }

  /** Sum over t < k of a(i, t) * b(t, j): row i of a against column j of b,
      walking b column-wise (stride n), in the order naive_gemm adds the terms. */
  function Dot(a: seq<Elem>, b: seq<Elem>, i: nat, j: nat, n: nat, k: nat): Elem
    requires |a| == n * n && |b| == n * n && i < n && j < n && k <= n
  {
    if k == 0 then 0
    else Dot(a, b, i, j, n, k - 1) + a[Idx(i, k - 1, n)] * b[Idx(k - 1, j, n)]
  }

  /** Sum over t < k of a(i, t) * bt(j, t): row i of a against ROW j of bt, both
      walked contiguously, in the order the transposed kernels add the terms. */
  function DotT(a: seq<Elem>, bt: seq<Elem>, i: nat, j: nat, n: nat, k: nat): Elem
    requires |a| == n * n && |bt| == n * n && i < n && j < n && k <= n
  {
    if k == 0 then 0
    else DotT(a, bt, i, j, n, k - 1) + a[Idx(i, k - 1, n)] * bt[Idx(j, k - 1, n)]
  }

  /** The first r rows of the n-by-n buffer whose entry (i, j) is f(i, j). */
  function TabulateRows(n: nat, r: nat, f: (nat, nat) --> Elem): (s: seq<Elem>)
    requires r <= n
    requires forall i, j :: 0 <= i < n && 0 <= j < n ==> f.requires(i, j)
    ensures |s| == RowStart(r, n)
  {
    if r == 0 then []
    else TabulateRows(n, r - 1, f) + seq(n, j requires 0 <= j < n => f(r - 1, j))
  }

  /** Entry (i, j) of the first r rows is f(i, j). */
  lemma {:induction false} TabulateRowsAt(n: nat, r: nat, f: (nat, nat) --> Elem, i: nat, j: nat)
    requires r <= n
    requires forall i, j :: 0 <= i < n && 0 <= j < n ==> f.requires(i, j)
    requires i < r && j < n
    ensures Idx(i, j, n) < RowStart(r, n)
    ensures TabulateRows(n, r, f)[Idx(i, j, n)] == f(i, j)
  {
    if i < r - 1 {
      TabulateRowsAt(n, r - 1, f, i, j);
      RowStartMonotone(i, r - 1, n);
    }
  }

  /** Two n-by-n buffers that agree at every position (i, j) agree on their
      first r rows. */
  lemma {:induction false} RowsExt(x: seq<Elem>, y: seq<Elem>, n: nat, r: nat)
    requires |x| == n * n && |y| == n * n && r <= n
    requires forall i, j :: 0 <= i < n && 0 <= j < n ==> x[Idx(i, j, n)] == y[Idx(i, j, n)]
    ensures RowStart(r, n) <= n * n && x[..RowStart(r, n)] == y[..RowStart(r, n)]
  {
    AllRows(n);
    if r > 0 {
      if r < n {
        RowStartMonotone(r, n, n);
      }
      RowsExt(x, y, n, r - 1);
      var lo := RowStart(r - 1, n);
      forall p | lo <= p < lo + n ensures x[p] == y[p] {
        assert p == Idx(r - 1, p - lo, n);
      }
      assert x[..lo + n] == x[..lo] + x[lo..lo + n];
      assert y[..lo + n] == y[..lo] + y[lo..lo + n];
    }
  }

  /** Two n-by-n buffers that agree at every position (i, j) are equal. */
  lemma MatrixExt(x: seq<Elem>, y: seq<Elem>, n: nat)
    requires |x| == n * n && |y| == n * n
    requires forall i, j :: 0 <= i < n && 0 <= j < n ==> x[Idx(i, j, n)] == y[Idx(i, j, n)]
    ensures x == y
  {
    RowsExt(x, y, n, n);
    AllRows(n);
    assert x == x[..n * n] && y == y[..n * n];
  }

  /** The transpose of m; TransposeAt states its entries. */
  function Transpose(m: seq<Elem>, n: nat): (mt: seq<Elem>)
    requires |m| == n * n
    ensures |mt| == n * n
  {
    AllRows(n);
    TabulateRows(n, n, (i: nat, j: nat) requires i < n && j < n => m[Idx(j, i, n)])
  }

  /** Entry (i, j) of the transpose is entry (j, i) of the matrix. */
  lemma TransposeAt(m: seq<Elem>, n: nat, i: nat, j: nat)
    requires |m| == n * n && i < n && j < n
    ensures Transpose(m, n)[Idx(i, j, n)] == m[Idx(j, i, n)]
  {
    AllRows(n);
    TabulateRowsAt(n, n, (i: nat, j: nat) requires i < n && j < n => m[Idx(j, i, n)], i, j);
  }

  /** C after C := alpha * A * B + beta * C, given the old C; GemmSpecAt
      states its entries. */
  function GemmSpec(c: seq<Elem>, a: seq<Elem>, b: seq<Elem>, alpha: Elem, beta: Elem, n: nat): (r: seq<Elem>)
    requires |c| == n * n && |a| == n * n && |b| == n * n
    ensures |r| == n * n
  {
    AllRows(n);
    TabulateRows(n, n, (i: nat, j: nat) requires i < n && j < n =>
                          alpha * Dot(a, b, i, j, n, n) + beta * c[Idx(i, j, n)])
  }

  /** Entry (i, j) becomes alpha times the dot product of row i of A with
      column j of B, plus beta times its old value. */
  lemma GemmSpecAt(c: seq<Elem>, a: seq<Elem>, b: seq<Elem>, alpha: Elem, beta: Elem, n: nat, i: nat, j: nat)
    requires |c| == n * n && |a| == n * n && |b| == n * n && i < n && j < n
    ensures GemmSpec(c, a, b, alpha, beta, n)[Idx(i, j, n)]
            == alpha * Dot(a, b, i, j, n, n) + beta * c[Idx(i, j, n)]
  {
    AllRows(n);
    TabulateRowsAt(n, n, (i: nat, j: nat) requires i < n && j < n =>
                             alpha * Dot(a, b, i, j, n, n) + beta * c[Idx(i, j, n)], i, j);
  }

  /** A buffer of len copies of v (the harness fill). */
  function Filled(len: nat, v: Elem): (s: seq<Elem>)
    ensures |s| == len && forall p :: 0 <= p < len ==> s[p] == v
  {
    seq(len, _ => v)
  }

  /** Transposing twice gives back the matrix. */
  lemma TransposeInvolutive(m: seq<Elem>, n: nat)
    requires |m| == n * n
    ensures Transpose(Transpose(m, n), n) == m
  {
    var mt := Transpose(m, n);
    var mtt := Transpose(mt, n);
    forall i, j | 0 <= i < n && 0 <= j < n ensures mtt[Idx(i, j, n)] == m[Idx(i, j, n)] {
      TransposeAt(mt, n, i, j);
      TransposeAt(m, n, j, i);
    }
    MatrixExt(mtt, m, n);
  }

  /** A buffer is the transpose of m exactly when it swaps every (i, j) with (j, i). */
  lemma TransposeUnique(mt: seq<Elem>, m: seq<Elem>, n: nat)
    requires |mt| == n * n && |m| == n * n
    ensures mt == Transpose(m, n) <==>
            forall i, j :: 0 <= i < n && 0 <= j < n ==> mt[Idx(i, j, n)] == m[Idx(j, i, n)]
  {
    forall i, j | 0 <= i < n && 0 <= j < n {
      TransposeAt(m, n, i, j);
    }
    if forall i, j :: 0 <= i < n && 0 <= j < n ==> mt[Idx(i, j, n)] == m[Idx(j, i, n)] {
      MatrixExt(mt, Transpose(m, n), n);
    }
  }

  /** The key equivalence: the contiguous dot product against the transpose of b
      is the strided dot product against b itself. */
  lemma {:induction false} DotTransposed(a: seq<Elem>, b: seq<Elem>, i: nat, j: nat, n: nat, k: nat)
    requires |a| == n * n && |b| == n * n && i < n && j < n && k <= n
    ensures DotT(a, Transpose(b, n), i, j, n, k) == Dot(a, b, i, j, n, k)
  {
    if k > 0 {
      DotTransposed(a, b, i, j, n, k - 1);
      TransposeAt(b, n, j, k - 1);
    }
  }

  /** With all-ones operands the first k terms of a dot product sum to k. */
  lemma {:induction false} DotOfOnes(i: nat, j: nat, n: nat, k: nat)
    requires i < n && j < n && k <= n
    ensures Dot(Filled(n * n, 1), Filled(n * n, 1), i, j, n, k) == k
  {
    if k > 0 {
      DotOfOnes(i, j, n, k - 1);
    }
  }

  /** The harness's inputs: A, B and C all ones make every entry n*alpha + beta. */
  lemma GemmOfOnes(alpha: Elem, beta: Elem, n: nat)
    ensures GemmSpec(Filled(n * n, 1), Filled(n * n, 1), Filled(n * n, 1), alpha, beta, n)
            == Filled(n * n, n * alpha + beta)
  {
    var ones := Filled(n * n, 1);
    var r := GemmSpec(ones, ones, ones, alpha, beta, n);
    var expected := Filled(n * n, n * alpha + beta);
    forall i, j | 0 <= i < n && 0 <= j < n
      ensures r[Idx(i, j, n)] == expected[Idx(i, j, n)]
    {
      GemmSpecAt(ones, ones, ones, alpha, beta, n, i, j);
      DotOfOnes(i, j, n, n);
    }
    MatrixExt(r, expected, n);
  }

  /** The fill loop of both harnesses, over a signed n: for n >= 0 every entry
      of A, B and C becomes 1; for negative n the loops do not run. */
  method FillOnes(A: array<Elem>, B: array<Elem>, C: array<Elem>, n: int)
    requires A.Length == n * n && B.Length == n * n && C.Length == n * n
    requires A != B && B != C && A != C
    modifies A, B, C
    ensures n >= 0 ==> A[..] == Filled(n * n, 1) && B[..] == Filled(n * n, 1) && C[..] == Filled(n * n, 1)
    ensures n < 0 ==> A[..] == old(A[..]) && B[..] == old(B[..]) && C[..] == old(C[..])
  {
    ghost var m: nat := if n > 0 then n else 0;
    AllRows(m);
    var i := 0;
    while i < n
      invariant 0 <= i <= m && RowStart(i, m) <= m * m
      invariant forall p :: 0 <= p < RowStart(i, m) ==> A[p] == 1 && B[p] == 1 && C[p] == 1
      invariant i == 0 ==> unchanged(A, B, C)
    {
      RowStartMonotone(i, m, m);
      var j := 0;
      while j < n
        invariant 0 <= j <= m
        invariant forall p :: 0 <= p < RowStart(i, m) + j ==> A[p] == 1 && B[p] == 1 && C[p] == 1
      {
        A[Idx(i, j, n)] := 1;
        B[Idx(i, j, n)] := 1;
        C[Idx(i, j, n)] := 1;
        j := j + 1;
      }
      i := i + 1;
    }
  }

  /** The inner k-loop of naive_gemm: sum += A[IDX(i, k)] * B[IDX(k, j)]. */
  method StridedDot(A: array<Elem>, B: array<Elem>, i: nat, j: nat, n: nat) returns (sum: Elem)
    requires A.Length == n * n && B.Length == n * n && i < n && j < n
    ensures sum == Dot(A[..], B[..], i, j, n, n)
  {
    sum := 0;
    var k := 0;
    while k < n
      invariant k <= n
      invariant sum == Dot(A[..], B[..], i, j, n, k)
    {
      sum := sum + A[Idx(i, k, n)] * B[Idx(k, j, n)];
      k := k + 1;
    }
  }

  /** The inner k-loop of the transposed kernels: sum += A[IDX(i, k)] * Bt[IDX(j, k)]. */
  method ContiguousDot(A: array<Elem>, Bt: array<Elem>, i: nat, j: nat, n: nat) returns (sum: Elem)
    requires A.Length == n * n && Bt.Length == n * n && i < n && j < n
    ensures sum == DotT(A[..], Bt[..], i, j, n, n)
  {
    sum := 0;
    var k := 0;
    while k < n
      invariant k <= n
      invariant sum == DotT(A[..], Bt[..], i, j, n, k)
    {
      sum := sum + A[Idx(i, k, n)] * Bt[Idx(j, k, n)];
      k := k + 1;
    }
  }
  /** The sum of a sequence, added left to right. */
  function Sum(s: seq<Elem>): Elem
  {
    if |s| == 0 then 0 else Sum(s[..|s| - 1]) + s[|s| - 1]
  }

  /** Lanes that all start at zero sum to zero. */
  lemma {:induction false} SumOfZeros(len: nat)
    ensures Sum(Filled(len, 0)) == 0
  {
    if len > 0 {
      SumOfZeros(len - 1);
      assert Filled(len, 0)[..len - 1] == Filled(len - 1, 0);
    }
  }

  /** Adding x to one lane adds x to the total. */
  lemma {:induction false} SumUpdate(s: seq<Elem>, t: nat, x: Elem)
    requires t < |s|
    ensures Sum(s[t := s[t] + x]) == Sum(s) + x
  {
    var u := s[t := s[t] + x];
    if t == |s| - 1 {
      assert u[..|u| - 1] == s[..|s| - 1];
    } else {
      SumUpdate(s[..|s| - 1], t, x);
      assert u[..|u| - 1] == s[..|s| - 1][t := s[t] + x];
    }
  }

  /** The inner k-loop under `omp simd reduction(+:sum)`: the terms are dealt
      in blocks of `lanes` consecutive k to private partial sums (term k0 + t
      of a block goes to lane t), and the lanes are added together at the end.
      The number of lanes is the vector width the compiler picks. */
  method LaneDot(A: array<Elem>, Bt: array<Elem>, i: nat, j: nat, n: nat, lanes: nat) returns (sum: Elem)
    requires A.Length == n * n && Bt.Length == n * n && i < n && j < n
    requires lanes > 0
    ensures sum == DotT(A[..], Bt[..], i, j, n, n)
  {
    var partial := Filled(lanes, 0);
    SumOfZeros(lanes);
    var k := 0;
    while k < n
      invariant k <= n && |partial| == lanes
      invariant Sum(partial) == DotT(A[..], Bt[..], i, j, n, k)
      decreases n - k
    {
      ghost var k0 := k;
      var t := 0;
      while t < lanes && k < n
        invariant t <= lanes && k <= n && k == k0 + t && |partial| == lanes
        invariant Sum(partial) == DotT(A[..], Bt[..], i, j, n, k)
      {
        SumUpdate(partial, t, A[Idx(i, k, n)] * Bt[Idx(j, k, n)]);
        partial := partial[t := partial[t] + A[Idx(i, k, n)] * Bt[Idx(j, k, n)]];
        k := k + 1;
        t := t + 1;
      }
    }
    sum := 0;
    var t := 0;
    while t < lanes
      invariant t <= lanes
      invariant sum == Sum(partial[..t])
    {
      assert partial[..t + 1][..t] == partial[..t];
      sum := sum + partial[t];
      t := t + 1;
    }
    assert partial[..lanes] == partial;
  }
  /** How a kernel's k-loop accumulates sum: in one scalar, or under
      `omp simd reduction(+:sum)` in the given number of lanes. */
  datatype Reduction = Scalar | Simd(lanes: nat)

  /** The k-loop of a transposed kernel, with or without the SIMD reduction. */
  method ReducedDot(A: array<Elem>, Bt: array<Elem>, i: nat, j: nat, n: nat, reduction: Reduction) returns (sum: Elem)
    requires A.Length == n * n && Bt.Length == n * n && i < n && j < n
    requires reduction.Simd? ==> reduction.lanes > 0
    ensures sum == DotT(A[..], Bt[..], i, j, n, n)
  {
    match reduction {
      case Scalar => sum := ContiguousDot(A, Bt, i, j, n);
      case Simd(lanes) => sum := LaneDot(A, Bt, i, j, n, lanes);
    }
  }

  /** `after` is `before` with row i updated by the GEMM rule: entry (i, j)
      becomes alpha times the dot product of row i of a with column j of b
      plus beta times its value in `before`; every entry outside row i keeps
      its value. */
  ghost predicate RowUpdated(before: seq<Elem>, after: seq<Elem>, a: seq<Elem>, b: seq<Elem>,
                             alpha: Elem, beta: Elem, n: nat, i: nat)
    requires |before| == n * n && |after| == n * n && |a| == n * n && |b| == n * n && i < n
  {
    (forall j :: 0 <= j < n ==>
       after[Idx(i, j, n)] == alpha * Dot(a, b, i, j, n, n) + beta * before[Idx(i, j, n)]) &&
    (forall p :: 0 <= p < n * n && (p < RowStart(i, n) || RowStart(i + 1, n) <= p) ==> after[p] == before[p])
  }

  /** The first i rows of s hold g and the remaining rows still hold c0. */
  ghost predicate RowsDone(s: seq<Elem>, c0: seq<Elem>, g: seq<Elem>, n: nat, i: nat)
    requires |s| == n * n && |c0| == n * n && |g| == n * n && i <= n
  {
    RowStart(i, n) <= n * n &&
    (forall p :: 0 <= p < RowStart(i, n) ==> s[p] == g[p]) &&
    (forall p :: RowStart(i, n) <= p < n * n ==> s[p] == c0[p])
  }

  /** The j-loop of naive_gemm for row i. */
  method NaiveRow(C: array<Elem>, A: array<Elem>, B: array<Elem>, alpha: Elem, beta: Elem, n: nat, i: nat)
    requires C.Length == n * n && A.Length == n * n && B.Length == n * n && i < n
    requires C != A && C != B
    modifies C
    ensures RowUpdated(old(C[..]), C[..], A[..], B[..], alpha, beta, n, i)
  {
    ghost var a, b0, c1 := A[..], B[..], C[..];
    var j := 0;
    while j < n
      invariant j <= n
      invariant forall j' :: 0 <= j' < j ==>
                  C[Idx(i, j', n)] == alpha * Dot(a, b0, i, j', n, n) + beta * c1[Idx(i, j', n)]
      invariant forall p :: 0 <= p < n * n && (p < RowStart(i, n) || RowStart(i, n) + j <= p) ==> C[p] == c1[p]
    {
      var sum := StridedDot(A, B, i, j, n);
      assert sum == Dot(a, b0, i, j, n, n);
      C[Idx(i, j, n)] := alpha * sum + beta * C[Idx(i, j, n)];
      j := j + 1;
    }
  }

  /** The j-loop of the transposed kernels for row i, which with Bt the
      transpose of b updates row i exactly as NaiveRow does with b. */
  method TransposedRow(C: array<Elem>, A: array<Elem>, Bt: array<Elem>, alpha: Elem, beta: Elem, n: nat, i: nat,
                       reduction: Reduction, ghost b: seq<Elem>)
    requires C.Length == n * n && A.Length == n * n && Bt.Length == n * n && |b| == n * n && i < n
    requires Bt[..] == Transpose(b, n)
    requires C != A && C != Bt
    requires reduction.Simd? ==> reduction.lanes > 0
    modifies C
    ensures RowUpdated(old(C[..]), C[..], A[..], b, alpha, beta, n, i)
  {
    ghost var a, c1 := A[..], C[..];
    var j := 0;
    while j < n
      invariant j <= n
      invariant forall j' :: 0 <= j' < j ==>
                  C[Idx(i, j', n)] == alpha * Dot(a, b, i, j', n, n) + beta * c1[Idx(i, j', n)]
      invariant forall p :: 0 <= p < n * n && (p < RowStart(i, n) || RowStart(i, n) + j <= p) ==> C[p] == c1[p]
    {
      var sum := ReducedDot(A, Bt, i, j, n, reduction);
      assert sum == Dot(a, b, i, j, n, n) by {
        DotTransposed(A[..], b, i, j, n, n);
      }
      C[Idx(i, j, n)] := alpha * sum + beta * C[Idx(i, j, n)];
      j := j + 1;
    }
  }

  /** One more row done: updating row i of a buffer whose first i rows hold
      the GEMM result and whose other rows hold c0 gives a buffer whose first
      i + 1 rows hold the GEMM result and whose other rows hold c0. */
  lemma RowStep(c0: seq<Elem>, a: seq<Elem>, b: seq<Elem>, alpha: Elem, beta: Elem, n: nat, i: nat,
                g: seq<Elem>, before: seq<Elem>, after: seq<Elem>)
    requires |c0| == n * n && |a| == n * n && |b| == n * n && |before| == n * n && |after| == n * n && i < n
    requires g == GemmSpec(c0, a, b, alpha, beta, n)
    requires RowsDone(before, c0, g, n, i)
    requires RowUpdated(before, after, a, b, alpha, beta, n, i)
    ensures RowsDone(after, c0, g, n, i + 1)
  {
    AllRows(n);
    if i + 1 < n {
      RowStartMonotone(i + 1, n, n);
    }
    forall p | RowStart(i, n) <= p < RowStart(i + 1, n) ensures after[p] == g[p] {
      var j := p - RowStart(i, n);
      assert p == Idx(i, j, n);
      GemmSpecAt(c0, a, b, alpha, beta, n, i, j);
    }
  }

  /** All n rows done: the buffer is the GEMM result. */
  lemma AllRowsDone(s: seq<Elem>, c0: seq<Elem>, g: seq<Elem>, n: nat)
    requires |s| == n * n && |c0| == n * n && |g| == n * n
    requires RowsDone(s, c0, g, n, n)
    ensures s == g
  {
    AllRows(n);
  }
}
