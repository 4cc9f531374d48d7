# GEMM kernels

A Dafny model of the dense matrix-update kernels C := alpha·A·B + beta·C. The
repository benchmarks them in two near-duplicate C files. The matrices are
n×n. Each is stored row-major in one flat buffer of n·n elements, with element
(i, j) at offset `IDX(i, j) = i*n + j`.

- `dense.dfy` (module `Dense`) holds what the two files share:
  - the offset arithmetic and the dot products, both the strided one (B walked
    column-wise) and the contiguous one (against the transpose Bt);
  - the transpose, the specification `GemmSpec` and the lemmas about them;
  - the inner loops: the k-loop with its three accumulation orders, and the j-loop
    of one row;
  - the fill loop of both harnesses.
- `gemm_time.dfy` (module `GemmTime`) models `gemm_time.c`:
  - `tranpose` (the C function's spelling is kept as `Tranpose`);
  - `naive_gemm`, `pro_gemm`, `pro_gemm_parallel` and `pro_gemm_parallel_simd`,
    with n a `uint32_t`;
  - the fill-and-run part of `run_gemm_benchmark` and the four runs of `main`.
- `gemm.dfy` (module `Gemm`) models `gemm.c`:
  - the same kernels with n a signed `int`, where n ≤ 0 skips every loop and
    leaves C as it was;
  - the transpose of B written inline in each optimised kernel;
  - the allocate-fill-run sequence of `main`.

Every kernel is a method over arrays and is proved against `Dense.GemmSpec`:
`C[..] == GemmSpec(old(C[..]), A[..], B[..], alpha, beta, n)`. Because the naive
and the transposed kernels have the same postcondition, they compute the same C
for the same inputs. `DotTransposed` is the step that makes the transposed ones
equal to the naive one: the contiguous dot product against `Transpose(B)` is the
strided dot product against B. Each kernel's i-loop keeps `RowsDone`: the rows
before i hold the result and the remaining rows still hold the old C. The row
methods `NaiveRow` and `TransposedRow` change row i only, and `RowStep` carries
the invariant across that change. The harnesses fill A, B and C with ones and
call a kernel with alpha = beta = 1. `GemmOfOnes` shows that every entry then
becomes n·alpha + beta, which is n + 1.

The SIMD reduction (`omp simd reduction(+:sum)`) is modelled as `LaneDot`:
- the terms are dealt in blocks of `lanes` consecutive k, and term k0 + t of a
  block is added to private partial sum t;
- the partial sums are added together at the end.

The lane count is a parameter (the vector width the compiler chooses), and the
result equals the scalar dot product for every lane count. The `omp parallel for`
pragmas are read as sequential loops.

## Model

| member | source | states |
|---|---|---|
| Dense.Idx | gemm_time.c:6 | the offset of element (i, j) for i, j < n lies inside the n·n buffer |
| Dense.IdxIsRowMajor | gemm.c:5 | the offset of element (i, j) is exactly i*n + j |
| Dense.TransposeAt | gemm_time.c:21 | entry (i, j) of the transpose of M is entry (j, i) of M |
| Dense.TransposeUnique | gemm_time.c:19-23 | a buffer is the transpose of M if and only if it holds M's (j, i) entry at every (i, j) |
| Dense.TransposeInvolutive | gemm_time.c:16-26 | transposing twice gives back the matrix |
| Dense.GemmSpecAt | gemm_time.c:31-37 | entry (i, j) of the result is alpha · Σ_{k<n} A[i,k]·B[k,j] + beta · (the old C[i,j]) |
| Dense.DotTransposed | gemm_time.c:49-51 | the contiguous dot product of row i of A with row j of Transpose(B) equals the strided dot product of row i of A with column j of B, term by term in the same order |
| Dense.DotOfOnes | gemm_time.c:104-108 | with all-ones A and B, the first k terms of any dot product sum to k |
| Dense.GemmOfOnes | gemm_time.c:104-113 | with A, B and C all ones, C := alpha·A·B + beta·C makes every entry n·alpha + beta |
| Dense.FillOnes | gemm.c:119-125 | the fill loop of gemm.c's main, identical to run_gemm_benchmark's at gemm_time.c:104-110, sets every entry of A, B and C to 1 for n ≥ 0, and for a negative signed n leaves all three as they were |
| Dense.StridedDot | gemm_time.c:31-35 | the k-loop of naive_gemm returns the dot product of row i of A with column j of B |
| Dense.ContiguousDot | gemm_time.c:47-51 | the k-loop of the transposed kernels returns the dot product of row i of A with row j of Bt |
| Dense.SumUpdate | gemm_time.c:87 | adding a term to one SIMD lane adds it to the total of the lanes |
| Dense.SumOfZeros | gemm_time.c:85 | lanes all started at zero total zero |
| Dense.LaneDot | gemm_time.c:85-90 | the SIMD-reduced k-loop returns the same dot product as the scalar loop, for any positive lane count |
| Dense.ReducedDot | gemm_time.c:66-70 | the k-loop of a transposed kernel returns the dot product of row i of A with row j of Bt, with or without the SIMD reduction |
| Dense.NaiveRow | gemm_time.c:30-38 | one pass of the j-loop of naive_gemm sets every entry of row i to alpha·(row i of A · column j of B) + beta·(its old value) and leaves every entry outside row i unchanged |
| Dense.TransposedRow | gemm_time.c:46-54 | with Bt the transpose of B, one pass of the j-loop of a transposed kernel updates row i exactly as NaiveRow does and leaves every other entry unchanged |
| Dense.RowStep | gemm_time.c:29-39 | if the rows before i hold the result and the rest hold the old C, then after row i is updated the rows before i + 1 hold the result and the rest hold the old C |
| Dense.AllRowsDone | gemm_time.c:29-39 | once all n rows are done, C is the whole result |
| GemmTime.Tranpose | gemm_time.c:16-26 | returns a freshly allocated buffer, distinct from M, that holds the transpose of M; M is only read |
| GemmTime.NaiveGemm | gemm_time.c:28-40 | C becomes alpha·A·B + beta·C; only C is written |
| GemmTime.ProGemm | gemm_time.c:42-58 | C becomes alpha·A·B + beta·C, the same C as NaiveGemm; only C and the private transpose are written |
| GemmTime.ProGemmParallel | gemm_time.c:60-77 | under sequential semantics, C becomes alpha·A·B + beta·C, the same C as ProGemm |
| GemmTime.ProGemmParallelSimd | gemm_time.c:79-97 | under sequential semantics and for any SIMD lane count, C becomes alpha·A·B + beta·C, the same C as ProGemm |
| GemmTime.RunGemmBenchmark | gemm_time.c:99-120 | after the ones fill and the kernel call with alpha = beta = 1, every entry of C is n + 1, whichever kernel runs |
| GemmTime.RunAll | gemm_time.c:130-133 | each of the four benchmark runs ends with every entry of its C equal to n + 1 |
| Gemm.TransposeInto | gemm.c:25-29 | for n > 0 the inline loop makes Bt the transpose of B; for n ≤ 0 it writes nothing |
| Gemm.NaiveGemm | gemm.c:8-20 | for n > 0, C becomes alpha·A·B + beta·C; for n ≤ 0, C is unchanged; only C is written |
| Gemm.ProGemm | gemm.c:22-44 | the same result as Gemm.NaiveGemm in both cases; only C and the private Bt are written |
| Gemm.ProGemmParallelSimd | gemm.c:46-70 | under sequential semantics and for any SIMD lane count, the same result as Gemm.ProGemm |
| Gemm.ProGemmParallel | gemm.c:72-95 | under sequential semantics, the same result as Gemm.ProGemm |
| Gemm.RunMain | gemm.c:113-133 | C has n·n entries; for n ≥ 0, after the ones fill and pro_gemm_parallel_simd with alpha = beta = 1, every entry is n + 1 |

## Left out

- Elements are exact integers (`Dense.Elem`), not `double`. Floating-point rounding is not modelled. The same holds for the differences in summation order that the SIMD and parallel reductions can cause, which only matter under rounding.
- The `omp parallel for` pragmas are read as sequential loops. Thread partitioning and the order in which threads finish rows are not modelled. The row methods' contracts (only row i changes) are what would make any row order give the same C, but no proof about reordering rows is given.
- The SIMD reduction is modelled with one particular legal lane assignment (blocks of consecutive k). Other assignments the compiler might choose are not covered.
- Timing (`wtime`, `clock_gettime`), `printf`, the usage message, `print_matrix` and the `argc` check are I/O and are not modelled.
- `atoi` is not modelled. Neither is gemm_time.c's conversion of a negative `int` n to `uint32_t` when `main` calls `run_gemm_benchmark`. `GemmTime.RunAll` and `GemmTime.RunGemmBenchmark` take n as a natural number.
- `malloc` is modelled as allocation of a fresh array. `free` and unchecked allocation failure are not modelled.
- `GemmTime.RunGemmBenchmark`, `GemmTime.RunAll` and `Gemm.RunMain` return the final contents of C. In gemm_time.c, `run_gemm_benchmark` frees C without reading it. In gemm.c, `main` neither reads C (its `print_matrix` calls are commented out) nor frees A, B or C before returning.
- GemmTime.Tranpose, GemmTime.NaiveGemm, GemmTime.ProGemm, GemmTime.ProGemmParallel, GemmTime.ProGemmParallelSimd: require n·n ≤ 2^32, so that `IDX` computed in `uint32_t` does not wrap. The wrapped behaviour for larger n is not modelled.
- GemmTime.RunGemmBenchmark, GemmTime.RunAll: require n·n < 2^32, because the size passed to `malloc` multiplies n·n in `uint32_t` first. With a larger n the buffers would be too small.
- Gemm.TransposeInto, Gemm.NaiveGemm, Gemm.ProGemm, Gemm.ProGemmParallelSimd, Gemm.ProGemmParallel: require n·n ≤ 2^31 when n > 0, so that `IDX` computed in `int` does not overflow.
- Gemm.RunMain: requires n·n < 2^31, because `malloc`'s size is computed as an `int` product. For negative n it states only the buffer's length. The C code leaves that buffer uninitialised, and the model leaves its contents unspecified.
- NaiveGemm, ProGemm, ProGemmParallel, ProGemmParallelSimd (both modules): require C to be a different buffer from A and from B. The C code does not check this. With aliasing, entries written early would feed later dot products, and the kernels would compute something other than alpha·A·B + beta·C.
- For n = 0 every buffer is empty and the kernels do nothing. No separate statement is made beyond the general postconditions.
