/** `get_matrix_index` of the CUDA GEMM kernel (`gemm/cuda_implementation/index.h`):
    the linear offset of cell `(row, col)` of an `M x N` matrix stored
    row-major, or column-major when the matrix is transposed. */
module GemmIndex {
  import opened CudaMath

  /** The source as written: all operands are `uint32`, so the offset wraps
      at 2^32 before it is widened to the `uint64` result. */
  function GetMatrixIndexAsWritten(row: nat, col: nat, M: nat, N: nat, isTransposed: bool): (r: nat)
    requires row < UINT32_LIMIT && col < UINT32_LIMIT && M < UINT32_LIMIT && N < UINT32_LIMIT
    ensures r < UINT32_LIMIT
  {
    if isTransposed then Wrap32(Wrap32(col * M) + row)
    else Wrap32(Wrap32(row * N) + col)
  }

  /** In a 65536 x 65537 matrix, cell (65535, 1) and cell (0, 0) get the same
      offset as written, although the intended offset of the first is 2^32. */
  lemma AsWrittenIndexCollides()
    ensures GetMatrixIndexAsWritten(65535, 1, 65536, 65537, false) == GetMatrixIndexAsWritten(0, 0, 65536, 65537, false)
    ensures GetMatrixIndex(65535, 1, 65536, 65537, false) == UINT32_LIMIT
  {
  }

  /** The offset computed in the 64-bit result type, as the signature intends. */
  function GetMatrixIndex(row: nat, col: nat, M: nat, N: nat, isTransposed: bool): (r: nat)
    ensures !isTransposed && col < N ==> r / N == row && r % N == col
    ensures isTransposed && row < M ==> r / M == col && r % M == row
  {
    if isTransposed then
      MixedRadixDecode(col, row, M);
      col * M + row
    else
      MixedRadixDecode(row, col, N);
      row * N + col
  }

  /** For a matrix of fewer than 2^32 cells, the source as written computes
      the intended offset of every cell. */
  lemma MatrixIndexAsWrittenAgrees(row: nat, col: nat, M: nat, N: nat, isTransposed: bool)
    requires row < M && col < N && M * N < UINT32_LIMIT
    ensures M < UINT32_LIMIT && N < UINT32_LIMIT
    ensures GetMatrixIndexAsWritten(row, col, M, N, isTransposed) == GetMatrixIndex(row, col, M, N, isTransposed)
  {
    MulMonotone(1, N, M);
    MulMonotone(1, M, N);
    MatrixIndexInBounds(row, col, M, N, isTransposed);
    if isTransposed {
      assert col * M + row < UINT32_LIMIT;
      assert Wrap32(col * M) == col * M;
    } else {
      assert row * N + col < UINT32_LIMIT;
      assert Wrap32(row * N) == row * N;
    }
  }

  /** Inside the matrix the offset is below `M * N` in both layouts. */
  lemma MatrixIndexInBounds(row: nat, col: nat, M: nat, N: nat, isTransposed: bool)
    requires row < M && col < N
    ensures GetMatrixIndex(row, col, M, N, isTransposed) < M * N
  {
    if isTransposed {
      MixedRadixBound(col, row, N, M);
      assert N * M == M * N;
    } else {
      MixedRadixBound(row, col, M, N);
    }
  }

  /** For a fixed layout, distinct cells of the matrix have distinct offsets. */
  lemma MatrixIndexInjective(r1: nat, c1: nat, r2: nat, c2: nat, M: nat, N: nat, isTransposed: bool)
    requires r1 < M && c1 < N && r2 < M && c2 < N
    requires GetMatrixIndex(r1, c1, M, N, isTransposed) == GetMatrixIndex(r2, c2, M, N, isTransposed)
    ensures r1 == r2 && c1 == c2
  {
    if isTransposed {
      MixedRadixUnique(c1, r1, c2, r2, M);
    } else {
      MixedRadixUnique(r1, c1, r2, c2, N);
    }
  }
}
