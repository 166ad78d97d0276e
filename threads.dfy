/** Launch-geometry helpers of `include/threads.h`. The grid and block
    builtins the device helpers read are passed in as parameters. */
module Threads {
  import opened CudaMath
  import opened Exceptions

  const WARP_SIZE: nat := 32

  /** `CHECK_VALID_THREAD_BLOCK`: a block size passes the check exactly when
      it is a whole number of warps. */
  function CheckValidThreadBlock(blockSize: nat): (ok: bool)
    ensures ok <==> blockSize == WARP_SIZE * (blockSize / WARP_SIZE)
  {
    blockSize % WARP_SIZE == 0
  }

  /** `get_threads_per_block`: the number of threads of a block, which is
      zero exactly when some dimension is empty and otherwise at least each
      dimension. */
  function GetThreadsPerBlock(blockDimX: nat, blockDimY: nat, blockDimZ: nat): (r: nat)
    ensures r == 0 <==> blockDimX == 0 || blockDimY == 0 || blockDimZ == 0
    ensures r > 0 ==> blockDimX <= r && blockDimY <= r && blockDimZ <= r
  {
    DimensionsBelowProduct(blockDimX, blockDimY, blockDimZ);
    blockDimX * blockDimY * blockDimZ
  }

  /** Each factor of a non-zero product of three naturals is at most the product. */
  lemma DimensionsBelowProduct(x: nat, y: nat, z: nat)
    ensures x * y * z == 0 <==> x == 0 || y == 0 || z == 0
    ensures x * y * z > 0 ==> x <= x * y * z && y <= x * y * z && z <= x * y * z
  {
    if x > 0 && y > 0 && z > 0 {
      MulMonotone(1, y, x);
      MulMonotone(1, z, x * y);
      MulMonotone(1, x, y);
      assert y <= x * y;
    }
  }

  /** A block whose x-dimension is a whole number of warps passes the check,
      whatever its other dimensions. */
  lemma WarpAlignedBlockIsValid(blockDimX: nat, blockDimY: nat, blockDimZ: nat)
    requires CheckValidThreadBlock(blockDimX)
    ensures CheckValidThreadBlock(GetThreadsPerBlock(blockDimX, blockDimY, blockDimZ))
  {
    var w := blockDimX / WARP_SIZE;
    calc {
      GetThreadsPerBlock(blockDimX, blockDimY, blockDimZ);
      (WARP_SIZE * w) * blockDimY * blockDimZ;
      WARP_SIZE * (w * blockDimY * blockDimZ);
    }
    MultipleModZero(w * blockDimY * blockDimZ, WARP_SIZE);
  }

  /** Device `get_num_blocks`: the number of blocks of the grid, zero
      exactly when some dimension is empty. */
  function GetNumBlocksOnDevice(gridDimX: nat, gridDimY: nat, gridDimZ: nat): (r: nat)
    ensures r == 0 <==> gridDimX == 0 || gridDimY == 0 || gridDimZ == 0
    ensures r > 0 ==> gridDimX <= r && gridDimY <= r && gridDimZ <= r
  {
    DimensionsBelowProduct(gridDimX, gridDimY, gridDimZ);
    gridDimX * gridDimY * gridDimZ
  }

  /** `get_block_id`: the x-fastest linearisation of the block index. Within
      the grid's x extent, the remainder by `gridDim.x` gives the x index back
      and the quotient the linearised `(y, z)` pair. */
  function GetBlockId(gridDimX: nat, gridDimY: nat, blockIdxX: nat, blockIdxY: nat, blockIdxZ: nat): (r: nat)
    ensures blockIdxX < gridDimX ==> r % gridDimX == blockIdxX && r / gridDimX == gridDimY * blockIdxZ + blockIdxY
  {
    MixedRadixDecode(gridDimY * blockIdxZ + blockIdxY, blockIdxX, gridDimX);
    gridDimX * (gridDimY * blockIdxZ + blockIdxY) + blockIdxX
  }

  /** Device `get_num_blocks` as written, in `uint32` arithmetic. */
  function GetNumBlocksOnDeviceAsWritten(gridDimX: nat, gridDimY: nat, gridDimZ: nat): (r: nat)
    ensures r < UINT32_LIMIT
  {
    Wrap32(Wrap32(gridDimX * gridDimY) * gridDimZ)
  }

  /** `get_block_id` as written, in `uint32` arithmetic. */
  function GetBlockIdAsWritten(gridDimX: nat, gridDimY: nat, blockIdxX: nat, blockIdxY: nat, blockIdxZ: nat): (r: nat)
    ensures r < UINT32_LIMIT
  {
    Wrap32(Wrap32(gridDimX * Wrap32(Wrap32(gridDimY * blockIdxZ) + blockIdxY)) + blockIdxX)
  }

  /** For a grid of fewer than 2^32 blocks, the `uint32` arithmetic of the
      source computes the block count and every in-grid block id exactly. */
  lemma BlockIdAsWrittenAgrees(gridDimX: nat, gridDimY: nat, gridDimZ: nat,
                               blockIdxX: nat, blockIdxY: nat, blockIdxZ: nat)
    requires blockIdxX < gridDimX && blockIdxY < gridDimY && blockIdxZ < gridDimZ
    requires GetNumBlocksOnDevice(gridDimX, gridDimY, gridDimZ) < UINT32_LIMIT
    ensures GetNumBlocksOnDeviceAsWritten(gridDimX, gridDimY, gridDimZ) == GetNumBlocksOnDevice(gridDimX, gridDimY, gridDimZ)
    ensures GetBlockIdAsWritten(gridDimX, gridDimY, blockIdxX, blockIdxY, blockIdxZ)
            == GetBlockId(gridDimX, gridDimY, blockIdxX, blockIdxY, blockIdxZ)
  {
    NumBlocksOnDeviceAsWrittenExact(gridDimX, gridDimY, gridDimZ);
    BlockIdBelowNumBlocks(gridDimX, gridDimY, gridDimZ, blockIdxX, blockIdxY, blockIdxZ);
    BlockIdAsWrittenExact(gridDimX, gridDimY, blockIdxX, blockIdxY, blockIdxZ);
  }

  /** No intermediate of the block count wraps when the count fits. */
  lemma NumBlocksOnDeviceAsWrittenExact(gridDimX: nat, gridDimY: nat, gridDimZ: nat)
    requires gridDimX * gridDimY * gridDimZ < UINT32_LIMIT
    ensures GetNumBlocksOnDeviceAsWritten(gridDimX, gridDimY, gridDimZ) == gridDimX * gridDimY * gridDimZ
  {
    var xy := gridDimX * gridDimY;
    if gridDimZ > 0 {
      MulMonotone(1, gridDimZ, xy);
      assert Wrap32(xy) == xy;
    } else {
      assert Wrap32(xy) * gridDimZ == 0;
    }
  }

  /** No intermediate of the block id wraps when the id fits. */
  lemma BlockIdAsWrittenExact(gridDimX: nat, gridDimY: nat, blockIdxX: nat, blockIdxY: nat, blockIdxZ: nat)
    requires blockIdxX < gridDimX
    requires GetBlockId(gridDimX, gridDimY, blockIdxX, blockIdxY, blockIdxZ) < UINT32_LIMIT
    ensures GetBlockIdAsWritten(gridDimX, gridDimY, blockIdxX, blockIdxY, blockIdxZ)
            == GetBlockId(gridDimX, gridDimY, blockIdxX, blockIdxY, blockIdxZ)
  {
    var zy := gridDimY * blockIdxZ;
    var inner := zy + blockIdxY;
    var scaled := gridDimX * inner;
    assert scaled + blockIdxX < UINT32_LIMIT;
    MulMonotone(1, gridDimX, inner);
    assert inner <= scaled;
    assert Wrap32(zy) == zy;
    assert Wrap32(zy + blockIdxY) == inner;
    assert Wrap32(scaled) == scaled;
  }

  /** A block index inside the grid has an id below the grid's block count. */
  lemma BlockIdBelowNumBlocks(gridDimX: nat, gridDimY: nat, gridDimZ: nat,
                              blockIdxX: nat, blockIdxY: nat, blockIdxZ: nat)
    requires blockIdxX < gridDimX && blockIdxY < gridDimY && blockIdxZ < gridDimZ
    requires GetNumBlocksOnDevice(gridDimX, gridDimY, gridDimZ) < UINT32_LIMIT
    ensures GetBlockId(gridDimX, gridDimY, blockIdxX, blockIdxY, blockIdxZ)
            < GetNumBlocksOnDevice(gridDimX, gridDimY, gridDimZ)
  {
    MixedRadixBound(blockIdxZ, blockIdxY, gridDimZ, gridDimY);
    var inner := gridDimY * blockIdxZ + blockIdxY;
    assert inner == blockIdxZ * gridDimY + blockIdxY;
    MixedRadixBound(inner, blockIdxX, gridDimZ * gridDimY, gridDimX);
    assert GetBlockId(gridDimX, gridDimY, blockIdxX, blockIdxY, blockIdxZ) == inner * gridDimX + blockIdxX;
    assert (gridDimZ * gridDimY) * gridDimX == gridDimX * gridDimY * gridDimZ;
  }

  /** Distinct block indices inside the grid have distinct ids. */
  lemma BlockIdInjective(gridDimX: nat, gridDimY: nat, gridDimZ: nat,
                         x1: nat, y1: nat, z1: nat, x2: nat, y2: nat, z2: nat)
    requires x1 < gridDimX && y1 < gridDimY && z1 < gridDimZ && x2 < gridDimX && y2 < gridDimY && z2 < gridDimZ
    requires GetNumBlocksOnDevice(gridDimX, gridDimY, gridDimZ) < UINT32_LIMIT
    requires GetBlockId(gridDimX, gridDimY, x1, y1, z1) == GetBlockId(gridDimX, gridDimY, x2, y2, z2)
    ensures x1 == x2 && y1 == y2 && z1 == z2
  {
    var i1, i2 := gridDimY * z1 + y1, gridDimY * z2 + y2;
    assert i1 * gridDimX + x1 == i2 * gridDimX + x2;
    MixedRadixUnique(i1, x1, i2, x2, gridDimX);
    assert z1 * gridDimY + y1 == z2 * gridDimY + y2;
    MixedRadixUnique(z1, y1, z2, y2, gridDimY);
  }

  /** `get_thread_id_along_axis` as written: both operands are `uint32`, so
      the product and the sum wrap at 2^32 before the widening to `uint64`. */
  function GetThreadIdAlongAxisAsWritten(blockSize: nat, blockId: nat, threadId: nat): (r: nat)
    requires blockSize < UINT32_LIMIT && blockId < UINT32_LIMIT && threadId < UINT32_LIMIT
    ensures r < UINT32_LIMIT
  {
    ((blockSize * blockId) % UINT32_LIMIT + threadId) % UINT32_LIMIT
  }

  /** The wrap-around makes the first thread of block 65536 (with 65536
      threads per block) share id 0 with the first thread of block 0, where
      the 64-bit result the signature promises is 2^32. */
  lemma ThreadIdAsWrittenCollides()
    ensures GetThreadIdAlongAxisAsWritten(65536, 65536, 0) == GetThreadIdAlongAxisAsWritten(65536, 0, 0)
    ensures GetThreadIdAlongAxis(65536, 65536, 0) == UINT32_LIMIT
  {
  }

  /** `get_thread_id_along_axis` computed in the 64-bit result type, as its
      signature intends. */
  function GetThreadIdAlongAxis(blockSize: nat, blockId: nat, threadId: nat): (r: nat)
    ensures threadId < blockSize ==> r / blockSize == blockId && r % blockSize == threadId
  {
    MixedRadixDecode(blockId, threadId, blockSize);
    blockSize * blockId + threadId
  }

  /** Threads inside their block get distinct global ids, and the ids of a
      grid of `numBlocks` blocks stay below `blockSize * numBlocks`. */
  lemma ThreadIdAlongAxisInjective(blockSize: nat, b1: nat, t1: nat, b2: nat, t2: nat)
    requires t1 < blockSize && t2 < blockSize
    requires GetThreadIdAlongAxis(blockSize, b1, t1) == GetThreadIdAlongAxis(blockSize, b2, t2)
    ensures b1 == b2 && t1 == t2
  {
    assert b1 * blockSize + t1 == b2 * blockSize + t2;
    MixedRadixUnique(b1, t1, b2, t2, blockSize);
  }

  lemma ThreadIdAlongAxisBound(blockSize: nat, numBlocks: nat, blockId: nat, threadId: nat)
    requires blockId < numBlocks && threadId < blockSize
    ensures GetThreadIdAlongAxis(blockSize, blockId, threadId) < blockSize * numBlocks
  {
    MixedRadixBound(blockId, threadId, numBlocks, blockSize);
  }

  /** `get_max_thread_blocks`: the largest multiple of the cluster size that
      does not exceed the SM count (the SM count itself when divisible). */
  function GetMaxThreadBlocks(smCount: nat, threadBlockClusterSize: nat): (r: nat)
    requires threadBlockClusterSize > 0
    ensures r % threadBlockClusterSize == 0
    ensures r <= smCount && smCount - r < threadBlockClusterSize
    ensures smCount % threadBlockClusterSize == 0 ==> r == smCount
  {
    var maxNumBlocks := smCount;
    if maxNumBlocks % threadBlockClusterSize != 0 then
      LargestMultiple(maxNumBlocks, threadBlockClusterSize);
      threadBlockClusterSize * (maxNumBlocks / threadBlockClusterSize)
    else
      maxNumBlocks
  }

  lemma LargestMultiple(n: nat, c: nat)
    requires c > 0
    ensures var m := c * (n / c); m % c == 0 && m <= n && n - m < c && (n >= c ==> m >= c)
  {
    var q := n / c;
    assert n == q * c + n % c;
    MultipleModZero(q, c);
    if n >= c {
      assert q >= 1;
      MulMonotone(1, q, c);
    }
  }

  /** The block count before clustering: `ceil_divide(num_elements,
      BLOCK_SIZE)`, capped at the SM count only when one is given. */
  function CappedBlockCount(numElements: nat, blockSize: nat, smCount: nat): (r: nat)
    requires numElements > 0 && blockSize > 0 && CeilDivide(numElements, blockSize) < UINT32_LIMIT
    ensures 1 <= r <= CeilDivide(numElements, blockSize)
    ensures smCount == 0 ==> r == CeilDivide(numElements, blockSize)
    ensures smCount != 0 ==> r <= smCount
    ensures r == CeilDivide(numElements, blockSize) || r == smCount
  {
    var numBlocks := CeilDivide(numElements, blockSize);
    if smCount != 0 && numBlocks > smCount then smCount else numBlocks
  }

  /** Host `get_num_blocks`: returns `(NUM_BLOCKS, cluster size)`. The
      cluster size is the smaller of the requested maximum and the capped
      block count, and the block count is rounded down to a whole number of
      clusters. */
  function GetNumBlocks(numElements: nat, blockSize: nat, smCount: nat, maxThreadBlockClusterSize: nat): (r: (nat, nat))
    requires numElements > 0 && blockSize > 0 && maxThreadBlockClusterSize > 0
    requires CeilDivide(numElements, blockSize) < UINT32_LIMIT
    ensures var capped := CappedBlockCount(numElements, blockSize, smCount);
      && 1 <= r.1 <= maxThreadBlockClusterSize && r.1 <= capped
      && (r.1 == maxThreadBlockClusterSize || r.1 == capped)
      && r.0 % r.1 == 0
      && r.1 <= r.0 <= capped
      && capped - r.0 < r.1
  {
    var numBlocks := CappedBlockCount(numElements, blockSize, smCount);
    var clusterSize := if maxThreadBlockClusterSize > numBlocks then numBlocks else maxThreadBlockClusterSize;
    LargestMultiple(numBlocks, clusterSize);
    (clusterSize * (numBlocks / clusterSize), clusterSize)
  }

  /** Host `get_num_blocks` as written: the 64-bit `ceil_divide` is stored in
      a `uint32`, so it keeps only its low 32 bits; a cluster size of zero
      then divides by zero. */
  function GetNumBlocksAsWritten(numElements: nat, blockSize: nat, smCount: nat, maxThreadBlockClusterSize: nat)
    : (r: Result<(nat, nat)>)
    requires 0 < numElements < UINT64_LIMIT && 0 < blockSize < UINT32_LIMIT
    requires smCount < UINT32_LIMIT && maxThreadBlockClusterSize < UINT32_LIMIT
    ensures r.Raise? <==> maxThreadBlockClusterSize == 0 || Wrap32(CeilDivide(numElements, blockSize)) == 0
    ensures r.Raise? ==> r.error == ZeroDivisionError
  {
    var ceil := Wrap32(CeilDivide(numElements, blockSize));
    var numBlocks := if smCount != 0 && ceil > smCount then smCount else ceil;
    var clusterSize := if maxThreadBlockClusterSize > numBlocks then numBlocks else maxThreadBlockClusterSize;
    if clusterSize == 0 then Raise(ZeroDivisionError)
    else Ok((clusterSize * (numBlocks / clusterSize), clusterSize))
  }

  /** When the block count fits in 32 bits, the source computes the intended
      result. */
  lemma NumBlocksAsWrittenAgrees(numElements: nat, blockSize: nat, smCount: nat, maxThreadBlockClusterSize: nat)
    requires 0 < numElements < UINT64_LIMIT && 0 < blockSize < UINT32_LIMIT
    requires smCount < UINT32_LIMIT && 0 < maxThreadBlockClusterSize < UINT32_LIMIT
    requires CeilDivide(numElements, blockSize) < UINT32_LIMIT
    ensures GetNumBlocksAsWritten(numElements, blockSize, smCount, maxThreadBlockClusterSize)
            == Ok(GetNumBlocks(numElements, blockSize, smCount, maxThreadBlockClusterSize))
  {
  }

  /** With 2^32 elements in blocks of one, the stored block count is 0 and
      the source divides by zero, where the intended count is 2^32. */
  lemma NumBlocksAsWrittenDividesByZero()
    ensures GetNumBlocksAsWritten(UINT32_LIMIT, 1, 0, 1) == Raise(ZeroDivisionError)
    ensures CeilDivide(UINT32_LIMIT, 1) == UINT32_LIMIT
  {
  }
}
