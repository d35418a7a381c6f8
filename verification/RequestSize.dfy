/** Request sizes: rounding a byte count up to a block size in 64-bit `size_t` arithmetic. */
module RequestSize {

  const SIZE_T := 0x1_0000_0000_0000_0000   // 2^64

  /** The block size, in bytes, for a request: header added, rounded up to 16, at least 32. */
  function BlockBytes(request: int): int
    requires 0 <= request < SIZE_T
  {
    var rounded := (((request + 8) % SIZE_T + 15) / 16 * 16) % SIZE_T;
    if rounded < 32 then 32 else rounded
  }

  function RowsFor(request: int): int
    requires 0 <= request < SIZE_T
  {
    BlockBytes(request) / 8
  }

  /** The rounding loop of `sf_malloc` and `sf_realloc`. */
  method RoundRequest(request: int) returns (size: int)
    requires 0 <= request < SIZE_T
    ensures size == BlockBytes(request)
  {
    size := (request + 8) % SIZE_T;
    ghost var goal := (size + 15) / 16 * 16;
    ghost var reached := size;
    while size % 16 != 0
      invariant goal - 16 < reached <= goal <= SIZE_T && goal % 16 == 0
      invariant size == if reached == SIZE_T then 0 else reached
      decreases goal - reached
    {
      size, reached := (size + 1) % SIZE_T, reached + 1;
    }
    assert reached == goal;
    if size < 32 {
      size := 32;
    }
  }

  /** A block holds the request after its header exactly when adding header and padding does not overflow;
      it is then the smallest such block. */
  lemma BlockHoldsRequest(request: int)
    requires 0 < request < SIZE_T
    ensures var size := BlockBytes(request);
            && size % 16 == 0 && size >= 32
            && (request <= size - 8 <==> request <= SIZE_T - 24)
            && (if request <= SIZE_T - 24 then size == 32 || size - 16 < request + 8 else size == 32)
  {
    if request + 8 < SIZE_T {
      assert (request + 8) % SIZE_T == request + 8;
      if request <= SIZE_T - 24 {
        assert (request + 8 + 15) / 16 * 16 < SIZE_T;
      } else {
        assert (request + 8 + 15) / 16 * 16 == SIZE_T;
      }
    } else {
      assert (request + 8) % SIZE_T == request + 8 - SIZE_T;
    }
  }

  /** A request that needs more than `rows` rows fills the payload of `rows` rows and fits its own block. */
  lemma LargerRequest(request: int, rows: int)
    requires 0 < request < SIZE_T && RowsFor(request) > rows >= 4 && rows % 2 == 0
    ensures rows - 1 <= request / 8 && (request + 7) / 8 <= RowsFor(request) - 1
  {
    BlockHoldsRequest(request);
    var k, j := BlockBytes(request) / 16, rows / 2;
    assert BlockBytes(request) == 16 * k && rows == 2 * j && RowsFor(request) == 2 * k;
    RowsInBytes(request, k, j);
  }

  lemma RowsInBytes(request: int, k: int, j: int)
    requires 16 * k - 16 < request + 8 <= 16 * k && 2 <= j < k
    ensures 2 * j - 1 <= request / 8 && (request + 7) / 8 <= 2 * k - 1
  {
  }
}
