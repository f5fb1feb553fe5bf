/** Geometric chunk addressing of the append-only array: chunk `c` holds `1024 * 2^c` elements and
    starts where chunk `c - 1` ends. */
module Chunks {
  import opened Bits

  const FIRST_CHUNK_BITS := 10
  const FIRST_CHUNK_SIZE := 1024
  const MAX_CHUNKS := 54
  const SIZE_MAX := 0xFFFF_FFFF_FFFF_FFFF

  /** Offsets that chunk addressing can reach. */
  const CAPACITY := SIZE_MAX + 1 - FIRST_CHUNK_SIZE

  /** `63 - __builtin_clzll(n)`: the index of the highest set bit of `n`. */
  function Log2(n: nat): nat
    requires n >= 1
  {
    if n == 1 then 0 else 1 + Log2(n / 2)
  }

  function ChunkIndex(offset: nat): nat {
    Log2(offset / FIRST_CHUNK_SIZE + 1)
  }

  function ChunkBegin(chunk: nat): int {
    FIRST_CHUNK_SIZE * Pow2(chunk) - FIRST_CHUNK_SIZE
  }

  function ChunkSize(chunk: nat): nat {
    FIRST_CHUNK_SIZE * Pow2(chunk)
  }

  lemma {:induction false} Log2Bounds(n: nat)
    requires n >= 1
    ensures Pow2(Log2(n)) <= n < 2 * Pow2(Log2(n))
  {
    if n > 1 { Log2Bounds(n / 2); }
  }

  lemma {:induction false} Pow2Monotone(a: nat, b: nat)
    requires a <= b
    ensures Pow2(a) <= Pow2(b)
    decreases b - a
  {
    if a < b { Pow2Monotone(a + 1, b); }
  }

  /** Every offset lies in the chunk that `ChunkIndex` names, and in no other: the chunks tile the
      offsets with no gap and no overlap. */
  lemma ChunksTile(offset: nat, chunk: nat)
    ensures ChunkBegin(0) == 0 && ChunkBegin(chunk + 1) == ChunkBegin(chunk) + ChunkSize(chunk)
    ensures ChunkBegin(chunk) <= offset < ChunkBegin(chunk) + ChunkSize(chunk) <==> chunk == ChunkIndex(offset)
  {
    var block := offset / FIRST_CHUNK_SIZE + 1;
    var index := ChunkIndex(offset);
    Log2Bounds(block);
    if chunk < index {
      Pow2Monotone(chunk + 1, index);
    } else if index < chunk {
      Pow2Monotone(index + 1, chunk);
    }
  }

  /** A larger offset is never in an earlier chunk. */
  lemma ChunkIndexMonotone(a: nat, b: nat)
    requires a <= b
    ensures ChunkIndex(a) <= ChunkIndex(b)
  {
    ChunksTile(a, ChunkIndex(a));
    ChunksTile(b, ChunkIndex(b));
    if ChunkIndex(b) < ChunkIndex(a) {
      Pow2Monotone(ChunkIndex(b) + 1, ChunkIndex(a));
    }
  }

  /** The chunk table is exhausted exactly in the last `FIRST_CHUNK_SIZE` offsets of `size_t`. */
  lemma ChunkTableCapacity(offset: nat)
    ensures ChunkIndex(offset) < MAX_CHUNKS <==> offset < CAPACITY
  {
    ChunksTile(offset, ChunkIndex(offset));
    assert Pow2(54) == 0x40_0000_0000_0000 by {
      assert Pow2(8) == 256;
      assert Pow2(16) == 0x1_0000;
      assert Pow2(24) == 0x100_0000;
      assert Pow2(32) == 0x1_0000_0000;
      assert Pow2(40) == 0x100_0000_0000;
      assert Pow2(48) == 0x1_0000_0000_0000;
    }
    if ChunkIndex(offset) < MAX_CHUNKS {
      Pow2Monotone(ChunkIndex(offset) + 1, MAX_CHUNKS);
    } else {
      Pow2Monotone(MAX_CHUNKS, ChunkIndex(offset));
    }
  }
}
