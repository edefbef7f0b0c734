/** Chunk sizes, alignments and request padding, for both word sizes the library is built for. */
module ChunkLayout {

  /** sizeof(size_t): 4 on the 32-bit cores, 8 on the 64-bit ones.  Nothing below picks one. */
  type WordSize = w: int | w == 4 || w == 8 witness 4
  const W: WordSize

  /** Number of values of size_t, so that x % SIZE_T_RANGE is unsigned wrap-around. */
  const SIZE_T_RANGE: int := if W == 4 then 0x1_0000_0000 else 0x1_0000_0000_0000_0000
  const SIZE_T_BITS: int := 8 * W

  const ALIGNMENT := 8
  const MIN_CHUNK_SIZE: int := 4 * W
  const CHUNK_OVERHEAD: int := W
  const MIN_LARGE_SIZE := 256
  const MAX_SMALL_REQUEST: int := 255 - 7 - W
  const MIN_REQUEST: int := MIN_CHUNK_SIZE - CHUNK_OVERHEAD - 1
  const MAX_REQUEST: int := SIZE_T_RANGE - 4 * MIN_CHUNK_SIZE

  /** Padded size of a segment record, and the room kept after top for one plus its fenceposts. */
  const SEGMENT_CHUNK: int := if W == 4 then 24 else 40
  const TOP_FOOT_SIZE: int := SEGMENT_CHUNK + MIN_CHUNK_SIZE

  /** Padded size of struct malloc_state, and where its bin arrays start inside it. */
  const STATE_CHUNK: int := if W == 4 then 472 else 928
  const SMALLBINS_OFFSET: int := if W == 4 then 36 else 64
  const TREEBINS_OFFSET: int := if W == 4 then 300 else 592

  function RoundDown(x: int): (r: int)
    ensures r % 8 == 0 && r <= x < r + 8
  {
    x / 8 * 8
  }

  function PadRequest(bytes: int): int {
    RoundDown(bytes + CHUNK_OVERHEAD + 7)
  }

  function Request2Size(bytes: int): (nb: int)
    requires 0 <= bytes
    ensures nb % 8 == 0 && MIN_CHUNK_SIZE <= nb
    ensures bytes <= nb - CHUNK_OVERHEAD
    ensures nb == MIN_CHUNK_SIZE || nb - 8 < bytes + CHUNK_OVERHEAD
  {
    if bytes < MIN_REQUEST then MIN_CHUNK_SIZE else PadRequest(bytes)
  }

  function Chunk2Mem(p: int): int { p + 2 * W }
  function Mem2Chunk(mem: int): int { mem - 2 * W }
}
