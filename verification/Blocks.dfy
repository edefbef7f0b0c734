/** What the callers of a malloc space see: the blocks handed out, and the bytes in them. */
module Blocks {
  import opened ChunkLayout
  import opened BinMaps
  import opened BoundaryTags
  import opened Segments
  import opened HeapSteps
  import opened ChunkSteps
  import opened Coalesce
  import opened Resizing
  import opened Growth
  import opened Alignments

  /** The chunks handed out, with their sizes. */
  ghost function Handed(H: Heap): map<int, int> {
    map p | p in H.kind && p in H.size && H.kind[p].Live? :: H.size[p]
  }

  /** Byte x is one a caller who was handed chunk p of size s may use: malloc_usable_size bytes, the
      last W of them in the next chunk's prev_foot. */
  ghost predicate InPayload(p: int, s: int, x: int) {
    Chunk2Mem(p) <= x < p + s + CHUNK_OVERHEAD
  }

  lemma PayloadsDisjoint(H: Heap, head: map<int, Head>, foot: map<int, int>, p: int, q: int, x: int)
    requires Physical(H, head, foot) && p in Handed(H) && q in Handed(H) && InPayload(p, H.size[p], x)
      && InPayload(q, H.size[q], x)
    ensures p == q
  {
    hide Closed, StartsClear, EndsClear, Tagged, Sized, NoAdjacentFree, LiveInside, TopPlaced;
    assert H.size[p] > 0 && H.size[q] > 0;
  }

  /** The blocks keep their bytes. */
  ghost predicate Untouched(blocks: map<int, int>, data: int -> int, data': int -> int) {
    forall q, x {:trigger q in blocks, data'(x)} :: q in blocks && InPayload(q, blocks[q], x) ==> data'(x) == data(x)
  }

  lemma HandedRetiled(H: Heap, H': Heap, a: int, m: int, n: int, low: Kind, high: Kind)
    requires a < m <= n && H.size.Keys == H.kind.Keys && H' == RetileHeap(H, a, m, n, low, high)
    ensures forall q {:trigger q in Handed(H')} :: q in Handed(H') <==>
      (q in Handed(H) && (q < a || n <= q)) || (q == a && low.Live?) || (q == m && m < n && high.Live?)
    ensures forall q {:trigger q in Handed(H')} :: q in Handed(H') ==>
      Handed(H')[q] == if q == a then m - a else if q == m && m < n then n - m else Handed(H)[q]
  {
    RetileAt(H.size, a, m, n);
    RetileKindsAt(H.kind, a, m, n, low, high);
    hide Retile, RetileKinds;
  }

  /** A region with no block in it but c. */
  ghost predicate OnlyBlock(H: Heap, a: int, n: int, c: int) {
    forall q {:trigger q in Handed(H)} :: q in Handed(H) && a <= q < n ==> q == c
  }

  lemma HandedOne(H: Heap, H': Heap, a: int, m: int, n: int, low: Kind, c: int)
    requires a < m <= n && H.size.Keys == H.kind.Keys && H' == RetileHeap(H, a, m, n, low, Free)
      && OnlyBlock(H, a, n, c) && a <= c < n
    requires low.Live? ==> a == c
    ensures Handed(H') == if low.Live? then Handed(H)[a := m - a] else Handed(H) - {c}
  {
    HandedRetiled(H, H', a, m, n, low, Free);
    hide RetileHeap, Handed;
  }

  lemma HandedLive(H: Heap)
    ensures forall q {:trigger q in Handed(H)} :: q in Handed(H) <==> IsLive(H, q)
    ensures forall q {:trigger q in Handed(H)} ::
      q in Handed(H) ==> Handed(H)[q] == H.size[q] && EndOf(H, q) == q + Handed(H)[q]
  {
  }

  /** What handing out part of a free chunk does to the blocks. */
  lemma HandedAllocated(H: Heap, head: map<int, Head>, foot: map<int, int>, p: int, nb: int)
    requires Physical(H, head, foot) && IsFree(H, p) && MIN_CHUNK_SIZE <= nb
    requires if p == H.top then nb < H.size[p] else nb <= H.size[p]
    ensures p !in Handed(H) && Handed(Allocated(H, p, nb)) == Handed(H)[p := AllocEnd(H, p, nb) - p]
    ensures nb <= AllocEnd(H, p, nb) - p < nb + MIN_CHUNK_SIZE
    ensures AllocEnd(H, p, nb) - p == if p == H.top then nb else KeptSize(EndOf(H, p) - p, nb)
  {
    hide RetileHeap, Handed, Tagged, Sized, NoAdjacentFree, LiveInside, TopPlaced, Tiled;
    ChunkSpan(H, p);
    HandedLive(H);
    var m, n := AllocEnd(H, p, nb), EndOf(H, p);
    forall q | q in Handed(H) && p <= q < n ensures q == p { var _ := H.size[q]; }
    HandedOne(H, Allocated(H, p, nb), p, m, n, Live, p);
  }

  /** What giving a chunk back does to the blocks. */
  lemma HandedFreed(H: Heap, head: map<int, Head>, foot: map<int, int>, a: int, c: int, q: int, n: int)
    requires Physical(H, head, foot) && FullRun(H, head, a, c, q, n)
    ensures Handed(Freed(H, c)) == Handed(H) - {c}
  {
    hide RetileHeap, Handed, Tagged, Sized, NoAdjacentFree, LiveInside, TopPlaced, Tiled, Freed, Span;
    RunIsKnown(H, head, foot, a, c, q, n);
    RunIsFreed(H, head, foot, a, c, q, n);
    HandedLive(H);
    forall x | x in Handed(H) && a <= x < n ensures x == c { var _ := H.size[x]; }
    HandedOne(H, Freed(H, c), a, n, n, Free, c);
  }

  /** What cutting a block in two does to the blocks. */
  lemma HandedCut(H: Heap, head: map<int, Head>, foot: map<int, int>, p: int, m: int)
    requires Physical(H, head, foot) && IsLive(H, p) && p < m < EndOf(H, p)
    ensures Handed(RetileHeap(H, p, m, EndOf(H, p), Live, Live)) == Handed(H)[p := m - p][m := EndOf(H, p) - m]
      && m !in Handed(H) && p in Handed(H)
  {
    hide RetileHeap, Handed, Tagged, Sized, NoAdjacentFree, LiveInside, TopPlaced, Tiled;
    ChunkSpan(H, p);
    HandedLive(H);
    var n := EndOf(H, p);
    forall q | q in Handed(H) && p <= q < n ensures q == p { var _ := H.size[q]; }
    HandedRetiled(H, RetileHeap(H, p, m, n, Live, Live), p, m, n, Live, Live);
  }

  /** What growing a block into top does to the blocks. */
  lemma HandedGrown(H: Heap, head: map<int, Head>, foot: map<int, int>, p: int, m: int, n: int)
    requires Physical(H, head, foot) && IsLive(H, p) && p < m <= n && EndOf(H, p) == H.top && n == EndOf(H, H.top)
    ensures Handed(RetileHeap(H, p, m, n, Live, Free)) == Handed(H)[p := m - p] && p in Handed(H)
  {
    hide RetileHeap, Handed, Sized, NoAdjacentFree, LiveInside, TopPlaced, Tiled, Tagged;
    ChunkSpan(H, p);
    TopFacts(H, head, foot);
    HandedLive(H);
    forall q | q in Handed(H) && p <= q < n ensures q == p { var _ := H.size[q]; }
    HandedOne(H, RetileHeap(H, p, m, n, Live, Free), p, m, n, Live, p);
  }

  /** What a chunk of that size keeps for a request padded to nb: too small a rest stays with it. */
  function KeptSize(size: int, nb: int): int { if size < nb + MIN_CHUNK_SIZE then size else nb }

  /** One more block, of at least bytes usable bytes and less than a chunk more than asked for. */
  ghost predicate Served(H: Heap, H': Heap, p: int, bytes: nat) {
    && p !in Handed(H) && p in Handed(H') && Handed(H') == Handed(H)[p := Handed(H')[p]]
    && bytes + CHUNK_OVERHEAD <= Request2Size(bytes) <= Handed(H')[p] < Request2Size(bytes) + MIN_CHUNK_SIZE
    && Handed(H')[p] == (if p == H.top then Request2Size(bytes) else KeptSize(EndOf(H, p) - p, Request2Size(bytes)))
    && 0 < p && Chunk2Mem(p) % 8 == 0
  }

  lemma ChosenFits(H: Heap, dv: int, nb: int, large: bool, p: int)
    requires Chosen(H, dv, nb, large, p)
    ensures p in H.size && (p == H.top || IsFree(H, p)) && if p == H.top then nb < H.size[p] else nb <= H.size[p]
  {
    hide NoneFit, NoneNear, SmallestFit;
  }

  lemma AllocatedServes(H: Heap, head: map<int, Head>, foot: map<int, int>, dv: int, bytes: nat, large: bool, p: int)
    requires Physical(H, head, foot) && Chosen(H, dv, Request2Size(bytes), large, p)
    ensures Served(H, Allocated(H, p, Request2Size(bytes)), p, bytes)
  {
    hide Handed, Allocated, Chosen, Physical, AllocEnd;
    TopFacts(H, head, foot);
    ChosenFits(H, dv, Request2Size(bytes), large, p);
    ChunkAligned(H, head, foot, p);
    HandedAllocated(H, head, foot, p, Request2Size(bytes));
  }

  lemma ChunkAligned(H: Heap, head: map<int, Head>, foot: map<int, int>, p: int)
    requires Physical(H, head, foot) && p in H.size
    ensures p % 8 == 0 && 0 < p
  {
    hide NoAdjacentFree, LiveInside, TopPlaced, Tagged, NoOverlap, Closed, EndsClear, StartsClear;
    assert 0 < H.size[p];
  }

  /** The block at p is exchanged for one at q with room for bytes, and less than a chunk more. */
  ghost predicate Moved(blocks: map<int, int>, blocks': map<int, int>, p: int, q: int, bytes: nat) {
    && q in blocks' && bytes <= blocks'[q] - CHUNK_OVERHEAD && blocks' == (blocks - {p})[q := blocks'[q]]
    && Request2Size(bytes) <= blocks'[q] < Request2Size(bytes) + MIN_CHUNK_SIZE
  }

  /** The first bytes of the old block are in the new one, and all other blocks have kept theirs. */
  ghost predicate BytesKept(H: Heap, data: int -> int, data': int -> int, oldmem: int, newmem: int, bytes: nat) {
    var p := Mem2Chunk(oldmem);
    && p in Handed(H)
    && (newmem != 0 ==> forall x {:trigger data'(x)} ::
       newmem <= x < newmem + bytes && InPayload(p, Handed(H)[p], x - newmem + oldmem) ==>
          data'(x) == data(x - newmem + oldmem))
    && (forall q, x {:trigger q in Handed(H), data'(x)} ::
       q in Handed(H) && q != p && InPayload(q, Handed(H)[q], x) ==> data'(x) == data(x))
  }

  /** data' is data with n bytes at mem taken from the bytes at from. */
  ghost predicate Copied(data: int -> int, data': int -> int, mem: int, from: int, n: int) {
    forall x {:trigger data'(x)} :: data'(x) == if mem <= x < mem + n then data(x - mem + from) else data(x)
  }

  function Poke(data: int -> int, a: int, b: int): int -> int {
    x => if x == a then b else data(x)
  }

  /** memcpy between blocks that do not meet. */
  method CopyBytes(data: int -> int, mem: int, from: int, n: nat) returns (data': int -> int)
    ensures Copied(data, data', mem, from, n)
  {
    data' := data;
    var i := 0;
    while i < n
      invariant 0 <= i <= n && Copied(data, data', mem, from, i)
    {
      var next := Poke(data', mem + i, data(from + i));
      forall x ensures next(x) == if mem <= x < mem + i + 1 then data(x - mem + from)
        else data(x) { var _ := data'(x); }
      data' := next;
      i := i + 1;
    }
  }

  /** Byte a is b, and all others are as they were. */
  ghost predicate Poked(data: int -> int, data': int -> int, a: int, b: int) {
    forall x {:trigger data'(x)} :: data'(x) == if x == a then b else data(x)
  }

  /** The copy, once it is in memory. */
  lemma CopyFilled(data: int -> int, copy: int -> int, data': int -> int, mem: int, from: int, n: int)
    requires Copied(data, copy, mem, from, n)
    requires forall x {:trigger data'(x)} :: data'(x) == if mem <= x < mem + n then copy(x) else data(x)
    ensures Copied(data, data', mem, from, n)
  {
    forall x {:trigger data'(x)} ensures data'(x) == if mem <= x < mem + n then data(x - mem + from) else data(x) {
      var _ := copy(x);
    }
  }

  /** The blocks but for the one just served. */
  lemma NewOut(H: Heap, H': Heap, q: int, bytes: nat)
    requires Served(H, H', q, bytes)
    ensures Handed(H') - {q} == Handed(H)
  {
  }

  /** The new block served for bytes may take the copy, and the old one is still there to be freed. */
  lemma MoveReady(H: Heap, H': Heap, p: int, q: int, bytes: nat, n: int)
    requires Served(H, H', q, bytes) && IsLive(H, p) && n <= bytes
    ensures IsLive(H', q) && IsLive(H', p) && Chunk2Mem(q) + n <= EndOf(H', q) + CHUNK_OVERHEAD
    ensures Moved(Handed(H), Handed(H') - {p}, p, q, bytes) && q !in Handed(H)
  {
    hide Handed;
    HandedLive(H);
    HandedLive(H');
    assert p in Handed(H) && p in Handed(H');
  }

  lemma MoveKeeps(H: Heap, H': Heap, head: map<int, Head>, foot: map<int, int>, data: int -> int, data': int -> int,
                  oldmem: int, newmem: int, bytes: nat, n: int)
    requires Physical(H', head, foot) && Served(H, H', Mem2Chunk(newmem), bytes) && IsLive(H, Mem2Chunk(oldmem))
    requires var oc := EndOf(H, Mem2Chunk(oldmem)) - Mem2Chunk(oldmem) - CHUNK_OVERHEAD;
      n == if oc < bytes then oc else bytes
    requires Copied(data, data', newmem, oldmem, n)
    ensures BytesKept(H, data, data', oldmem, newmem, bytes)
  {
    hide Handed, Physical;
    HandedLive(H);
    HandedLive(H');
    forall q, x {:trigger q in Handed(H), data'(x)} | q in Handed(H) && q != Mem2Chunk(oldmem)
      && InPayload(q, Handed(H)[q], x)
      ensures data'(x) == data(x)
    {
      if newmem <= x < newmem + n { PayloadsDisjoint(H', head, foot, q, Mem2Chunk(newmem), x); }
    }
  }

  lemma NothingMoved(H: Heap, data: int -> int, oldmem: int, bytes: nat)
    requires IsLive(H, Mem2Chunk(oldmem))
    ensures BytesKept(H, data, data, oldmem, 0, bytes) && BytesKept(H, data, data, oldmem, oldmem, bytes)
  {
  }

  /** internal_realloc need not move the block: it is big enough, or top follows and is. */
  ghost predicate CanStay(H: Heap, p: int, nb: int) {
    nb <= EndOf(H, p) - p || (EndOf(H, p) == H.top && nb < EndOf(H, H.top) - p)
  }

  /** No room for nb bytes where the block is, nor anywhere else. */
  ghost predicate MustFail(H: Heap, p: int, nb: int) {
    !CanStay(H, p, nb) && NoneFit(H, nb) && EndOf(H, H.top) - H.top <= nb
  }

  lemma StayCases(H: Heap, top: int, topsize: int, p: int, nb: int)
    requires TopCached(H, top, topsize) && IsLive(H, p)
    ensures CanStay(H, p, nb) <==> nb <= EndOf(H, p) - p || (EndOf(H, p) == top && nb < top + topsize - p)
    ensures topsize == EndOf(H, H.top) - H.top && H.top == top
    ensures TopAfter(H, p) <==> EndOf(H, p) == top
  {
  }

  /** A block that stays in place with the bytes it needs. */
  lemma StayMoves(H: Heap, blocks': map<int, int>, p: int, bytes: nat)
    requires IsLive(H, p) && p in blocks' && blocks' == Handed(H)[p := blocks'[p]]
    requires Request2Size(bytes) <= blocks'[p] < Request2Size(bytes) + MIN_CHUNK_SIZE
    ensures Moved(Handed(H), blocks', p, p, bytes)
  {
  }

  /** A block that stays where it is: of the size it can keep, or grown to just the size asked for. */
  ghost predicate StaysAs(H: Heap, blocks': map<int, int>, p: int, nb: int) {
    p in blocks' && blocks'[p] == if nb <= EndOf(H, p) - p then KeptSize(EndOf(H, p) - p, nb) else nb
  }

  /** p is the chunk at p0 when that is aligned, and else the first aligned one that leaves a whole chunk before it. */
  predicate AtSpot(p0: int, p: int, alignment: nat)
    requires alignment > 0
  {
    if Chunk2Mem(p0) % alignment == 0 then p == p0
    else Chunk2Mem(p) % alignment == 0 && MIN_CHUNK_SIZE <= p - p0 < alignment + MIN_CHUNK_SIZE
  }

  /** The block at p0 is exchanged for one at p. */
  ghost predicate Replaced(blocks: map<int, int>, blocks': map<int, int>, p0: int, p: int) {
    p in blocks' && blocks' == (blocks - {p0})[p := blocks'[p]]
  }

  ghost predicate Between(low: int, blocks: map<int, int>, p: int, high: int) {
    p in blocks && low <= blocks[p] <= high
  }

  ghost predicate HasSize(blocks: map<int, int>, p: int, s: int) {
    p in blocks && blocks[p] == s
  }

  /** What is left of an aligned chunk of that size once a trailer worth it has been cut off. */
  function TrimmedSize(size: int, nb: int): int { if size > nb + MIN_CHUNK_SIZE then nb else size }

  ghost predicate HasRoom(blocks: map<int, int>, p: int, nb: int) {
    p in blocks && nb <= blocks[p]
  }

  /** Block p keeps nb bytes, and the rest of it is a block t of its own. */
  ghost predicate Split(blocks: map<int, int>, blocks': map<int, int>, p: int, t: int, nb: int) {
    t !in blocks && t in blocks' && t != p && blocks' - {t} == blocks[p := nb]
  }

  lemma KeptEnds(blocks1: map<int, int>, blocks2: map<int, int>, p0: int, p: int, trailer: int, nb: int)
    requires p0 in blocks1
    requires if trailer == 0 then blocks2 == blocks1 else Split(blocks1, blocks2, p, Mem2Chunk(trailer), nb)
    ensures p0 in blocks2 && (trailer != 0 ==> Mem2Chunk(trailer) in blocks2 - {p0})
  {
    if trailer != 0 { assert p0 in blocks2 - {Mem2Chunk(trailer)}; }
  }

  /** The block left once the leading and the trailing parts have been freed. */
  lemma KeptMiddle(blocks0: map<int, int>, blocks1: map<int, int>, blocks2: map<int, int>, blocks': map<int, int>,
                   p0: int, p: int, leader: int, trailer: int, nb: int)
    requires HasRoom(blocks1, p, nb) && p0 in blocks0 && p0 in blocks1
    requires if leader == 0 then p == p0 && blocks1 == blocks0
             else leader == Chunk2Mem(p0) && p !in blocks0 && Replaced(blocks0, blocks1 - {p0}, p0, p)
    requires trailer == 0 ==> blocks2 == blocks1 && Between(nb, blocks1, p, nb + MIN_CHUNK_SIZE)
    requires trailer != 0 ==> Split(blocks1, blocks2, p, Mem2Chunk(trailer), nb)
    requires var freed := (if leader == 0 then {} else {p0}) + (if trailer == 0 then {} else {Mem2Chunk(trailer)});
      blocks' == blocks2 - freed
    ensures Replaced(blocks0, blocks', p0, p) && Between(nb, blocks', p, nb + MIN_CHUNK_SIZE)
    ensures p in blocks1 && blocks'[p] == if trailer == 0 then blocks1[p] else nb
  {
    var s := if trailer == 0 then blocks1[p] else nb;
    if trailer == 0 {
      assert blocks1 == blocks1[p := s];
    } else {
      assert blocks2 - {Mem2Chunk(trailer)} == blocks1[p := s];
    }
    assert blocks' == if leader == 0 then blocks1[p := s] else blocks1[p := s] - {p0};
    if leader != 0 {
      assert p != p0;
      assert blocks' == (blocks1 - {p0})[p := s];
    }
    assert blocks' == (blocks0 - {p0})[p := s];
  }

  /** One more block, of low to high bytes. */
  ghost predicate Added(blocks: map<int, int>, blocks': map<int, int>, p: int, low: int, high: int) {
    p !in blocks && Replaced(blocks, blocks', p, p) && Between(low, blocks', p, high)
  }

  /** Neither top nor any other free chunk has room for nb bytes. */
  ghost predicate NoRoom(H: Heap, nb: int) {
    NoneFit(H, nb) && EndOf(H, H.top) - H.top <= nb
  }

  lemma TopRoomCached(H: Heap, top: int, topsize: int)
    requires TopCached(H, top, topsize)
    ensures EndOf(H, H.top) - H.top == topsize
  {
  }

  lemma ServedAdds(H: Heap, H': Heap, p: int, bytes: nat)
    requires Served(H, H', p, bytes)
    ensures Added(Handed(H), Handed(H'), p, Request2Size(bytes), Request2Size(bytes) + MIN_CHUNK_SIZE)
  {
    hide Handed;
    assert Handed(H) - {p} == Handed(H);
  }

  /** What internal_memalign asks mspace_malloc for. */
  function AlignRequest(bytes: nat, a: nat): nat {
    Request2Size(bytes) + a + MIN_CHUNK_SIZE - CHUNK_OVERHEAD
  }

  /** The request for an aligned block does not wrap around. */
  lemma AlignRequestFits(bytes: nat, a: nat)
    requires bytes < MAX_REQUEST - a
    ensures AlignRequest(bytes, a) < SIZE_T_RANGE
  {
  }

  lemma OverServed(H: Heap, H': Heap, p: int, bytes: nat, a: nat)
    requires Served(H, H', p, AlignRequest(bytes, a))
    ensures IsLive(H', p) && Request2Size(bytes) + a + MIN_CHUNK_SIZE <= EndOf(H', p) - p
  {
    HandedLive(H');
    hide Handed;
  }

  lemma AddedAround(blocks: map<int, int>, blocks1: map<int, int>, blocks': map<int, int>, p0: int, p: int, nb: int)
    requires p0 !in blocks && p0 in blocks1 && blocks1 == blocks[p0 := blocks1[p0]] && (p == p0 || p !in blocks1)
    requires Replaced(blocks1, blocks', p0, p) && Between(nb, blocks', p, nb + MIN_CHUNK_SIZE)
    ensures Added(blocks, blocks', p, nb, nb + MIN_CHUNK_SIZE)
  {
    assert blocks1 - {p0} == blocks;
    assert blocks - {p} == blocks;
  }

  /** No block of bytes at that alignment is to be had. */
  ghost predicate MemalignFails(H: Heap, alignment: nat, bytes: nat) {
    if alignment <= ALIGNMENT then bytes >= MAX_REQUEST || NoRoom(H, Request2Size(bytes))
    else exists a: nat :: Rounds(alignment, a) && TooMuch(H, a, bytes)
  }

  ghost predicate TooMuch(H: Heap, a: nat, bytes: nat) {
    bytes >= MAX_REQUEST - a || AlignRequest(bytes, a) >= MAX_REQUEST || NoRoom(H, Request2Size(AlignRequest(bytes, a)))
  }

  lemma MemalignFailsWhen(H: Heap, alignment: nat, bytes: nat, a: nat)
    requires alignment > ALIGNMENT && Rounds(alignment, a)
    ensures MemalignFails(H, alignment, bytes) <==> TooMuch(H, a, bytes)
  {
    hide TooMuch, Rounds;
    RoundsUnique(alignment, a);
  }

  /** A new segment adds no block and takes none. */
  lemma HandedExtended(H: Heap, c: int, tbase: int, psize: int)
    requires MayExtend(H, c, tbase, psize) && Positive(H.size) && H.size.Keys == H.kind.Keys && H.kind[H.top].Free?
    ensures Handed(Extended(H, c, tbase, psize)) == Handed(H)
  {
    ExtendedAt(H, c, tbase, psize);
    ExtendedKinds(H, c, tbase, psize);
    hide Extended, ZoneClear, NewClear;
  }

  /** No word of the allocator's own lies in a payload: not the head and links of another chunk, not a
      prev_foot that holds a free chunk's size, not the head of an end marker. */
  lemma OwnersOnly(H: Heap, head: map<int, Head>, foot: map<int, int>, p: int, x: int, a: int)
    requires Physical(H, head, foot) && IsLive(H, p) && InPayload(p, H.size[p], a)
    ensures x in H.size && x != p ==> !(x + W <= a < x + H.size[x])
    ensures IsFree(H, x) && x != H.top ==> !(EndOf(H, x) <= a < EndOf(H, x) + W)
    ensures x in H.ends ==> !(x + W <= a < x + 2 * W)
  {
    hide Tagged, NoAdjacentFree, LiveInside, TopPlaced, Closed, StartsClear;
    assert H.size[p] > 0;
    if x in H.size { assert H.size[x] > 0; }
  }

  /** memset of n bytes to zero. */
  ghost predicate Zeroed(data: int -> int, data': int -> int, mem: int, n: int) {
    forall x {:trigger data'(x)} :: data'(x) == if mem <= x < mem + n then 0 else data(x)
  }

  ghost predicate ZerosAt(data: int -> int, mem: int, n: int) {
    forall x {:trigger data(x)} :: mem <= x < mem + n ==> data(x) == 0
  }

  lemma ZerosLeft(data: int -> int, data': int -> int, mem: int, n: int)
    requires Zeroed(data, data', mem, n)
    ensures ZerosAt(data', mem, n)
  {
  }

  function Product(n: nat, elem: nat): nat { n * elem }

  /** The overflow test of mspace_calloc finds exactly the products that do not fit size_t. */
  lemma CallocRequest(n: nat, elem: nat)
    requires 0 < n < SIZE_T_RANGE && elem < SIZE_T_RANGE
    ensures var req := n * elem % SIZE_T_RANGE;
      if n * elem < SIZE_T_RANGE then req == n * elem && req / n == elem
      else (n > 0xFFFF || elem > 0xFFFF) && req / n != elem
  {
    var req := n * elem % SIZE_T_RANGE;
    if n * elem < SIZE_T_RANGE {
      DivExact(n, elem);
    } else {
      if n <= 0xFFFF && elem <= 0xFFFF { ProductBound(n, elem); }
      QuotientDiffers(req, n, elem);
    }
  }

  lemma QuotientDiffers(req: nat, n: nat, elem: nat)
    requires 0 < n && req < n * elem
    ensures req / n != elem
  {
    assert n * (req / n) <= req;
  }

  lemma DivExact(n: nat, elem: nat)
    requires 0 < n
    ensures n * elem / n == elem
  {
    ModUnique(n * elem, n, elem, 0);
  }

  lemma ProductBound(n: nat, elem: nat)
    requires n <= 0xFFFF && elem <= 0xFFFF
    ensures n * elem < 0x1_0000_0000
  {
    assert n * elem <= 0xFFFF * elem;
  }
}
