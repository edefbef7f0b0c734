/** Where the bytes of a segment are: walking its chunks, and what is left once every block is freed. */
module Conservation {
  import opened ChunkLayout
  import opened BoundaryTags
  import opened Segments
  import opened HeapSteps
  import opened ChunkSteps
  import opened Coalesce
  import opened NewSegment
  import opened Blocks

  /** The chunks of kind k from p on, up to stop, by next_chunk. */
  ghost function Bytes(H: Heap, p: int, stop: int, k: Kind): (b: int)
    ensures 0 <= b
    decreases stop - p
  {
    if p < stop && p in H.size && p in H.kind && 0 < H.size[p] then
      (if H.kind[p] == k then H.size[p] else 0) + Bytes(H, p + H.size[p], stop, k)
    else
      0
  }

  /** p is a chunk of region r, or r's end. */
  ghost predicate OnWalk(H: Heap, r: Region, p: int) {
    p == r.end || (p in H.size && p in H.kind && r.base <= p < r.end)
  }

  /** Each chunk of a region leads to the next one, or to the region's end. */
  lemma WalkStep(H: Heap, regions: seq<Region>, k: nat, p: int)
    requires Tiled(H.size, H.starts, H.ends) && H.size.Keys == H.kind.Keys && RegionsOk(regions) && Marked(H, regions)
      && k < |regions|
    requires OnWalk(H, regions[k], p) && p != regions[k].end
    ensures 0 < H.size[p] && OnWalk(H, regions[k], p + H.size[p]) && p + H.size[p] <= regions[k].end
  {
    hide NoOverlap, StartsClear, RegionsOk, MarksKnown;
    var n := NextOf(H.size, p);
    assert 0 < H.size[p];
    assert regions[k].end in H.ends;
    if n in H.ends {
      var j := WhichEnd(H, regions, n);
      SameRegion(regions, j, k, n);
    }
  }

  /** Two regions cannot both reach a point up to their ends. */
  lemma SameRegion(regions: seq<Region>, j: nat, k: nat, n: int)
    requires RegionsOk(regions) && j < |regions| && k < |regions| && n == regions[j].end
      && regions[k].base < n <= regions[k].end
    ensures j == k
  {
    var _ := regions[j];
    var _ := regions[k];
  }

  /** In use, free, and the allocator's own bytes add up: every byte of a region below its end is counted once. */
  lemma {:induction false} WalkSum(H: Heap, regions: seq<Region>, k: nat, p: int)
    requires Tiled(H.size, H.starts, H.ends) && H.size.Keys == H.kind.Keys && RegionsOk(regions) && Marked(H, regions)
      && k < |regions|
    requires OnWalk(H, regions[k], p)
    ensures Bytes(H, p, regions[k].end, Live) + Bytes(H, p, regions[k].end, Free) + Bytes(H, p, regions[k].end, Meta) ==
      regions[k].end - p
    decreases regions[k].end - p
  {
    hide Tiled, RegionsOk, Marked;
    if p != regions[k].end {
      WalkStep(H, regions, k, p);
      WalkSum(H, regions, k, p + H.size[p]);
    }
  }

  /** The walk meets every chunk. */
  lemma {:induction false} WalkMeets(H: Heap, regions: seq<Region>, k: nat, p: int, q: int)
    requires Tiled(H.size, H.starts, H.ends) && H.size.Keys == H.kind.Keys && RegionsOk(regions) && Marked(H, regions)
      && k < |regions|
    requires OnWalk(H, regions[k], p) && q in H.size && p <= q < regions[k].end
    ensures Bytes(H, p, regions[k].end, H.kind[q]) >= H.size[q] > 0
    decreases regions[k].end - p
  {
    hide RegionsOk, Marked, Closed, EndsClear, StartsClear;
    WalkStep(H, regions, k, p);
    assert H.size[q] > 0;
    if p != q {
      assert p + H.size[p] <= q;
      WalkMeets(H, regions, k, p + H.size[p], q);
    }
  }

  /** Each segment is its blocks, its free chunks, the allocator's own chunks and the words after its last chunk. */
  lemma SegmentBytes(H: Heap, head: map<int, Head>, foot: map<int, int>, regions: seq<Region>, seg: Segment,
                     records: map<int, Segment>, base: int, k: nat)
    requires Physical(H, head, foot) && SegmentsOk(H, regions, seg, records, base) && k < |regions|
    ensures var r := regions[k];
      Bytes(H, r.base, r.end, Live) + Bytes(H, r.base, r.end, Free) + Bytes(H, r.base, r.end,
        Meta) + (r.base + r.size - r.end) == r.size
    ensures k == 0 ==> regions[k].base + regions[k].size - regions[k].end == TOP_FOOT_SIZE
  {
    hide Tagged, Sized, NoAdjacentFree, LiveInside, TopPlaced, NoOverlap, Closed, EndsClear, Positive, MetasOk, Covered,
      Listed, MarksKnown;
    var _ := regions[k];
    assert regions[k].base in H.starts;
    WalkSum(H, regions, k, regions[k].base);
  }

  // ---- when every block has been freed ----

  ghost predicate NoBlocks(H: Heap, r: Region) {
    forall p {:trigger H.kind[p]} :: p in H.size && p in H.kind && r.base <= p < r.end ==> !H.kind[p].Live?
  }

  lemma RegionMarked(H: Heap, regions: seq<Region>, k: nat)
    requires Marked(H, regions) && k < |regions|
    ensures regions[k].base in H.starts && regions[k].end in H.ends
  {
  }

  lemma OnlyStart(H: Heap, regions: seq<Region>, base: int)
    requires Marked(H, regions) && |regions| == 1 && base in H.starts
    ensures regions[0].base == base
  {
  }

  lemma NoBlockAt(H: Heap, r: Region, p: int)
    requires NoBlocks(H, r) && p in H.size && p in H.kind && r.base <= p < r.end
    ensures !H.kind[p].Live?
  {
  }

  ghost predicate IsUsed(H: Heap, p: int) {
    p in H.size && p in H.kind && !H.kind[p].Free?
  }

  /** The chunk after a free chunk that is not top is in use, and in the same region. */
  lemma SuccessorIn(H: Heap, head: map<int, Head>, foot: map<int, int>, regions: seq<Region>, k: nat, p: int)
    requires Physical(H, head, foot) && RegionsOk(regions) && Marked(H, regions) && k < |regions|
    requires IsFree(H, p) && p != H.top && regions[k].base <= p < regions[k].end
    ensures IsUsed(H, EndOf(H, p)) && p < EndOf(H, p) < regions[k].end && EndOf(H, p) !in H.starts
  {
    hide Tagged, Sized, LiveInside, TopPlaced, RegionsOk, Marked;
    WalkStep(H, regions, k, p);
    EndsNotChunks(H.size, H.ends);
    var n := NextOf(H.size, p);
    RegionMarked(H, regions, k);
  }

  /** The allocator's own chunk of a region, other than the malloc_state, ends the region. */
  lemma MetaIsRecord(H: Heap, head: map<int, Head>, foot: map<int, int>, regions: seq<Region>, base: int, k: nat,
                     n: int)
    requires Physical(H, head, foot) && RegionsOk(regions) && Marked(H, regions) && MetasOk(H, regions, base)
      && k < |regions|
    requires n in H.size && n in H.kind && H.kind[n].Meta? && n != base && regions[k].base <= n < regions[k].end
    ensures k > 0 && n == RecordChunk(regions[k]) && EndOf(H, n) == regions[k].end
  {
    hide Tagged, Sized, LiveInside, TopPlaced, NoAdjacentFree, RegionsOk, Marked;
    WalkStep(H, regions, k, n);
    var j :| 1 <= j < |regions| && n == RecordChunk(regions[j]);
    hide Tiled;
    var _ := regions[j];
    SameRegion(regions, j, k, EndOf(H, n));
  }

  /** A free chunk of a region without blocks is its last chunk but for the record. */
  lemma FreeIsLast(H: Heap, head: map<int, Head>, foot: map<int, int>, regions: seq<Region>, base: int, least: int,
                   k: nat, p: int)
    requires Physical(H, head, foot) && RegionsOk(regions) && Marked(H, regions) && MetasOk(H, regions, base)
      && HeapPlaced(H, base, least) && k < |regions|
    requires NoBlocks(H, regions[k]) && IsFree(H, p) && regions[k].base <= p < regions[k].end && p != H.top
    ensures k > 0 && EndOf(H, p) == RecordChunk(regions[k]) && EndOf(H, RecordChunk(regions[k])) == regions[k].end
    ensures !IsFree(H, RecordChunk(regions[k])) && RecordChunk(regions[k]) in H.size
  {
    hide Physical, RegionsOk, Marked, MetasOk;
    SuccessorIn(H, head, foot, regions, k, p);
    var n := EndOf(H, p);
    var _ := H.kind[n];
    MetaIsRecord(H, head, foot, regions, base, k, n);
  }

  /** No free chunk comes after a free chunk of a region without blocks. */
  lemma NoFreeAfter(H: Heap, head: map<int, Head>, foot: map<int, int>, regions: seq<Region>, base: int, least: int,
                    k: nat, p: int, q: int)
    requires Physical(H, head, foot) && RegionsOk(regions) && Marked(H, regions) && MetasOk(H, regions, base)
      && HeapPlaced(H, base, least) && k < |regions|
    requires H.top in H.size && NextOf(H.size, H.top) == regions[0].end
    requires NoBlocks(H, regions[k]) && IsFree(H, p) && regions[k].base <= p < regions[k].end && IsFree(H, q)
      && regions[k].base <= q < regions[k].end
    ensures q <= p
  {
    hide Tagged, Sized, LiveInside, TopPlaced, NoAdjacentFree, RegionsOk, Marked, MetasOk, HeapPlaced, NoBlocks, Closed,
      EndsClear, StartsClear;
    assert 0 < H.size[q] && 0 < H.size[p];
    WalkStep(H, regions, k, p);
    if p != H.top {
      FreeIsLast(H, head, foot, regions, base, least, k, p);
      assert 0 < H.size[RecordChunk(regions[k])];
    } else {
      SameRegion(regions, 0, k, regions[0].end);
    }
  }

  /** Once no block is left in a segment, it has at most one free chunk, top included. */
  lemma OneFreeLeft(H: Heap, head: map<int, Head>, foot: map<int, int>, regions: seq<Region>, base: int, least: int,
                    k: nat, p: int, q: int)
    requires Physical(H, head, foot) && RegionsOk(regions) && Marked(H, regions) && MetasOk(H, regions, base)
      && HeapPlaced(H, base, least) && k < |regions|
    requires H.top in H.size && NextOf(H.size, H.top) == regions[0].end
    requires NoBlocks(H, regions[k]) && IsFree(H, p) && regions[k].base <= p < regions[k].end && IsFree(H, q)
      && regions[k].base <= q < regions[k].end
    ensures p == q
  {
    hide Physical, RegionsOk, Marked, MetasOk, HeapPlaced, NoBlocks;
    NoFreeAfter(H, head, foot, regions, base, least, k, p, q);
    NoFreeAfter(H, head, foot, regions, base, least, k, q, p);
  }

  /** With one segment and no block left, top is back to everything behind the malloc_state. */
  lemma AllFreed(H: Heap, head: map<int, Head>, foot: map<int, int>, regions: seq<Region>, base: int, least: int)
    requires Physical(H, head, foot) && RegionsOk(regions) && Marked(H, regions) && MetasOk(H, regions, base)
      && HeapPlaced(H, base, least)
    requires |regions| == 1 && NoBlocks(H, regions[0]) && Covered(H.size, regions)
      && NextOf(H.size, H.top) == regions[0].end
    ensures regions[0].base == base && H.top == base + STATE_CHUNK
      && H.size[H.top] == regions[0].end - (base + STATE_CHUNK)
  {
    hide Tagged, Sized, LiveInside, NoAdjacentFree, RegionsOk, Closed, EndsClear, StartsClear, Covered, MetasOk,
      NoBlocks, Marked;
    OnlyStart(H, regions, base);
    var k := WhichRegion(H.size, regions, base);
    var j := WhichRegion(H.size, regions, H.top);
    assert H.size[base] > 0 && H.size[H.top] > 0;
    WalkStep(H, regions, 0, base);
    var n := base + STATE_CHUNK;
    if n != regions[0].end {
      NoBlockAt(H, regions[0], n);
      if H.kind[n].Meta? { MetaIsRecord(H, head, foot, regions, base, 0, n); }
      if n != H.top { FreeIsLast(H, head, foot, regions, base, least, 0, n); }
    }
  }

  lemma NothingHanded(H: Heap, r: Region)
    requires Handed(H) == map[]
    ensures NoBlocks(H, r)
  {
    forall p {:trigger H.kind[p]} | p in H.size && p in H.kind && r.base <= p < r.end ensures !H.kind[p].Live? {
      assert p !in Handed(H);
    }
  }
}
