/** The space that init_user_mstate lays out. */
module Creation {
  import opened ChunkLayout
  import opened BoundaryTags
  import opened BinStore
  import opened Segments
  import opened HeapSteps

  /** align_as_chunk. */
  function AlignUp(a: int): int { RoundDown(a + 7) }

  /** The usable size of an extern region: whole alignment units from the first aligned address. */
  function AlignedSize(tbase: int, tsize: int): int { RoundDown(tsize - (AlignUp(tbase) - tbase)) }

  /** What is left for top once the malloc_state and the foot of the segment are placed. */
  function TopRoom(tbase: int, tsize: int): int { AlignedSize(tbase, tsize) - STATE_CHUNK - TOP_FOOT_SIZE }

  function InitialHeap(base: int, topsize: int): Heap {
    var mn := base + STATE_CHUNK;
    Heap(map[base := STATE_CHUNK, mn := topsize], map[base := Meta, mn := Free], {base}, {mn + topsize}, mn)
  }

  lemma InitialFacts(base: int, topsize: int)
    ensures var H := InitialHeap(base, topsize); var mn := base + STATE_CHUNK;
      && H.size.Keys == {base, mn} == H.kind.Keys && H.starts == {base} && H.ends == {mn + topsize} && H.top == mn
      && mn > base && H.size[base] == STATE_CHUNK && H.size[mn] == topsize && H.kind[base].Meta? && H.kind[mn].Free?
  {
  }

  lemma InitialShape(base: int, topsize: int)
    requires 0 < base && base % 8 == 0 && 8 <= topsize && topsize % 8 == 0
    ensures var H := InitialHeap(base, topsize);
      Tiled(H.size, H.starts, H.ends) && Sized(H.size, H.top) && NoAdjacentFree(H.size, H.kind, H.top)
        && LiveInside(H.size, H.kind) && TopPlaced(H)
  {
    hide InitialHeap;
    InitialFacts(base, topsize);
    var H := InitialHeap(base, topsize);
    TwoChunks(H.size, base, base + STATE_CHUNK, topsize);
    hide Tiled;
  }

  /** Two chunks, one after the other, tile a segment. */
  lemma TwoChunks(size: map<int, int>, p: int, q: int, n: int)
    requires 0 < p < q && 0 < n && size.Keys == {p, q} && size[p] == q - p && size[q] == n
    ensures Tiled(size, {p}, {q + n})
  {
  }

  lemma InitialTags(base: int, topsize: int, head: map<int, Head>)
    requires 0 < base && 8 <= topsize
    requires var mn := base + STATE_CHUNK;
      head == map[base := Head(STATE_CHUNK, true, true), mn := Head(topsize, true, false),
        mn + topsize := Head(TOP_FOOT_SIZE, false, false)]
    ensures var H := InitialHeap(base, topsize); Tagged(H.size, H.kind, H.starts, H.top, head, map[])
  {
  }

  lemma OneRegion(H: Heap, regions: seq<Region>, base: int)
    requires |regions| == 1 && H.starts == {regions[0].base} && H.ends == {regions[0].end} && H.size.Keys == H.kind.Keys
    requires forall p {:trigger NextOf(H.size, p)} ::
      p in H.size ==> regions[0].base <= p && NextOf(H.size, p) <= regions[0].end
    requires forall p {:trigger H.kind[p]} :: p in H.kind && H.kind[p].Meta? ==> p == base
    ensures Marked(H, regions) && Covered(H.size, regions) && MetasOk(H, regions, base)
  {
    forall p {:trigger NextOf(H.size, p)} | p in H.size
      ensures exists k :: 0 <= k < |regions| && regions[k].base <= p && NextOf(H.size, p) <= regions[k].end
    {
      var e := NextOf(H.size, p);
      assert regions[0].base <= p && e <= regions[0].end;
    }
  }

  lemma RegionOk(regions: seq<Region>)
    requires |regions| == 1
    requires var r := regions[0];
      0 < r.base && r.base < r.end && r.base + r.size <= SIZE_T_RANGE && r.base % 8 == 0 && r.size % 8 == 0
    requires regions[0].end + TOP_FOOT_SIZE == regions[0].base + regions[0].size
    ensures RegionsOk(regions) && Listed(regions, Segment(regions[0].base, regions[0].size, 0), map[])
  {
  }

  lemma InitialSegments(base: int, topsize: int, regions: seq<Region>, seg: Segment)
    requires 0 < base && base % 8 == 0 && 8 <= topsize && topsize % 8 == 0
    requires var mn := base + STATE_CHUNK; var size := STATE_CHUNK + topsize + TOP_FOOT_SIZE;
      && base + size <= SIZE_T_RANGE && seg == Segment(base, size, 0) && |regions| == 1
         && regions[0] == Region(base, size, mn + topsize)
    ensures SegmentsOk(InitialHeap(base, topsize), regions, seg, map[], base)
  {
    hide Marked, Covered, MetasOk, RegionsOk, Listed, InitialHeap, SegmentsOk;
    InitialFacts(base, topsize);
    var H := InitialHeap(base, topsize);
    OneRegion(H, regions, base);
    RegionOk(regions);
    SegmentsGlue(H, regions, seg, map[], base);
  }

  lemma SegmentsGlue(H: Heap, regions: seq<Region>, seg: Segment, records: map<int, Segment>, base: int)
    requires |regions| > 0 && RegionsOk(regions) && Listed(regions, seg, records) && Marked(H, regions)
      && MetasOk(H, regions, base)
    requires Covered(H.size, regions) && H.top in H.size && regions[0].end == NextOf(H.size, H.top)
    ensures SegmentsOk(H, regions, seg, records, base)
  {
  }

  lemma AlignFacts(tbase: int, tsize: int)
    ensures tbase <= AlignUp(tbase) < tbase + 8 && AlignUp(tbase) % 8 == 0
    ensures AlignUp(tbase) + AlignedSize(tbase, tsize) <= tbase + tsize < AlignUp(tbase) + AlignedSize(tbase, tsize) + 8
    ensures AlignedSize(tbase, tsize) % 8 == 0 && TopRoom(tbase, tsize) % 8 == 0
  {
  }

  lemma InitialSpace(base: int, topsize: int, head: map<int, Head>, foot: map<int, int>, regions: seq<Region>,
                     seg: Segment, records: map<int, Segment>)
    requires 0 < base && base % 8 == 0 && 8 <= topsize && topsize % 8 == 0 && foot == map[] && records == map[]
    requires var mn := base + STATE_CHUNK; var size := STATE_CHUNK + topsize + TOP_FOOT_SIZE;
      && base + size <= SIZE_T_RANGE && seg == Segment(base, size, 0) && regions == [Region(base, size, mn + topsize)]
      && head == map[base := Head(STATE_CHUNK, true, true), mn := Head(topsize, true, false),
         mn + topsize := Head(TOP_FOOT_SIZE, false, false)]
    ensures SpaceOk(InitialHeap(base, topsize), head, foot, base, base, regions, seg, records, 0, {}, map[])
  {
    hide Tiled, Sized, NoAdjacentFree, LiveInside, Tagged, SegmentsOk, TopPlaced;
    InitialShape(base, topsize);
    InitialTags(base, topsize, head);
    InitialSegments(base, topsize, regions, seg);
  }

  /** The capacity test of create_mspace_with_base. */
  predicate Accepts(capacity: int, pageSize: int) {
    STATE_CHUNK + TOP_FOOT_SIZE < capacity < SIZE_T_RANGE - (STATE_CHUNK + TOP_FOOT_SIZE + pageSize)
  }

  /** An accepted capacity leaves a top chunk inside the address space exactly when eight bytes are left for it. */
  lemma CreateExact(tbase: int, capacity: int, pageSize: int)
    requires Accepts(capacity, pageSize) && 0 <= pageSize && 0 < tbase && tbase + capacity <= SIZE_T_RANGE
    ensures var psize := TopRoom(tbase, capacity) % SIZE_T_RANGE;
      0 < psize && AlignUp(tbase) + STATE_CHUNK + psize <= SIZE_T_RANGE <==> TopRoom(tbase, capacity) >= 8
    ensures TopRoom(tbase, capacity) >= 8 <==> STATE_CHUNK + TOP_FOOT_SIZE + 8 <= capacity - (AlignUp(tbase) - tbase)
  {
    AlignFacts(tbase, capacity);
    WrapSmall(TopRoom(tbase, capacity));
  }

  lemma WrapSmall(x: int)
    requires -SIZE_T_RANGE < x < SIZE_T_RANGE
    ensures x % SIZE_T_RANGE == if 0 <= x then x else x + SIZE_T_RANGE
  {
  }

  /** The test lets capacities through that leave nothing for top, or less than nothing when the base is not aligned. */
  lemma CreateGap(tbase: int)
    requires tbase % 8 == 0
    ensures var capacity := STATE_CHUNK + TOP_FOOT_SIZE + 1;
      Accepts(capacity, 4096) && TopRoom(tbase, capacity) == 0 && TopRoom(tbase + 1, capacity) == -8
  {
  }

  /** mspace_add_segment tests no size: the new top lies inside the region exactly when eight bytes are left for it. */
  lemma AddExact(start: int, size: int)
    requires 0 < start && 0 <= size && start + size <= SIZE_T_RANGE
    ensures var psize := (AlignedSize(start, size) - TOP_FOOT_SIZE) % SIZE_T_RANGE;
      0 < psize && AlignUp(start) + psize + TOP_FOOT_SIZE <= start + size
      <==> TOP_FOOT_SIZE + 8 <= AlignedSize(start, size)
    ensures TOP_FOOT_SIZE + 8 <= AlignedSize(start, size) <==> TOP_FOOT_SIZE + 8 <= size - (AlignUp(start) - start)
  {
    AlignFacts(start, size);
    WrapSmall(AlignedSize(start, size) - TOP_FOOT_SIZE);
  }

  /** A region of 32 bytes: its top would have nearly every address there is. */
  lemma AddGap(start: int)
    requires 0 < start && start % 8 == 0 && start + 32 <= SIZE_T_RANGE
    ensures (AlignedSize(start, 32) - TOP_FOOT_SIZE) % SIZE_T_RANGE > SIZE_T_RANGE - TOP_FOOT_SIZE
  {
    AlignFacts(start, 32);
    WrapSmall(AlignedSize(start, 32) - TOP_FOOT_SIZE);
  }
}
