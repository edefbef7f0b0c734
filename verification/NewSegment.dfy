/** The list of segments when add_segment pushes a new one. */
module NewSegment {
  import opened ChunkLayout
  import opened BoundaryTags
  import opened Segments
  import opened HeapSteps
  import opened ChunkSteps
  import opened Growth

  /** [tbase, tbase + tsize) meets no segment of the space. */
  ghost predicate Apart(regions: seq<Region>, tbase: int, tsize: int) {
    forall k {:trigger regions[k]} :: 0 <= k < |regions| ==>
      regions[k].base + regions[k].size <= tbase || tbase + tsize <= regions[k].base
  }

  predicate AlignedRegion(tbase: int, tsize: int) {
    0 < tbase && tbase % 8 == 0 && tsize % 8 == 0 && TOP_FOOT_SIZE + 8 <= tsize && tbase + tsize <= SIZE_T_RANGE
  }

  lemma WhichRegion(size: map<int, int>, regions: seq<Region>, p: int) returns (k: nat)
    requires Covered(size, regions) && p in size
    ensures k < |regions| && regions[k].base <= p && p + size[p] <= regions[k].end
  {
    var n := NextOf(size, p);
    k :| 0 <= k < |regions| && regions[k].base <= p && n <= regions[k].end;
  }

  lemma WhichEnd(H: Heap, regions: seq<Region>, e: int) returns (k: nat)
    requires Marked(H, regions) && e in H.ends
    ensures k < |regions| && regions[k].end == e
  {
    hide RegionsMarked;
    k :| 0 <= k < |regions| && regions[k].end == e;
  }

  /** The first region, up to its foot, against any other. */
  lemma FirstAgainst(regions: seq<Region>, k: nat)
    requires RegionsOk(regions) && k < |regions|
    ensures regions[0].base < regions[0].end
      && regions[0].end + TOP_FOOT_SIZE == regions[0].base + regions[0].size <= SIZE_T_RANGE
    ensures regions[k].base < regions[k].end < regions[k].base + regions[k].size
    ensures k == 0 || regions[k].base + regions[k].size <= regions[0].base
      || regions[0].base + regions[0].size <= regions[k].base
  {
  }

  lemma TopInFirst(H: Heap, regions: seq<Region>)
    requires RegionsOk(regions) && Covered(H.size, regions) && Positive(H.size) && H.top in H.size
      && regions[0].end == NextOf(H.size, H.top)
    ensures regions[0].base <= H.top < regions[0].end
      && regions[0].end + TOP_FOOT_SIZE == regions[0].base + regions[0].size <= SIZE_T_RANGE
  {
    assert 0 < H.size[H.top];
    hide RegionsOk, Covered, Positive;
    var k := WhichRegion(H.size, regions, H.top);
    FirstAgainst(regions, k);
  }

  lemma FindZone(H: Heap, regions: seq<Region>)
    requires |regions| > 0 && RegionsOk(regions) && Covered(H.size, regions) && Marked(H, regions)
    ensures ZoneClear(H, regions[0].end, regions[0].end + TOP_FOOT_SIZE)
  {
    hide RegionsOk, Covered, Marked;
    var e := regions[0].end;
    forall p {:trigger H.size[p]} | p in H.size ensures p + H.size[p] <= e || e + TOP_FOOT_SIZE <= p {
      var k := WhichRegion(H.size, regions, p);
      FirstAgainst(regions, k);
    }
    forall x {:trigger x in H.ends} | x in H.ends ensures x <= e || e + TOP_FOOT_SIZE <= x {
      var k := WhichEnd(H, regions, x);
      FirstAgainst(regions, k);
    }
  }

  lemma NewAgainst(regions: seq<Region>, tbase: int, tsize: int, k: nat)
    requires RegionsOk(regions) && Apart(regions, tbase, tsize) && k < |regions|
    ensures (regions[k].base < regions[k].end < tbase) || tbase + tsize <= regions[k].base < regions[k].end
  {
    var _ := regions[k];
  }

  lemma FindNew(H: Heap, regions: seq<Region>, tbase: int, tsize: int)
    requires RegionsOk(regions) && Covered(H.size, regions) && Marked(H, regions) && Apart(regions, tbase, tsize)
    ensures NewClear(H, tbase, tbase + tsize)
  {
    hide RegionsOk, Covered, Marked, Apart;
    forall p {:trigger H.size[p]} | p in H.size ensures p + H.size[p] < tbase || tbase + tsize <= p {
      var k := WhichRegion(H.size, regions, p);
      NewAgainst(regions, tbase, tsize, k);
    }
    forall x {:trigger x in H.ends} | x in H.ends ensures x < tbase || tbase + tsize <= x {
      var k := WhichEnd(H, regions, x);
      NewAgainst(regions, tbase, tsize, k);
    }
  }

  /** csp: behind the old top, or in its place. */
  function RecordSpot(top: int, end: int): int {
    if end < top + MIN_CHUNK_SIZE then top else end
  }

  lemma SegmentFits(H: Heap, regions: seq<Region>, seg: Segment, records: map<int, Segment>, base: int, tbase: int,
                    tsize: int)
    requires SegmentsOk(H, regions, seg, records, base) && Positive(H.size) && Apart(regions, tbase, tsize)
      && AlignedRegion(tbase, tsize)
    ensures MayExtend(H, RecordSpot(H.top, regions[0].end), tbase, tsize - TOP_FOOT_SIZE)
    ensures regions[0].base <= H.top < regions[0].end
      && regions[0].end + TOP_FOOT_SIZE == regions[0].base + regions[0].size <= SIZE_T_RANGE
    ensures regions[0].end == EndOf(H, H.top)
  {
    hide MetasOk, Listed, Marked, Covered, ZoneClear, NewClear, RegionsOk, Positive;
    TopInFirst(H, regions);
    FindZone(H, regions);
    FindNew(H, regions, tbase, tsize);
    hide SegmentsOk;
    assert regions[0].base + regions[0].size <= tbase || tbase + tsize <= regions[0].base;
  }

  /** Where add_segment puts the record: align_as_chunk of the room before the end, unless old top is too small. */
  method PlaceRecord(old_top: int, old_end: int) returns (csp: int)
    requires old_end % 8 == 0
    ensures csp == RecordSpot(old_top, old_end - TOP_FOOT_SIZE)
  {
    var rawsp := old_end - (SEGMENT_CHUNK + 4 * W + 7);
    var offset := (8 - Chunk2Mem(rawsp) % 8) % 8;
    RecordAligned(old_end);
    var asp := rawsp + offset;
    csp := if asp < old_top + MIN_CHUNK_SIZE then old_top else asp;
  }

  function ExtendedRegions(regions: seq<Region>, c: int, tbase: int, tsize: int): seq<Region>
    requires |regions| > 0
  {
    [Region(tbase, tsize, tbase + tsize - TOP_FOOT_SIZE),
      Region(regions[0].base, regions[0].size, c + SEGMENT_CHUNK)] + regions[1..]
  }

  lemma RegionAt(regions: seq<Region>, c: int, tbase: int, tsize: int)
    requires |regions| > 0
    ensures var r' := ExtendedRegions(regions, c, tbase, tsize);
      && |r'| == |regions| + 1 && r'[0] == Region(tbase, tsize, tbase + tsize - TOP_FOOT_SIZE)
      && r'[1] == Region(regions[0].base, regions[0].size, c + SEGMENT_CHUNK)
      && (forall k {:trigger r'[k]} :: 2 <= k < |r'| ==> r'[k] == regions[k - 1])
  {
  }

  lemma NewRegionsOk(regions: seq<Region>, c: int, tbase: int, tsize: int)
    requires RegionsOk(regions) && Apart(regions, tbase, tsize) && AlignedRegion(tbase, tsize)
    requires regions[0].base <= c < c + SEGMENT_CHUNK < regions[0].end + TOP_FOOT_SIZE
    ensures RegionsOk(ExtendedRegions(regions, c, tbase, tsize))
  {
    RegionAt(regions, c, tbase, tsize);
    hide ExtendedRegions;
  }

  lemma NewListed(H: Heap, regions: seq<Region>, seg: Segment, records: map<int, Segment>, base: int, c: int,
                  tbase: int, tsize: int)
    requires Listed(regions, seg, records) && MetasOk(H, regions, base)
      && (c !in H.size || (c in H.kind && !H.kind[c].Meta?))
    ensures Listed(ExtendedRegions(regions, c, tbase, tsize), Segment(tbase, tsize, Chunk2Mem(c)),
      records[Chunk2Mem(c) := seg])
  {
    RegionAt(regions, c, tbase, tsize);
    var r' := ExtendedRegions(regions, c, tbase, tsize);
    hide ExtendedRegions;
    var records' := records[Chunk2Mem(c) := seg];
    forall k {:trigger r'[k]} | 1 <= k < |r'|
      ensures RecordAt(r'[k]) in records'
        && records'[RecordAt(r'[k])] == Segment(r'[k].base, r'[k].size, NextPtr(r', k))
    {
      if k > 1 {
        var _ := regions[k - 1];
        assert RecordChunk(regions[k - 1]) in H.size;
      }
      if k + 1 < |r'| { var _ := r'[k + 1]; var _ := regions[k]; }
    }
  }

  lemma NewMarksKnown(H: Heap, regions: seq<Region>, c: int, tbase: int, tsize: int)
    requires MarksKnown(H, regions) && |regions| > 0 && regions[0].end == EndOf(H, H.top)
      && MayExtend(H, c, tbase, tsize - TOP_FOOT_SIZE) && Positive(H.size)
    ensures MarksKnown(Extended(H, c, tbase, tsize - TOP_FOOT_SIZE), ExtendedRegions(regions, c, tbase, tsize))
  {
    RegionAt(regions, c, tbase, tsize);
    ExtendedAt(H, c, tbase, tsize - TOP_FOOT_SIZE);
    var r' := ExtendedRegions(regions, c, tbase, tsize);
    var H' := Extended(H, c, tbase, tsize - TOP_FOOT_SIZE);
    hide ExtendedRegions, Extended, MayExtend, Positive;
    forall s {:trigger s in H'.starts} | s in H'.starts ensures exists k :: 0 <= k < |r'| && r'[k].base == s {
      if s == tbase {
        assert r'[0].base == s;
      } else {
        var k :| 0 <= k < |regions| && regions[k].base == s;
        assert r'[k + 1].base == s;
      }
    }
    forall e {:trigger e in H'.ends} | e in H'.ends ensures exists k :: 0 <= k < |r'| && r'[k].end == e {
      if e == c + SEGMENT_CHUNK {
        assert r'[1].end == e;
      } else if e == tbase + (tsize - TOP_FOOT_SIZE) {
        assert r'[0].end == e;
      } else {
        var k :| 0 <= k < |regions| && regions[k].end == e;
        assert r'[k + 1].end == e;
      }
    }
  }

  lemma NewRegionsMarked(H: Heap, regions: seq<Region>, c: int, tbase: int, tsize: int)
    requires RegionsMarked(H, regions) && |regions| > 0 && regions[0].end == EndOf(H, H.top)
      && MayExtend(H, c, tbase, tsize - TOP_FOOT_SIZE) && Positive(H.size)
    requires forall k {:trigger regions[k]} :: 1 <= k < |regions| ==> regions[k].end != regions[0].end
    ensures RegionsMarked(Extended(H, c, tbase, tsize - TOP_FOOT_SIZE), ExtendedRegions(regions, c, tbase, tsize))
  {
    RegionAt(regions, c, tbase, tsize);
    ExtendedAt(H, c, tbase, tsize - TOP_FOOT_SIZE);
    var r' := ExtendedRegions(regions, c, tbase, tsize);
    var H' := Extended(H, c, tbase, tsize - TOP_FOOT_SIZE);
    hide ExtendedRegions, Extended, MayExtend, Positive;
    forall k {:trigger r'[k]} | 0 <= k < |r'| ensures r'[k].base in H'.starts && r'[k].end in H'.ends {
      if k > 1 { var _ := regions[k - 1]; }
      if k == 1 { var _ := regions[0]; }
    }
  }

  lemma NewMetas(H: Heap, regions: seq<Region>, base: int, c: int, tbase: int, tsize: int)
    requires MetasOk(H, regions, base) && |regions| > 0 && MayExtend(H, c, tbase, tsize - TOP_FOOT_SIZE)
      && Positive(H.size) && H.size.Keys == H.kind.Keys
    requires H.kind[H.top].Free?
    ensures MetasOk(Extended(H, c, tbase, tsize - TOP_FOOT_SIZE), ExtendedRegions(regions, c, tbase, tsize), base)
  {
    RegionAt(regions, c, tbase, tsize);
    ExtendedAt(H, c, tbase, tsize - TOP_FOOT_SIZE);
    ExtendedKinds(H, c, tbase, tsize - TOP_FOOT_SIZE);
    var r' := ExtendedRegions(regions, c, tbase, tsize);
    var H' := Extended(H, c, tbase, tsize - TOP_FOOT_SIZE);
    hide ExtendedRegions, Extended, MayExtend, Positive;
    forall k {:trigger r'[k]} | 1 <= k < |r'|
      ensures RecordChunk(r'[k]) in H'.size && H'.size[RecordChunk(r'[k])] == SEGMENT_CHUNK
        && RecordChunk(r'[k]) in H'.kind && H'.kind[RecordChunk(r'[k])].Meta?
    {
      if k > 1 {
        var q := RecordChunk(regions[k - 1]);
        assert H.kind[q].Meta?;
        var _ := H'.kind[q];
        var _ := H'.size[q];
      } else {
        var _ := H'.kind[c];
        var _ := H'.size[c];
      }
    }
    forall p {:trigger H'.kind[p]} | p in H'.kind && H'.kind[p].Meta?
      ensures p == base || exists k :: 1 <= k < |r'| && p == RecordChunk(r'[k]) {
      if p == c {
        assert p == RecordChunk(r'[1]);
      } else {
        var _ := H.kind[p];
        if p != base {
          var k :| 1 <= k < |regions| && p == RecordChunk(regions[k]);
          assert p == RecordChunk(r'[k + 1]);
        }
      }
    }
  }

  lemma NewCovered(H: Heap, regions: seq<Region>, c: int, tbase: int, tsize: int)
    requires Covered(H.size, regions) && |regions| > 0 && MayExtend(H, c, tbase, tsize - TOP_FOOT_SIZE)
      && Positive(H.size)
    requires regions[0].end == EndOf(H, H.top) && regions[0].base <= c
    ensures Covered(Extended(H, c, tbase, tsize - TOP_FOOT_SIZE).size, ExtendedRegions(regions, c, tbase, tsize))
  {
    RegionAt(regions, c, tbase, tsize);
    ExtendedAt(H, c, tbase, tsize - TOP_FOOT_SIZE);
    var r' := ExtendedRegions(regions, c, tbase, tsize);
    var H' := Extended(H, c, tbase, tsize - TOP_FOOT_SIZE);
    hide ExtendedRegions, Extended, MayExtend, Positive;
    forall p {:trigger NextOf(H'.size, p)} | p in H'.size
      ensures exists k :: 0 <= k < |r'| && r'[k].base <= p && NextOf(H'.size, p) <= r'[k].end {
      var n := NextOf(H'.size, p);
      if p == tbase {
        assert r'[0].base <= p && n <= r'[0].end;
      } else if p == c {
        assert r'[1].base <= p && n <= r'[1].end;
      } else {
        var k := WhichRegion(H.size, regions, p);
        assert r'[k + 1].base <= p && n <= r'[k + 1].end;
      }
    }
  }

  lemma EndsDiffer(regions: seq<Region>)
    requires RegionsOk(regions)
    ensures forall k {:trigger regions[k]} :: 1 <= k < |regions| ==> regions[k].end != regions[0].end
  {
    forall k {:trigger regions[k]} | 1 <= k < |regions|
      ensures regions[k].end != regions[0].end { FirstAgainst(regions, k); }
  }

  lemma NewSegments(H: Heap, regions: seq<Region>, seg: Segment, records: map<int, Segment>, base: int, c: int,
                    tbase: int, tsize: int)
    requires SegmentsOk(H, regions, seg, records, base) && Positive(H.size) && H.size.Keys == H.kind.Keys
      && Apart(regions, tbase, tsize)
    requires AlignedRegion(tbase, tsize) && c == RecordSpot(H.top, regions[0].end) && H.kind[H.top].Free?
    ensures SegmentsOk(Extended(H, c, tbase, tsize - TOP_FOOT_SIZE), ExtendedRegions(regions, c, tbase, tsize),
                       Segment(tbase, tsize, Chunk2Mem(c)), records[Chunk2Mem(c) := seg], base)
  {
    hide RegionsOk, Listed, RegionsMarked, MarksKnown, MetasOk, Covered, Apart, AlignedRegion, MayExtend, Extended,
      ExtendedRegions, Positive;
    SegmentFits(H, regions, seg, records, base, tbase, tsize);
    ExtendedAt(H, c, tbase, tsize - TOP_FOOT_SIZE);
    RegionAt(regions, c, tbase, tsize);
    EndsDiffer(regions);
    NewRegionsOk(regions, c, tbase, tsize);
    NewListed(H, regions, seg, records, base, c, tbase, tsize);
    NewMarksKnown(H, regions, c, tbase, tsize);
    NewRegionsMarked(H, regions, c, tbase, tsize);
    NewMetas(H, regions, base, c, tbase, tsize);
    NewCovered(H, regions, c, tbase, tsize);
  }

  /** The whole space after add_segment; the old top, if it is still a chunk, is in hand. */
  lemma ExtendSpace(H: Heap, head: map<int, Head>, foot: map<int, int>, base: int, least: int, regions: seq<Region>,
                    seg: Segment, records: map<int, Segment>,
                    dv: int, dvsize: int, binned: map<int, int>, c: int, tbase: int, tsize: int, head': map<int, Head>,
                      foot': map<int, int>)
    requires SpaceOk(H, head, foot, base, least, regions, seg, records, dv, {}, binned) && DvOk(H, dv, dvsize)
      && least <= tbase
    requires |regions| > 0 && Apart(regions, tbase, tsize) && AlignedRegion(tbase, tsize)
      && c == RecordSpot(H.top, regions[0].end)
    requires ExtendedWords(H, c, tbase, tsize - TOP_FOOT_SIZE, head, foot, head', foot')
    ensures var H' := Extended(H, c, tbase, tsize - TOP_FOOT_SIZE);
      && SpaceOk(H', head', foot', base, least, ExtendedRegions(regions, c, tbase, tsize),
         Segment(tbase, tsize, Chunk2Mem(c)),
                 records[Chunk2Mem(c) := seg], dv, if c == H.top then {} else {H.top}, binned)
      && DvOk(H', dv, dvsize) && TopCached(H', tbase, tsize - TOP_FOOT_SIZE)
  {
    hide HeapPlaced, BinnedExactly, Apart, MayExtend, Extended, ExtendedRegions, ExtendedWords, Physical, SegmentsOk;
    SpacePhysical(H, head, foot, base, least, regions, seg, records, dv, {}, binned);
    TopFacts(H, head, foot);
    ChunksPositive(H, head, foot);
    SegmentFits(H, regions, seg, records, base, tbase, tsize);
    ExtendPhysical(H, c, tbase, tsize - TOP_FOOT_SIZE, head, foot, head', foot');
    LeastFacts(H, base, least);
    ExtendPlaced(H, c, tbase, tsize - TOP_FOOT_SIZE, base, least, least);
    NewSegments(H, regions, seg, records, base, c, tbase, tsize);
    ExtendCaches(H, c, tbase, tsize - TOP_FOOT_SIZE, dv, dvsize);
    ExtendBinned(H, c, tbase, tsize - TOP_FOOT_SIZE, dv, binned);
  }

  lemma ChunksPositive(H: Heap, head: map<int, Head>, foot: map<int, int>)
    requires Physical(H, head, foot)
    ensures Positive(H.size)
  {
  }

  lemma LeastFacts(H: Heap, base: int, least: int)
    requires HeapPlaced(H, base, least)
    ensures 0 < least
  {
  }

  /** least_addr may only go down. */
  lemma LowerLeast(H: Heap, base: int, least: int, least': int)
    requires HeapPlaced(H, base, least) && 0 < least' <= least
    ensures HeapPlaced(H, base, least')
  {
  }

  /** The record goes exactly where the fake chunk after top was. */
  lemma RecordAligned(old_end: int)
    requires old_end % 8 == 0
    ensures var rawsp := old_end - (SEGMENT_CHUNK + 4 * W + 7);
      rawsp + (8 - Chunk2Mem(rawsp) % 8) % 8 == old_end - TOP_FOOT_SIZE
  {
  }

  /** The records of the retired segments are not at address 0. */
  ghost predicate RecordsReal(regions: seq<Region>) {
    forall k {:trigger regions[k]} :: 1 <= k < |regions| ==> RecordAt(regions[k]) != 0
  }

  lemma RecordsAreReal(H: Heap, regions: seq<Region>, base: int, least: int)
    requires MetasOk(H, regions, base) && HeapPlaced(H, base, least)
    ensures RecordsReal(regions)
  {
    forall k {:trigger regions[k]} | 1 <= k < |regions|
      ensures RecordAt(regions[k]) != 0 { var _ := H.size[RecordChunk(regions[k])]; }
  }

  /** segment_holding: the first segment on the list that holds addr. */
  method SegmentHolding(seg: Segment, records: map<int, Segment>, addr: int, ghost regions: seq<Region>)
    returns (found: bool, sp: Segment, ghost k: nat)
    requires Listed(regions, seg, records) && RecordsReal(regions)
    ensures found ==>
      k < |regions| && sp.base == regions[k].base && sp.size == regions[k].size && sp.base <= addr < sp.base + sp.size
    ensures found <==> exists j :: 0 <= j < |regions| && regions[j].base <= addr < regions[j].base + regions[j].size
  {
    sp := seg;
    k := 0;
    while true
      invariant k < |regions| && sp == Segment(regions[k].base, regions[k].size, NextPtr(regions, k))
      invariant forall j {:trigger regions[j]} ::
        0 <= j < k ==> !(regions[j].base <= addr < regions[j].base + regions[j].size)
      decreases |regions| - k
    {
      if addr >= sp.base && addr < sp.base + sp.size { return true, sp, k; }
      if k + 1 < |regions| { var _ := regions[k + 1]; }
      if sp.next == 0 { return false, sp, k; }
      sp := records[sp.next];
      k := k + 1;
    }
  }

  /** Top is in the first region, in no other, and ends where that region's chunks stop. */
  ghost predicate TopHeld(regions: seq<Region>, top: int, topsize: int) {
    && |regions| > 0 && regions[0].base <= top < regions[0].end == top + topsize
    && regions[0].end + TOP_FOOT_SIZE == regions[0].base + regions[0].size
    && forall k: nat {:trigger regions[k]} ::
       k < |regions| && regions[k].base <= top < regions[k].base + regions[k].size ==> k == 0
  }

  ghost predicate HeadIs(head: map<int, Head>, p: int, h: Head) {
    p in head && head[p] == h
  }

  lemma TopHolder(H: Heap, regions: seq<Region>, seg: Segment, records: map<int, Segment>, base: int, k: nat)
    requires SegmentsOk(H, regions, seg, records, base) && Positive(H.size) && k < |regions|
    requires regions[k].base <= H.top < regions[k].base + regions[k].size
    ensures k == 0
  {
    hide MetasOk, Listed, Marked;
    TopInFirst(H, regions);
    FirstAgainst(regions, k);
  }

  /** The k-th fencepost from p on. */
  function Fencepost(p: int, k: nat): int { p + k * W }

  /** The first n of them have the fencepost's word. */
  ghost predicate Fenced(head: map<int, Head>, p: int, n: nat) {
    forall k: nat {:trigger Fencepost(p, k)} ::
      k < n ==> Fencepost(p, k) in head && head[Fencepost(p, k)] == Head(W, true, true)
  }

  /** As many as fit before end. */
  ghost predicate FencedUpTo(head: map<int, Head>, p: int, end: int) {
    exists n: nat {:trigger Fenced(head, p, n)} :: Fenced(head, p, n) && Fencepost(p, n) < end <= Fencepost(p, n) + W
  }

  lemma NoFences(head: map<int, Head>, p: int)
    ensures Fenced(head, p, 0)
  {
  }

  lemma OneMoreFence(head: map<int, Head>, p: int, n: nat)
    requires Fenced(head, p, n)
    ensures Fenced(head[Fencepost(p, n) := Head(W, true, true)], p, n + 1)
  {
  }

  lemma LastFence(head: map<int, Head>, p: int, n: nat, end: int)
    requires Fenced(head, p, n) && 0 < n && Fencepost(p, n - 1) + W < end <= Fencepost(p, n - 1) + 2 * W
    ensures FencedUpTo(head, p, end)
  {
    assert Fencepost(p, n) == Fencepost(p, n - 1) + W;
  }

  lemma FirstFence(head: map<int, Head>, p: int, end: int)
    requires FencedUpTo(head, p, end) && p + 2 * W < end
    ensures p in head && head[p] == Head(W, true, true)
  {
    var n: nat :| Fenced(head, p, n) && Fencepost(p, n) < end <= Fencepost(p, n) + W;
    assert n > 0;
    assert Fencepost(p, 0) == p;
  }

  lemma FencesStay(head: map<int, Head>, head': map<int, Head>, p: int, end: int)
    requires FencedUpTo(head, p, end)
    requires forall x {:trigger x in head'} {:trigger head'[x]} ::
      x in head && p <= x ==> x in head' && head'[x] == head[x]
    ensures FencedUpTo(head', p, end)
  {
    var n: nat :| Fenced(head, p, n) && Fencepost(p, n) < end <= Fencepost(p, n) + W;
    forall k: nat {:trigger Fencepost(p, k)} | k < n
      ensures Fencepost(p, k) in head' && head'[Fencepost(p, k)] == Head(W, true, true) { }
    assert Fenced(head', p, n);
  }

  /** The words add_segment writes: head1 once the new top and the record are set, head2 once the fenceposts are. */
  lemma WordsExtended(H: Heap, c: int, tbase: int, psize: int, head: map<int, Head>, foot: map<int, int>,
                      head1: map<int, Head>, head2: map<int, Head>, head': map<int, Head>, foot': map<int, int>)
    requires MayExtend(H, c, tbase, psize)
    requires var t, e := H.top, EndOf(H, H.top); t in head && head[t] == Head(e - t, true, false)
    requires head1 ==
      head[tbase := Head(psize, true, false)][tbase + psize := Head(TOP_FOOT_SIZE, false,
      false)][c := Head(SEGMENT_CHUNK, true, true)]
    requires var n := c + SEGMENT_CHUNK; n in head2 && head2[n] == Head(W, true, true)
    requires forall x {:trigger x in head2} {:trigger head2[x]} ::
      x in head1 && (x < c + SEGMENT_CHUNK || EndOf(H, H.top) + TOP_FOOT_SIZE <= x) ==>
      x in head2 && head2[x] == head1[x]
    requires c in head2 && (c == H.top ==> head' == head2 && foot' == foot)
    requires c != H.top ==>
      head' == head2[c := head2[c].(pinuse := false)][H.top := Head(c - H.top, true, false)]
      && foot' == foot[c := c - H.top]
    ensures ExtendedWords(H, c, tbase, psize, head, foot, head', foot')
  {
    hide ZoneClear, NewClear;
  }

  /** The old top, now a chunk like any other. */
  lemma OldTopInHand(H: Heap, head: map<int, Head>, foot: map<int, int>, c: int, tbase: int, psize: int, dv: int,
                     dvsize: int)
    requires Physical(H, head, foot) && MayExtend(H, c, tbase, psize) && c != H.top && DvOk(H, dv, dvsize)
    ensures InHandFree(Extended(H, c, tbase, psize), H.top, c - H.top, tbase, dv)
  {
    hide Extended, ZoneClear, NewClear, Span, Tagged;
    TopFacts(H, head, foot);
    ChunksPositive(H, head, foot);
    ExtendedAt(H, c, tbase, psize);
    ExtendedKinds(H, c, tbase, psize);
    hide Physical;
    var _ := H.size[H.top];
    if dvsize == 0 { }
  }
}
