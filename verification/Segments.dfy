/** The segments of a space: their records, end markers and what the chunks cover. */
module Segments {
  import opened ChunkLayout
  import opened BoundaryTags

  /** A malloc_segment record: base, size, next. */
  datatype Segment = Segment(base: int, size: int, next: int)

  /** A segment, and where its chunks stop: at the fake chunk after top, or at the first fencepost. */
  datatype Region = Region(base: int, size: int, end: int)

  /** The chunk a retired segment's record lives in, and the record in it. */
  function RecordChunk(r: Region): int { r.end - SEGMENT_CHUNK }

  function RecordAt(r: Region): int { Chunk2Mem(RecordChunk(r)) }

  ghost predicate RegionsOk(regions: seq<Region>) {
    && |regions| > 0
    && (forall k {:trigger regions[k]} :: 0 <= k < |regions| ==>
          && 0 < regions[k].base && regions[k].base < regions[k].end < regions[k].base + regions[k].size <= SIZE_T_RANGE
          && regions[k].base % 8 == 0 && regions[k].size % 8 == 0)
    && (forall j, k {:trigger regions[j], regions[k]} :: 0 <= j < k < |regions| ==>
          regions[j].base + regions[j].size <= regions[k].base || regions[k].base + regions[k].size <= regions[j].base)
    && regions[0].end + TOP_FOOT_SIZE == regions[0].base + regions[0].size
  }

  function NextPtr(regions: seq<Region>, k: nat): int {
    if k + 1 < |regions| then RecordAt(regions[k + 1]) else 0
  }

  /** The linked list of records: the head in the malloc_state, the rest at the top of the old segments. */
  ghost predicate Listed(regions: seq<Region>, seg: Segment, records: map<int, Segment>) {
    && |regions| > 0 && seg == Segment(regions[0].base, regions[0].size, NextPtr(regions, 0))
    && (forall k {:trigger regions[k]} :: 1 <= k < |regions| ==>
          RecordAt(regions[k]) in records
            && records[RecordAt(regions[k])] == Segment(regions[k].base, regions[k].size, NextPtr(regions, k)))
  }

  ghost predicate RegionsMarked(H: Heap, regions: seq<Region>) {
    forall k {:trigger regions[k]} :: 0 <= k < |regions| ==> regions[k].base in H.starts && regions[k].end in H.ends
  }

  ghost predicate MarksKnown(H: Heap, regions: seq<Region>) {
    && (forall s {:trigger s in H.starts} :: s in H.starts ==> exists k :: 0 <= k < |regions| && regions[k].base == s)
    && (forall e {:trigger e in H.ends} :: e in H.ends ==> exists k :: 0 <= k < |regions| && regions[k].end == e)
  }

  ghost predicate Marked(H: Heap, regions: seq<Region>) {
    RegionsMarked(H, regions) && MarksKnown(H, regions)
  }

  /** The allocator's own chunks: the malloc_state, and one record per retired segment, at its end. */
  ghost predicate MetasOk(H: Heap, regions: seq<Region>, base: int) {
    && (forall k {:trigger regions[k]} :: 1 <= k < |regions| ==>
          RecordChunk(regions[k]) in H.size && H.size[RecordChunk(regions[k])] == SEGMENT_CHUNK
          && RecordChunk(regions[k]) in H.kind && H.kind[RecordChunk(regions[k])].Meta?)
    && (forall p {:trigger H.kind[p]} :: p in H.kind && H.kind[p].Meta? ==>
          p == base || exists k :: 1 <= k < |regions| && p == RecordChunk(regions[k]))
  }

  ghost predicate Covered(size: map<int, int>, regions: seq<Region>) {
    forall p {:trigger NextOf(size, p)} :: p in size ==> exists k ::
      0 <= k < |regions| && regions[k].base <= p && NextOf(size, p) <= regions[k].end
  }

  ghost predicate SegmentsOk(H: Heap, regions: seq<Region>, seg: Segment, records: map<int, Segment>, base: int) {
    && |regions| > 0 && RegionsOk(regions) && Listed(regions, seg, records) && Marked(H, regions)
       && MetasOk(H, regions, base) && Covered(H.size, regions)
    && H.top in H.size && regions[0].end == NextOf(H.size, H.top)
  }

  /** [a, n) holds no chunk of the allocator's own. */
  ghost predicate NoneMeta(H: Heap, a: int, n: int) {
    forall q {:trigger H.kind[q]} :: q in H.size && q in H.kind && a <= q < n ==> !H.kind[q].Meta?
  }

  lemma RetileMetas(H: Heap, regions: seq<Region>, base: int, a: int, m: int, n: int, low: Kind, high: Kind)
    requires MetasOk(H, regions, base) && NoneMeta(H, a, n) && a < m <= n && !low.Meta? && !high.Meta?
    ensures MetasOk(RetileHeap(H, a, m, n, low, high), regions, base)
  {
    RetileAt(H.size, a, m, n);
    RetileKindsAt(H.kind, a, m, n, low, high);
    hide Retile, RetileKinds;
  }

  lemma RetileCovered(size: map<int, int>, starts: set<int>, ends: set<int>, regions: seq<Region>, a: int, m: int,
                      n: int)
    requires Positive(size) && Covered(size, regions) && Span(size, starts, ends, a, n) && a < m <= n
    requires forall k {:trigger regions[k]} :: 0 <= k < |regions| ==> regions[k].end in ends
    ensures Covered(Retile(size, a, m, n), regions)
  {
    RetileAt(size, a, m, n);
    var size' := Retile(size, a, m, n);
    hide Retile;
    var k :| 0 <= k < |regions| && regions[k].base <= a && NextOf(size, a) <= regions[k].end;
    assert 0 < size[a];
    forall p | p in size'
      ensures exists j :: 0 <= j < |regions| && regions[j].base <= p && NextOf(size', p) <= regions[j].end {
      if p in size && (p < a || n <= p) {
        var e := NextOf(size, p);
        var j :| 0 <= j < |regions| && regions[j].base <= p && e <= regions[j].end;
        assert NextOf(size', p) <= regions[j].end;
      } else {
        assert regions[k].base <= p && NextOf(size', p) <= regions[k].end;
      }
    }
  }

  lemma RetileTopEnd(H: Heap, end: int, a: int, m: int, n: int, low: Kind, high: Kind)
    requires Span(H.size, H.starts, H.ends, a, n) && a < m <= n && Positive(H.size) && H.size.Keys == H.kind.Keys
    requires H.top in H.size && end == NextOf(H.size, H.top) && end in H.ends
    ensures var H' := RetileHeap(H, a, m, n, low, high); H'.top in H'.size && NextOf(H'.size, H'.top) == end
  {
    RetileAt(H.size, a, m, n);
    var _ := H.size[H.top];
    hide Retile, RetileKinds;
  }

  lemma RetileSegments(H: Heap, regions: seq<Region>, seg: Segment, records: map<int, Segment>, base: int,
                       a: int, m: int, n: int, low: Kind, high: Kind)
    requires SegmentsOk(H, regions, seg, records, base) && Span(H.size, H.starts, H.ends, a, n) && a < m <= n
      && H.size.Keys == H.kind.Keys
    requires Positive(H.size) && NoneMeta(H, a, n) && !low.Meta? && !high.Meta?
    ensures SegmentsOk(RetileHeap(H, a, m, n, low, high), regions, seg, records, base)
  {
    hide MetasOk, RetileKinds, NoneMeta, Retile, Span, Positive, Covered, RegionsOk, Listed;
    RetileMetas(H, regions, base, a, m, n, low, high);
    var _ := regions[0];
    RetileTopEnd(H, regions[0].end, a, m, n, low, high);
    RetileCovered(H.size, H.starts, H.ends, regions, a, m, n);
  }
}
