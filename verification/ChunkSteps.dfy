/** What is known of free chunks, and how handing one out rewrites the space. */
module ChunkSteps {
  import opened ChunkLayout
  import opened BoundaryTags
  import opened BinStore
  import opened Segments
  import opened HeapSteps

  /** set_inuse_and_pinuse of a free chunk. */
  lemma WholeRewritten(H: Heap, head: map<int, Head>, foot: map<int, int>, p: int)
    requires Physical(H, head, foot) && p in H.size && H.kind[p].Free? && p != H.top
    ensures p in head && NextOf(H.size, p) in head
    ensures var n := NextOf(H.size, p); var head1 := head[p := Head(H.size[p], true, true)];
      && MayRetile(H, p, n, n, Live, Live, head) && !(p <= H.top < n)
      && Rewritten(head, foot, p, n, n, Live, Live, false, head1[n := head1[n].(pinuse := true)], foot)
  {
    hide Closed, EndsClear, StartsClear, NoOverlap, Positive, LiveInside, FeetMatch, PrevsMatch, StartsPinuse;
    FreeFacts(H, head, foot, p);
    hide Tiled, Sized, NoAdjacentFree, Tagged, Span;
  }

  /** A free chunk other than top: its own words and its successor. */
  lemma FreeFacts(H: Heap, head: map<int, Head>, foot: map<int, int>, p: int)
    requires Physical(H, head, foot) && p in H.size && H.kind[p].Free? && p != H.top
    ensures var n := NextOf(H.size, p);
      && Span(H.size, H.starts, H.ends, p, n) && p < n && p % 8 == 0 && n % 8 == 0 && MIN_CHUNK_SIZE <= n - p
         && !(p <= H.top < n)
      && p in head && head[p] == Head(n - p, true, false)
      && n in H.size && n in H.kind && !H.kind[n].Free? && n in head && !head[n].pinuse && n in foot && foot[n] == n - p
      && (forall q {:trigger H.size[q]} :: q in H.size && p <= q < n ==> q == p)
  {
    ChunkSpan(H, p);
    EndsNotChunks(H.size, H.ends);
    FreePinuse(H, head, foot, p);
    hide Closed, EndsClear, StartsClear, NoOverlap, Positive, LiveInside, PrevsMatch, StartsPinuse, Span;
    var n := NextOf(H.size, p);
    var _ := head[p];
    var _ := H.size[H.top];
  }

  lemma EndsNotChunks(size: map<int, int>, ends: set<int>)
    requires Positive(size) && EndsClear(size, ends)
    ensures forall e {:trigger e in ends} :: e in ends ==> e !in size
  {
    forall p | p in size ensures p !in ends { assert 0 < size[p]; }
  }

  lemma RequestFacts(bytes: int)
    requires 0 <= bytes
    ensures MIN_CHUNK_SIZE <= Request2Size(bytes) && Request2Size(bytes) % 8 == 0
    ensures bytes <= MAX_SMALL_REQUEST ==> Request2Size(bytes) < 256
    ensures MAX_SMALL_REQUEST < bytes < MAX_REQUEST ==>
      PadRequest(bytes) == Request2Size(bytes) && LargeSizeOf(PadRequest(bytes))
  {
  }

  /** No chunk is as long as the address space. */
  lemma SizesBound(H: Heap, head: map<int, Head>, foot: map<int, int>, base: int, least: int, dv: int, dvsize: int,
                   top: int, topsize: int)
    requires Physical(H, head, foot) && HeapPlaced(H, base, least) && DvOk(H, dv, dvsize) && TopCached(H, top, topsize)
    ensures 0 !in H.size && 0 <= dvsize < SIZE_T_RANGE - 1 && topsize < SIZE_T_RANGE - 1 && top > 0
  {
    hide Tiled, Tagged, NoAdjacentFree, LiveInside, TopPlaced;
    NoNullChunk(H, base, least);
    if dvsize != 0 { var _ := H.size[dv]; }
    var _ := H.size[top];
  }

  lemma NoneBelow(binned: map<int, int>, n: int, nb: int)
    requires NoneBinned(binned, n) && n <= nb
    ensures NoneBinned(binned, nb)
  {
  }

  lemma NoneIsBetween(binned: map<int, int>, nb: int, high: int)
    requires NoneBinned(binned, nb)
    ensures NoneBetween(binned, nb, high)
  {
  }

  lemma ChosenTop(H: Heap, dv: int, nb: int, large: bool, top: int, topsize: int)
    requires TopCached(H, top, topsize) && nb < topsize && NoneFit(H, nb)
    ensures Chosen(H, dv, nb, large, top)
  {
    hide NoneFit;
  }

  /** Where dv and top end. */
  lemma CachesNamed(H: Heap, dv: int, dvsize: int, top: int, topsize: int)
    requires DvOk(H, dv, dvsize) && TopCached(H, top, topsize)
    ensures EndOf(H, top) == EndOf(H, H.top)
  {
  }

  lemma TopNamed(H: Heap, top: int, topsize: int)
    requires TopCached(H, top, topsize)
    ensures top == H.top && top in H.size && H.size[top] == topsize && EndOf(H, top) == top + topsize
  {
  }

  lemma ChosenIsChunk(H: Heap, base: int, least: int, dv: int, nb: int, large: bool, p: int)
    requires Chosen(H, dv, nb, large, p) && HeapPlaced(H, base, least)
    ensures p in H.size && 0 < p
  {
    var _ := H.size[p];
  }

  lemma FirstIsSmallest(binned: map<int, int>, p: int, nb: int, i: nat)
    requires p in binned && binned[p] == 8 * i && nb <= 8 * i < 256 && nb % 8 == 0 && 0 <= nb
      && SmallFrom(binned, nb / 8, i)
    ensures SmallestBinned(binned, p, nb)
  {
  }

  lemma TreeIsSmallest(binned: map<int, int>, p: int, nb: int)
    requires p in binned && 256 <= binned[p] && 0 <= nb < 256 && nb % 8 == 0 && SmallFrom(binned, nb / 8, 32)
    requires forall x {:trigger binned[x]} :: x in binned && 256 <= binned[x] ==> binned[p] <= binned[x]
    ensures SmallestBinned(binned, p, nb)
  {
  }

  lemma NothingFits(binned: map<int, int>, nb: int)
    requires NoneBinned(binned, 256) && 0 <= nb < 256 && nb % 8 == 0 && SmallFrom(binned, nb / 8, 32)
    ensures NoneBinned(binned, nb)
  {
  }

  lemma Taken(H: Heap, head: map<int, Head>, foot: map<int, int>, base: int, least: int, dv: int, binned: map<int, int>,
              p: int)
    requires Physical(H, head, foot) && BinnedExactly(H, dv, {}, binned) && p in binned
    ensures BinnedExactly(H, dv, {p}, binned - {p}) && InHandFree(H, p, binned[p], H.top, dv)
  {
    hide Closed, EndsClear, StartsClear, Tagged, NoAdjacentFree, LiveInside, TopPlaced, NoOverlap;
    TakeBinned(H, dv, {}, binned, p);
    assert {} + {p} == {p};
    hide BinnedExactly;
    assert 0 < H.size[p];
  }

  lemma DvBound(H: Heap, base: int, least: int, dv: int, dvsize: int)
    requires DvOk(H, dv, dvsize) && HeapPlaced(H, base, least)
    ensures 0 <= dvsize < SIZE_T_RANGE
  {
    if dvsize != 0 { var _ := H.size[dv]; }
  }

  ghost predicate LargeSizeOf(nb: int) { 256 <= nb < SIZE_T_RANGE }

  lemma NoNullChunk(H: Heap, base: int, least: int)
    requires HeapPlaced(H, base, least)
    ensures 0 !in H.size
  {
    forall q | q in H.size ensures q != 0 { var _ := H.size[q]; }
  }

  /** Top: its own words and the end marker after it. */
  lemma TopFacts(H: Heap, head: map<int, Head>, foot: map<int, int>)
    requires Physical(H, head, foot)
    ensures H.top in H.size && H.top in H.kind && H.kind[H.top].Free?
    ensures var p := H.top; var n := NextOf(H.size, p);
      && Span(H.size, H.starts, H.ends, p, n) && p < n && p % 8 == 0 && n % 8 == 0 && n in H.ends && n !in H.size
      && p in head && head[p] == Head(n - p, true, false) && n in head && !head[n].pinuse
      && (forall q {:trigger H.size[q]} :: q in H.size && p <= q < n ==> q == p)
  {
    ChunkSpan(H, H.top);
    EndsNotChunks(H.size, H.ends);
    FreePinuse(H, head, foot, H.top);
    hide Closed, EndsClear, StartsClear, NoOverlap, Positive, LiveInside, PrevsMatch, StartsPinuse, Span,
      NoAdjacentFree, FeetMatch;
    var n := NextOf(H.size, H.top);
    var _ := head[H.top];
    var _ := H.size[H.top];
  }

  lemma TopStep(H: Heap, head: map<int, Head>, foot: map<int, int>, base: int, least: int, regions: seq<Region>,
                seg: Segment, records: map<int, Segment>, dv: int, loose: set<int>, binned: map<int, int>, nb: int)
    requires H.top in H.size && MIN_CHUNK_SIZE <= nb < H.size[H.top] && nb % 8 == 0 && loose == {}
    requires SpaceOk(H, head, foot, base, least, regions, seg, records, dv, loose, binned)
    ensures var p := H.top; var n := NextOf(H.size, p); var r := p + nb;
      SpaceOk(RetileHeap(H, p, r, n, Live, Free), head[r := Head(n - r, true, false)][p := Head(nb, true, true)], foot,
              base, least, regions, seg, records, dv, {}, binned)
    ensures MayRetile(H, H.top, H.top + nb, NextOf(H.size, H.top), Live, Free, head)
  {
    hide Tiled, Sized, NoAdjacentFree, Tagged, LiveInside, TopPlaced, SegmentsOk;
    hide Retile, RetileKinds, Span;
    TopFacts(H, head, foot);
    hide Physical;
    var p := H.top;
    var n := NextOf(H.size, p);
    var r := p + nb;
    var head' := head[r := Head(n - r, true, false)][p := Head(nb, true, true)];
    TopInHand(H, binned, dv, base, least, n);
    assert HandsOver(H, p, r, n, Live, Free, dv, dv, {}, {});
    assert MayRetile(H, p, r, n, Live, Free, head);
    assert Rewritten(head, foot, p, r, n, Live, Free, true, head', foot);
    hide HeapPlaced, BinnedExactly, InHand, HandsOver, MayRetile, Rewritten;
    RetileSpace(H, head, foot, base, least, regions, seg, records, dv, {}, binned, p, r, n, Live, Free, head', foot, dv,
      {});
  }

  lemma TopInHand(H: Heap, binned: map<int, int>, dv: int, base: int, least: int, n: int)
    requires BinnedExactly(H, dv, {}, binned) && HeapPlaced(H, base, least) && H.top in H.size
      && n == NextOf(H.size, H.top)
    requires H.top in H.kind && H.kind[H.top].Free?
    requires forall q {:trigger H.size[q]} :: q in H.size && H.top <= q < n ==> q == H.top
    ensures InHand(H, binned, H.top, n)
  {
    var _ := H.size[H.top];
    forall x {:trigger binned[x]} | x in binned ensures x < H.top || n <= x { var _ := H.size[x]; }
    forall q {:trigger H.kind[q]} | q in H.size && q in H.kind && H.top <= q < n
      ensures !H.kind[q].Meta? { var _ := H.size[q]; }
  }

  lemma TopCaches(H: Heap, head: map<int, Head>, foot: map<int, int>, dv: int, dvsize: int, nb: int)
    requires H.top in H.size && 0 < nb < H.size[H.top] && DvOk(H, dv, dvsize) && Physical(H, head, foot)
    ensures var n := NextOf(H.size, H.top); var H' := RetileHeap(H, H.top, H.top + nb, n, Live, Free);
      DvOk(H', dv, dvsize) && TopCached(H', H.top + nb, H.size[H.top] - nb)
  {
    hide Physical, Span;
    TopFacts(H, head, foot);
    var n := NextOf(H.size, H.top);
    if dvsize != 0 { var _ := H.size[dv]; }
    RetileAt(H.size, H.top, H.top + nb, n);
    RetileKindsAt(H.kind, H.top, H.top + nb, n, Live, Free);
    hide Retile, RetileKinds;
  }

  /** A free chunk that is neither top nor dv. */
  ghost predicate InHandFree(H: Heap, r: int, s: int, top: int, dv: int) {
    r in H.size && r in H.kind && H.kind[r].Free? && H.size[r] == s && r != top && r != dv && 0 < s
  }

  /** The high part of a retiled region. */
  lemma RetiledHigh(H: Heap, a: int, m: int, n: int, low: Kind, high: Kind)
    requires a < m < n
    ensures var H' := RetileHeap(H, a, m, n, low, high);
      && a in H'.size && a in H'.kind && H'.size[a] == m - a && H'.kind[a] == low
      && m in H'.size && m in H'.kind && H'.size[m] == n - m && H'.kind[m] == high
  {
    RetileAt(H.size, a, m, n);
    RetileKindsAt(H.kind, a, m, n, low, high);
    hide Retile, RetileKinds;
  }

  /** Handing out the low part of a free chunk in hand. */
  lemma LowStep(H: Heap, head: map<int, Head>, foot: map<int, int>, base: int, least: int, regions: seq<Region>,
                seg: Segment, records: map<int, Segment>, dv: int, binned: map<int, int>, p: int, nb: int)
    requires SpaceOk(H, head, foot, base, least, regions, seg, records, dv, {p}, binned)
    requires IsFree(H, p) && p != H.top && p != dv && MIN_CHUNK_SIZE <= nb && nb % 8 == 0
      && MIN_CHUNK_SIZE <= EndOf(H, p) - p - nb
    ensures var n := EndOf(H, p); var r := p + nb;
      SpaceOk(RetileHeap(H, p, r, n, Live, Free), head[p := Head(nb, true, true)][r := Head(n - r, true, false)],
        foot[n := n - r],
              base, least, regions, seg, records, dv, {r}, binned)
    ensures MayRetile(H, p, p + nb, EndOf(H, p), Live, Free, head)
  {
    hide Tiled, Sized, NoAdjacentFree, Tagged, LiveInside, TopPlaced, HeapPlaced, SegmentsOk, Rewritten, MayRetile,
      BinnedExactly, InHand, HandsOver;
    hide Retile, RetileKinds;
    LowRewritten(H, head, foot, p, nb);
    WholeInHand(H, head, foot, base, least, regions, seg, records, dv, binned, p, nb);
    var n := EndOf(H, p);
    var r := p + nb;
    RetileSpace(H, head, foot, base, least, regions, seg, records, dv, {p}, binned,
                p, r, n, Live, Free, head[p := Head(nb, true, true)][r := Head(n - r, true, false)], foot[n := n - r],
                  dv, {r});
  }

  lemma LowRewritten(H: Heap, head: map<int, Head>, foot: map<int, int>, p: int, nb: int)
    requires Physical(H, head, foot) && p in H.size && p in H.kind && H.kind[p].Free? && p != H.top
    requires MIN_CHUNK_SIZE <= nb && nb % 8 == 0 && MIN_CHUNK_SIZE <= H.size[p] - nb
    ensures var n := NextOf(H.size, p); var r := p + nb;
      && MayRetile(H, p, r, n, Live, Free, head) && !(p <= H.top < n)
      && Rewritten(head, foot, p, r, n, Live, Free, false,
         head[p := Head(nb, true, true)][r := Head(n - r, true, false)], foot[n := n - r])
  {
    hide Physical, Span;
    FreeFacts(H, head, foot, p);
  }

  /** Handing out a whole free chunk in hand. */
  lemma WholeStep(H: Heap, head: map<int, Head>, foot: map<int, int>, base: int, least: int, regions: seq<Region>,
                  seg: Segment, records: map<int, Segment>, dv: int, binned: map<int, int>, p: int)
    requires SpaceOk(H, head, foot, base, least, regions, seg, records, dv, {p}, binned)
    requires p in H.size && p in H.kind && H.kind[p].Free? && p != H.top && p != dv
    ensures p in head && NextOf(H.size, p) in head[p := Head(H.size[p], true, true)]
    ensures MayRetile(H, p, NextOf(H.size, p), NextOf(H.size, p), Live, Live, head)
    ensures var n := NextOf(H.size, p); var head1 := head[p := Head(H.size[p], true, true)];
      SpaceOk(RetileHeap(H, p, n, n, Live, Live), head1[n := head1[n].(pinuse := true)], foot, base, least, regions,
        seg, records, dv, {}, binned)
  {
    hide Tiled, Sized, NoAdjacentFree, Tagged, LiveInside, TopPlaced, HeapPlaced, SegmentsOk, Rewritten, MayRetile,
      BinnedExactly, InHand, HandsOver;
    hide Retile, RetileKinds;
    WholeRewritten(H, head, foot, p);
    WholeInHand(H, head, foot, base, least, regions, seg, records, dv, binned, p, 0);
    var n := NextOf(H.size, p);
    var head1 := head[p := Head(H.size[p], true, true)];
    RetileSpace(H, head, foot, base, least, regions, seg, records, dv, {p}, binned,
                p, n, n, Live, Live, head1[n := head1[n].(pinuse := true)], foot, dv, {});
  }

  /** dv and top keep their cached sizes when a region without them is retiled. */
  lemma CachesKept(H: Heap, a: int, m: int, n: int, low: Kind, high: Kind, dv: int, dvsize: int, top: int, topsize: int)
    requires DvOk(H, dv, dvsize) && TopCached(H, top, topsize) && a < m <= n
    requires (dvsize == 0 || dv < a || n <= dv) && (top < a || n <= top)
    ensures var H' := RetileHeap(H, a, m, n, low, high); DvOk(H', dv, dvsize) && TopCached(H', top, topsize)
  {
    RetileAt(H.size, a, m, n);
    RetileKindsAt(H.kind, a, m, n, low, high);
    hide Retile, RetileKinds;
  }

  lemma SpacePhysical(H: Heap, head: map<int, Head>, foot: map<int, int>, base: int, least: int, regions: seq<Region>,
                      seg: Segment, records: map<int, Segment>, dv: int, loose: set<int>, binned: map<int, int>)
    requires SpaceOk(H, head, foot, base, least, regions, seg, records, dv, loose, binned)
    ensures Physical(H, head, foot) && H.size.Keys == H.kind.Keys && HeapPlaced(H, base, least)
      && BinnedExactly(H, dv, loose, binned)
    ensures BinStore.AddressesOk(base, least, binned) && BinStore.SizesMatch(head, binned) && 0 !in H.size
  {
    hide HeapPlaced, BinnedExactly, SegmentsOk, Tiled, Sized, NoAdjacentFree, LiveInside, Tagged;
    NoNullChunk(H, base, least);
    BinnedFacts(H, head, foot, base, least, regions, seg, records, dv, loose, binned);
  }

  /** A free chunk in hand is clear of dv and top. */
  lemma WholeClear(H: Heap, head: map<int, Head>, foot: map<int, int>, dv: int, dvsize: int, top: int, topsize: int,
                   p: int)
    requires Physical(H, head, foot) && DvOk(H, dv, dvsize) && TopCached(H, top, topsize)
    requires p in H.size && p in H.kind && H.kind[p].Free? && p != top && p != dv
    ensures var n := NextOf(H.size, p);
      p + MIN_CHUNK_SIZE <= n && (dvsize == 0 || dv < p || n <= dv) && (top < p || n <= top)
  {
    hide Physical;
    FreeFacts(H, head, foot, p);
    if dvsize != 0 { var _ := H.size[dv]; }
  }

  lemma WholeInHand(H: Heap, head: map<int, Head>, foot: map<int, int>, base: int, least: int, regions: seq<Region>,
                    seg: Segment, records: map<int, Segment>, dv: int, binned: map<int, int>, p: int, nb: int)
    requires SpaceOk(H, head, foot, base, least, regions, seg, records, dv, {p}, binned)
    requires IsFree(H, p) && p != H.top && p != dv && 0 <= nb && (0 < nb ==> nb < EndOf(H, p) - p)
    ensures var n := EndOf(H, p);
      && InHand(H, binned, p, n) && HandsOver(H, p, n, n, Live, Live, dv, dv, {p}, {})
      && (0 < nb ==> HandsOver(H, p, p + nb, n, Live, Free, dv, dv, {p}, {p + nb}))
  {
    hide Physical, SegmentsOk;
    FreeFacts(H, head, foot, p);
    var _ := H.size[p];
    var n := NextOf(H.size, p);
    forall x {:trigger binned[x]} | x in binned ensures x < p || n <= x { var _ := H.size[x]; }
    forall q {:trigger H.kind[q]} | q in H.size && q in H.kind && p <= q < n
      ensures !H.kind[q].Meta? { var _ := H.size[q]; }
  }
}
