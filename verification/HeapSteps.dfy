/** How one retiling of the heap carries over to the rest of the malloc_state's bookkeeping. */
module HeapSteps {
  import opened ChunkLayout
  import opened BoundaryTags
  import opened SmallBins
  import opened Segments
  import BinStore

  /** Chunks lie in the address space, at or above least_addr; the malloc_state's own chunk is in place. */
  ghost predicate HeapPlaced(H: Heap, base: int, least: int) {
    && 0 < least <= base && base in H.starts && base in H.size && H.size[base] == STATE_CHUNK && base in H.kind
       && H.kind[base].Meta?
    && (forall p {:trigger H.size[p]} :: p in H.size ==> least <= p && p + H.size[p] <= SIZE_T_RANGE)
  }

  /** The bins hold exactly the free chunks other than top, dv and those in hand. */
  ghost predicate BinnedExactly(H: Heap, dv: int, loose: set<int>, binned: map<int, int>) {
    && (forall p {:trigger binned[p]} :: p in binned ==>
          p in H.size && p in H.kind && H.kind[p].Free? && p != H.top && p != dv && p !in loose
            && binned[p] == H.size[p])
    && (forall p {:trigger H.kind[p]} ::
       p in H.size && p in H.kind && H.kind[p].Free? && p != H.top && p != dv && p !in loose ==> p in binned)
  }

  /** dv and dvsize are both null or name a free chunk. */
  ghost predicate DvOk(H: Heap, dv: int, dvsize: int) {
    if dvsize == 0 then dv == 0
    else dv in H.size && dv in H.kind && H.kind[dv].Free? && dv != H.top && H.size[dv] == dvsize && 0 < dv && 0 < dvsize
  }

  ghost predicate TopCached(H: Heap, top: int, topsize: int) {
    H.top == top && top in H.size && H.size[top] == topsize
  }

  lemma RetilePlaced(H: Heap, base: int, least: int, a: int, m: int, n: int, low: Kind, high: Kind)
    requires HeapPlaced(H, base, least) && Span(H.size, H.starts, H.ends, a, n) && a < m <= n && n <= SIZE_T_RANGE
    requires H.size.Keys == H.kind.Keys && (base < a || n <= base)
    ensures HeapPlaced(RetileHeap(H, a, m, n, low, high), base, least)
  {
    RetileAt(H.size, a, m, n);
    RetileKindsAt(H.kind, a, m, n, low, high);
    hide Retile, RetileKinds;
  }

  /** Regions of whole chunks that hold no binned chunk may be retiled; a new free chunk is in hand. */
  lemma RetileBinned(H: Heap, a: int, m: int, n: int, low: Kind, high: Kind, dv: int, dv': int, loose: set<int>,
                     loose': set<int>, binned: map<int, int>)
    requires BinnedExactly(H, dv, loose, binned) && a < m <= n && H.size.Keys == H.kind.Keys
    requires forall x {:trigger binned[x]} :: x in binned ==> x < a || n <= x
    requires forall x {:trigger x in loose'} :: x < a || n <= x ==> (x in loose <==> x in loose')
    requires forall x {:trigger H.size[x]} :: x in H.size && (x < a || n <= x) ==> (x == dv <==> x == dv')
    requires H.top in H.size
    requires var top' := RetileHeap(H, a, m, n, low, high).top;
      && (low.Free? ==> a == top' || a == dv' || a in loose')
      && (m < n && high.Free? ==> m == top' || m == dv' || m in loose')
    ensures BinnedExactly(RetileHeap(H, a, m, n, low, high), dv', loose', binned)
  {
    RetileAt(H.size, a, m, n);
    RetileKindsAt(H.kind, a, m, n, low, high);
    hide Retile, RetileKinds;
    var H' := RetileHeap(H, a, m, n, low, high);
    forall x {:trigger H'.kind[x]} | x in H'.size && x in H'.kind && H'.kind[x].Free? && x != H'.top && x != dv'
      && x !in loose'
      ensures x in binned
    {
      assert x != a && (m < n ==> x != m);
      var _ := H.kind[x];
      var _ := H.size[x];
    }
    forall x {:trigger binned[x]} | x in binned
      ensures x in H'.size && x in H'.kind && H'.kind[x].Free? && x != H'.top && x != dv' && x !in loose'
        && binned[x] == H'.size[x]
    {
      var _ := H.size[x];
    }
  }

  /** The whole space between operations, with the chunks of loose in hand: free, but in no bin. */
  ghost predicate SpaceOk(H: Heap, head: map<int, Head>, foot: map<int, int>, base: int, least: int,
                          regions: seq<Region>,
                          seg: Segment, records: map<int, Segment>, dv: int, loose: set<int>, binned: map<int, int>)
  {
    && Physical(H, head, foot) && HeapPlaced(H, base, least) && SegmentsOk(H, regions, seg, records, base)
    && BinnedExactly(H, dv, loose, binned)
  }

  /** No binned chunk and no chunk of the allocator's own in [a, n), and its end is an address. */
  ghost predicate InHand(H: Heap, binned: map<int, int>, a: int, n: int) {
    && NoneMeta(H, a, n) && n <= SIZE_T_RANGE
    && (forall x {:trigger binned[x]} :: x in binned ==> x < a || n <= x)
  }

  /** How dv and the chunks in hand change when [a, n) is retiled. */
  ghost predicate HandsOver(H: Heap, a: int, m: int, n: int, low: Kind, high: Kind, dv: int, dv': int, loose: set<int>,
                            loose': set<int>)
  {
    && (forall x {:trigger x in loose'} :: x < a || n <= x ==> (x in loose <==> x in loose'))
    && (forall x {:trigger H.size[x]} :: x in H.size && (x < a || n <= x) ==> (x == dv <==> x == dv'))
    && var top' := RetileHeap(H, a, m, n, low, high).top;
      && (low.Free? ==> a == top' || a == dv' || a in loose')
      && (m < n && high.Free? ==> m == top' || m == dv' || m in loose')
  }

  lemma RetileSpace(H: Heap, head: map<int, Head>, foot: map<int, int>, base: int, least: int, regions: seq<Region>,
                    seg: Segment, records: map<int, Segment>, dv: int, loose: set<int>, binned: map<int, int>,
                    a: int, m: int, n: int, low: Kind, high: Kind, head': map<int, Head>, foot': map<int, int>,
                      dv': int, loose': set<int>)
    requires SpaceOk(H, head, foot, base, least, regions, seg, records, dv, loose, binned)
    requires MayRetile(H, a, m, n, low, high, head) && InHand(H, binned, a, n) && !low.Meta? && !high.Meta?
    requires Rewritten(head, foot, a, m, n, low, high, a <= H.top < n, head', foot')
    requires HandsOver(H, a, m, n, low, high, dv, dv', loose, loose')
    ensures SpaceOk(RetileHeap(H, a, m, n, low, high), head', foot', base, least, regions, seg, records, dv', loose',
      binned)
  {
    hide Tagged, Sized, NoAdjacentFree, LiveInside, Closed, EndsClear, StartsClear, NoOverlap, Span, Rewritten;
    hide RegionsOk, Listed, Marked, MetasOk, Covered, Retile, RetileKinds;
    RetilePhysical(H, a, m, n, low, high, head, foot, head', foot');
    MetaOutside(H, base, a, n);
    RetilePlaced(H, base, least, a, m, n, low, high);
    RetileSegments(H, regions, seg, records, base, a, m, n, low, high);
    RetileBinned(H, a, m, n, low, high, dv, dv', loose, loose', binned);
  }

  lemma MetaOutside(H: Heap, base: int, a: int, n: int)
    requires NoneMeta(H, a, n) && base in H.size && base in H.kind && H.kind[base].Meta?
    ensures base < a || n <= base
  {
  }

  /** Binned chunks pass ok_address, and their head words hold their sizes. */
  lemma BinnedFacts(H: Heap, head: map<int, Head>, foot: map<int, int>, base: int, least: int, regions: seq<Region>,
                    seg: Segment, records: map<int, Segment>, dv: int, loose: set<int>, binned: map<int, int>)
    requires SpaceOk(H, head, foot, base, least, regions, seg, records, dv, loose, binned)
    ensures BinStore.AddressesOk(base, least, binned) && BinStore.SizesMatch(head, binned)
  {
    hide Tiled, Sized, NoAdjacentFree, LiveInside, SegmentsOk, PinusesMatch, FeetMatch, PrevsMatch, StartsPinuse;
    forall x {:trigger binned[x]} | x in binned ensures least <= x && 0 < x && x in head && head[x].size == binned[x] {
      var _ := H.size[x];
      var _ := H.kind[x];
    }
  }

  /** A chunk on its own makes a span, and no other chunk starts in it. */
  lemma ChunkSpan(H: Heap, p: int)
    requires Tiled(H.size, H.starts, H.ends) && p in H.size
    ensures Span(H.size, H.starts, H.ends, p, NextOf(H.size, p))
    ensures forall q {:trigger H.size[q]} :: q in H.size && p <= q < NextOf(H.size, p) ==> q == p
    ensures 0 < H.size[p]
  {
    SpanOne(H.size, H.starts, H.ends, p);
    hide Closed, EndsClear, StartsClear, Span;
    assert H.size[p] == H.size[p];
  }

  // ---- chunks passing between the bins, dv and the hand ----

  lemma TakeBinned(H: Heap, dv: int, loose: set<int>, binned: map<int, int>, p: int)
    requires BinnedExactly(H, dv, loose, binned) && p in binned
    ensures BinnedExactly(H, dv, loose + {p}, binned - {p})
    ensures p in H.size && p in H.kind && H.kind[p].Free? && p != H.top && p != dv && H.size[p] == binned[p]
  {
    var _ := binned[p];
  }

  lemma PutBinned(H: Heap, dv: int, loose: set<int>, binned: map<int, int>, p: int)
    requires BinnedExactly(H, dv, loose, binned) && p in loose
    requires p in H.size && p in H.kind && H.kind[p].Free? && p != H.top && p != dv
    ensures BinnedExactly(H, dv, loose - {p}, binned[p := H.size[p]])
  {
  }

  lemma DvToLoose(H: Heap, dv: int, loose: set<int>, binned: map<int, int>)
    requires BinnedExactly(H, dv, loose, binned) && 0 !in H.size
    ensures BinnedExactly(H, 0, loose + {dv}, binned)
  {
  }

  lemma LooseToDv(H: Heap, loose: set<int>, binned: map<int, int>, p: int)
    requires BinnedExactly(H, 0, loose, binned) && p in loose && 0 !in H.size
    ensures BinnedExactly(H, p, loose - {p}, binned)
  {
  }

  /** A free chunk in hand may be put into a bin. */
  lemma LooseReady(H: Heap, head: map<int, Head>, foot: map<int, int>, base: int, least: int, dv: int, loose: set<int>,
                   binned: map<int, int>, p: int)
    requires Physical(H, head, foot) && HeapPlaced(H, base, least) && BinnedExactly(H, dv, loose, binned) && p in loose
    requires p in H.size && p in H.kind && H.kind[p].Free? && p != H.top
    ensures 0 < p && p !in binned && OutsideState(base, p) && least <= p
    ensures MIN_CHUNK_SIZE <= H.size[p] < SIZE_T_RANGE && H.size[p] % 8 == 0
    ensures 0 !in H.size
  {
    hide Closed, EndsClear, StartsClear, Tagged, NoAdjacentFree, LiveInside, TopPlaced;
    var _ := H.size[p];
    var _ := H.size[base];
    forall x {:trigger binned[x]} | x in binned ensures x != p { }
    forall q | q in H.size ensures q != 0 { var _ := H.size[q]; }
  }

  // ---- what an allocation does to the heap ----

  /** Chunk q is free, is not top, and has room for nb bytes. */
  ghost predicate Fits(H: Heap, q: int, nb: int) {
    q in H.size && q in H.kind && H.kind[q].Free? && q != H.top && nb <= H.size[q]
  }

  /** Where the handed-out part of chunk p ends: too small a rest of anything but top goes with it. */
  function AllocEnd(H: Heap, p: int, nb: int): int {
    if p != H.top && EndOf(H, p) - p - nb < MIN_CHUNK_SIZE then EndOf(H, p) else p + nb
  }

  /** The heap once the low end of chunk p serves a request padded to nb. */
  function Allocated(H: Heap, p: int, nb: int): Heap {
    RetileHeap(H, p, AllocEnd(H, p, nb), EndOf(H, p), Live, Free)
  }

  lemma WholeIsAllocated(H: Heap, p: int, nb: int)
    requires p in H.size && p != H.top && H.size[p] - nb < MIN_CHUNK_SIZE
    ensures RetileHeap(H, p, NextOf(H.size, p), NextOf(H.size, p), Live, Live) == Allocated(H, p, nb)
  {
  }

  lemma LowIsAllocated(H: Heap, p: int, nb: int)
    requires p in H.size && (p == H.top || MIN_CHUNK_SIZE <= H.size[p] - nb)
    ensures RetileHeap(H, p, p + nb, NextOf(H.size, p), Live, Free) == Allocated(H, p, nb)
  {
  }

  ghost predicate NoneFit(H: Heap, nb: int) {
    forall q {:trigger H.kind[q]} :: q in H.kind ==> !Fits(H, q, nb)
  }

  ghost predicate SmallestFit(H: Heap, dv: int, nb: int, large: bool, p: int) {
    p in H.size && forall q {:trigger H.kind[q]} ::
      q in H.kind && Fits(H, q, nb) && (q != dv || large) ==> H.size[p] <= H.size[q]
  }

  /** A chunk of a small bin, of the size asked for or the next one up: too little of it is left over for a chunk. */
  ghost predicate Near(H: Heap, dv: int, nb: int, q: int) {
    Fits(H, q, nb) && q != dv && H.size[q] <= nb + 8 && H.size[q] < 256
  }

  ghost predicate NoneNear(H: Heap, dv: int, nb: int) {
    forall q {:trigger H.kind[q]} :: q in H.kind ==> !Near(H, dv, nb, q)
  }

  /** The chunk that serves a request: top when no other chunk has room.  A large request takes the smallest chunk with
      room, dv before others of its size.  A small one takes the smallest of the chunks but dv if that is a near fit, or
      if dv has no room; otherwise dv. */
  ghost predicate Chosen(H: Heap, dv: int, nb: int, large: bool, p: int) {
    if NoneFit(H, nb) then
      p == H.top && p in H.size && nb < H.size[p]
    else
      && Fits(H, p, nb)
      && if large then SmallestFit(H, dv, nb, true, p) && (p != dv && Fits(H, dv, nb) ==> H.size[p] < H.size[dv])
         else if NoneNear(H, dv, nb) && Fits(H, dv, nb) then p == dv
         else p != dv && SmallestFit(H, dv, nb, false, p)
  }

  /** dv once chunk p has served: what is left of dv stays dv, and what is left of any other chunk that a small request
      took from a bin becomes dv. */
  ghost predicate DvAfter(H: Heap, dv: int, nb: int, large: bool, p: int, dv': int) {
    p in H.size && dv' == if p == H.top || (large && p != dv) then dv
                          else if MIN_CHUNK_SIZE <= H.size[p] - nb then p + nb
                          else if p == dv then 0 else dv
  }

  /** What is left of the binned chunk p, when it is a chunk, is dv'. */
  ghost predicate RestIsDv(binned: map<int, int>, p: int, nb: int, dv: int, dv': int) {
    p in binned && dv' == if binned[p] - nb >= MIN_CHUNK_SIZE then p + nb else dv
  }

  /** p leaves too little over for a chunk, and comes from a small bin. */
  ghost predicate NearBinned(binned: map<int, int>, p: int, nb: int) {
    p in binned && binned[p] <= nb + 8 && binned[p] < 256
  }

  lemma NotNone(H: Heap, dv: int, nb: int, p: int)
    requires p in H.kind && Fits(H, p, nb)
    ensures !NoneFit(H, nb) && (Near(H, dv, nb, p) ==> !NoneNear(H, dv, nb))
  {
    var _ := H.kind[p];
  }

  lemma NoneNearFits(H: Heap, dv: int, binned: map<int, int>, nb: int)
    requires BinnedExactly(H, dv, {}, binned) && BinStore.NoneNearBinned(binned, nb)
    ensures NoneNear(H, dv, nb)
  {
    forall q {:trigger H.kind[q]} | q in H.kind ensures !Near(H, dv, nb, q) {
      if q in binned { var _ := binned[q]; }
    }
  }

  lemma ChosenBinned(H: Heap, dv: int, dvsize: int, binned: map<int, int>, p: int, nb: int, large: bool)
    requires BinnedExactly(H, dv, {}, binned) && DvOk(H, dv, dvsize) && BinStore.SmallestBinned(binned, p, nb) && 0 < nb
      && 0 !in H.size
    requires large && nb <= dvsize ==> !BinStore.NoneBetween(binned, nb, dvsize)
    requires !large && nb <= dvsize ==> NearBinned(binned, p, nb)
    ensures Chosen(H, dv, nb, large, p) && !NoneFit(H, nb)
  {
    hide NoneFit, NoneNear;
    NotNone(H, dv, nb, p);
    forall q {:trigger H.kind[q]} | q in H.kind && Fits(H, q, nb) && (q != dv || large) ensures H.size[p] <= H.size[q] {
      if q != dv { var _ := binned[q]; }
    }
    var _ := H.kind[p];
  }

  lemma ChosenDv(H: Heap, dv: int, dvsize: int, binned: map<int, int>, nb: int, large: bool)
    requires BinnedExactly(H, dv, {}, binned) && DvOk(H, dv, dvsize) && 0 < nb <= dvsize
    requires large ==> BinStore.NoneBetween(binned, nb, dvsize)
    requires !large ==> BinStore.NoneNearBinned(binned, nb)
    ensures Chosen(H, dv, nb, large, dv) && !NoneFit(H, nb)
  {
    hide NoneFit, NoneNear;
    NotNone(H, dv, nb, dv);
    if !large { NoneNearFits(H, dv, binned, nb); }
    forall q {:trigger H.kind[q]} | q in H.kind && Fits(H, q, nb) && large ensures H.size[dv] <= H.size[q] {
      if q != dv { var _ := binned[q]; }
    }
    var _ := H.kind[dv];
  }

  lemma DvAfterBinned(H: Heap, dv: int, binned: map<int, int>, p: int, nb: int, large: bool, dv': int)
    requires BinnedExactly(H, dv, {}, binned) && BinStore.SmallestBinned(binned, p, nb)
    requires if large then dv' == dv else RestIsDv(binned, p, nb, dv, dv')
    ensures DvAfter(H, dv, nb, large, p, dv')
  {
  }

  lemma DvAfterDv(H: Heap, dv: int, dvsize: int, nb: int, large: bool, dv': int)
    requires DvOk(H, dv, dvsize) && 0 < dvsize && dv' == if MIN_CHUNK_SIZE <= dvsize - nb then dv + nb else 0
    ensures DvAfter(H, dv, nb, large, dv, dv')
  {
  }

  lemma DvAfterTop(H: Heap, dv: int, nb: int, large: bool, top: int, topsize: int)
    requires TopCached(H, top, topsize)
    ensures DvAfter(H, dv, nb, large, top, dv)
  {
  }

  lemma ChosenNone(H: Heap, dv: int, dvsize: int, binned: map<int, int>, nb: int)
    requires BinnedExactly(H, dv, {}, binned) && DvOk(H, dv, dvsize) && dvsize < nb && BinStore.NoneBinned(binned, nb)
      && 0 !in H.size
    ensures NoneFit(H, nb)
  {
    forall q {:trigger H.kind[q]} | q in H.kind ensures !Fits(H, q, nb) {
      if q in binned { var _ := binned[q]; }
    }
  }
}
