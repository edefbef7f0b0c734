/** Giving a chunk back: the free run around it, and the heap once the run is one free chunk. */
module Coalesce {
  import opened ChunkLayout
  import opened BoundaryTags
  import opened Segments
  import opened HeapSteps
  import opened ChunkSteps

  /** A live chunk p up to q, the free chunk before it if a < p, the free chunk after it if q < n. */
  ghost predicate FreeRun(H: Heap, a: int, p: int, q: int, n: int) {
    && IsLive(H, p) && q == NextOf(H.size, p)
    && (a == p || (IsFree(H, a) && NextOf(H.size, a) == p))
    && (n == q || (IsFree(H, q) && NextOf(H.size, q) == n))
  }

  /** The run leaves no free neighbour out. */
  ghost predicate FullRun(H: Heap, head: map<int, Head>, a: int, p: int, q: int, n: int) {
    && FreeRun(H, a, p, q, n) && p in head && (a == p <==> head[p].pinuse) && (n == q <==> !IsFree(H, q))
  }

  lemma LiveFacts(H: Heap, head: map<int, Head>, foot: map<int, int>, p: int)
    requires Physical(H, head, foot) && IsLive(H, p)
    ensures var q := NextOf(H.size, p);
      && Span(H.size, H.starts, H.ends, p, q) && p < q && p % 8 == 0 && q % 8 == 0 && MIN_CHUNK_SIZE <= q - p
         && !(p <= H.top < q)
      && p in head && head[p] == Head(q - p, head[p].pinuse, true) && p != H.top
      && q in H.size && q in H.kind && q in head && head[q].pinuse && head[q].size == H.size[q] > 0
         && head[q].cinuse == !H.kind[q].Free?
      && (forall x {:trigger H.size[x]} :: x in H.size && p <= x < q ==> x == p)
  {
    ChunkSpan(H, p);
    hide Closed, EndsClear, StartsClear, NoOverlap, NoAdjacentFree, FeetMatch, PrevsMatch, StartsPinuse, Span;
    var q := NextOf(H.size, p);
    assert 0 < H.size[q];
    var _ := head[p];
    var _ := H.size[H.top];
    var _ := head[q];
  }

  /** What is known of a run before it is merged. */
  ghost predicate RunFacts(H: Heap, head: map<int, Head>, a: int, p: int, q: int, n: int) {
    && Span(H.size, H.starts, H.ends, a, n) && a <= p < q <= n && n % 8 == 0 && MIN_CHUNK_SIZE <= n - a
    && a in head && head[a].pinuse && n in head
    && (a <= H.top < n <==> q == H.top) && a != H.top
    && (if q == H.top then n in H.ends && q < n else n in H.size && n in H.kind && !H.kind[n].Free?)
    && (forall x {:trigger H.size[x]} :: x in H.size && a <= x < n ==> x == a || x == p || x == q)
  }

  lemma RunBack(H: Heap, head: map<int, Head>, foot: map<int, int>, a: int, p: int, q: int, n: int)
    requires Physical(H, head, foot) && FullRun(H, head, a, p, q, n)
    ensures Span(H.size, H.starts, H.ends, a, q) && a <= p && a in head && head[a].pinuse && a != H.top
      && !(a <= H.top < q)
    ensures forall x {:trigger H.size[x]} :: x in H.size && a <= x < q ==> x == a || x == p
  {
    LiveFacts(H, head, foot, p);
    hide Physical, Span;
    if a < p {
      PrevNotTop(H, head, foot, a, p);
      FreeFacts(H, head, foot, a);
      SpanJoin(H.size, H.starts, H.ends, a, p, q);
    } else {
      RunOrder(H, head, foot, a, p);
    }
  }

  lemma RunOrder(H: Heap, head: map<int, Head>, foot: map<int, int>, a: int, p: int)
    requires Physical(H, head, foot) && (a == p || (IsFree(H, a) && NextOf(H.size, a) == p))
    ensures a <= p
  {
    if a != p { var _ := H.size[a]; }
  }

  /** Top is followed by no chunk. */
  lemma PrevNotTop(H: Heap, head: map<int, Head>, foot: map<int, int>, a: int, p: int)
    requires Physical(H, head, foot) && a in H.size && NextOf(H.size, a) == p && p in H.size
    ensures a != H.top
  {
    hide Tagged, Closed, StartsClear, NoOverlap, Sized, LiveInside, NoAdjacentFree;
    assert 0 < H.size[p];
  }

  lemma RunIsKnown(H: Heap, head: map<int, Head>, foot: map<int, int>, a: int, p: int, q: int, n: int)
    requires Physical(H, head, foot) && FullRun(H, head, a, p, q, n)
    ensures RunFacts(H, head, a, p, q, n) && n in head && (q < n ==> !head[n].pinuse)
  {
    hide Physical, Span;
    RunBack(H, head, foot, a, p, q, n);
    LiveFacts(H, head, foot, p);
    TopFacts(H, head, foot);
    RunOrder(H, head, foot, q, n);
    if q < n {
      if q != H.top { FreeFacts(H, head, foot, q); }
      SpanJoin(H.size, H.starts, H.ends, a, q, n);
    }
  }

  /** set_free_with_pinuse, or its two halves: the head of the run, its foot, and PINUSE after it. */
  function MergedHead(head: map<int, Head>, a: int, n: int): map<int, Head> {
    (if n in head then head[n := head[n].(pinuse := false)] else head)[a := Head(n - a, true, false)]
  }

  lemma MergedHeadIs(head: map<int, Head>, a: int, n: int)
    requires n in head
    ensures MergedHead(head, a, n) == head[n := head[n].(pinuse := false)][a := Head(n - a, true, false)]
  {
  }

  /** After a free chunk PINUSE is clear already. */
  lemma MergedHeadShort(head: map<int, Head>, a: int, n: int)
    requires n in head && !head[n].pinuse
    ensures MergedHead(head, a, n) == head[a := Head(n - a, true, false)]
  {
    assert head[n := head[n].(pinuse := false)] == head;
  }

  /** Which chunk is the designated victim once the run is merged. */
  function MergedDv(top: int, dv: int, a: int, q: int): int {
    if q == top then (if dv == a then 0 else dv) else if dv == a || dv == q then a else dv
  }

  /** The merged run is in hand unless it became top or dv. */
  function MergedHand(top: int, dv: int, a: int, q: int): set<int> {
    if q == top || dv == a || dv == q then {} else {a}
  }

  lemma MergeHands(H: Heap, head: map<int, Head>, a: int, p: int, q: int, n: int, dv: int, loose: set<int>)
    requires RunFacts(H, head, a, p, q, n) && 0 !in H.size && loose <= {a, q} && dv != p
    requires (dv == q || q in loose) ==> q < n
    ensures HandsOver(H, a, n, n, Free, Free, dv, MergedDv(H.top, dv, a, q), loose, MergedHand(H.top, dv, a, q))
  {
    hide Span;
  }

  lemma MergeInHand(H: Heap, head: map<int, Head>, a: int, p: int, q: int, n: int, dv: int, loose: set<int>,
                    binned: map<int, int>)
    requires RunFacts(H, head, a, p, q, n) && FreeRun(H, a, p, q, n) && BinnedExactly(H, dv, loose, binned)
    requires (a < p ==> a !in binned) && (q < n && q != H.top ==> q !in binned) && n <= SIZE_T_RANGE
    ensures InHand(H, binned, a, n)
  {
    hide Span;
    forall x {:trigger binned[x]} | x in binned ensures x < a || n <= x { var _ := H.size[x]; }
    forall x {:trigger H.kind[x]} | x in H.size && x in H.kind && a <= x < n
      ensures !H.kind[x].Meta? { var _ := H.size[x]; }
  }

  lemma MergeRewritten(H: Heap, head: map<int, Head>, foot: map<int, int>, a: int, p: int, q: int, n: int)
    requires Physical(H, head, foot) && RunFacts(H, head, a, p, q, n)
    ensures MayRetile(H, a, n, n, Free, Free, head)
    ensures Rewritten(head, foot, a, n, n, Free, Free, a <= H.top < n, MergedHead(head, a, n), if q == H.top then foot
      else foot[n := n - a])
  {
    hide Physical, Span;
  }

  lemma MergeStep(H: Heap, head: map<int, Head>, foot: map<int, int>, base: int, least: int, regions: seq<Region>,
                  seg: Segment, records: map<int, Segment>, dv: int, loose: set<int>, binned: map<int, int>, a: int,
                    p: int, q: int, n: int)
    requires SpaceOk(H, head, foot, base, least, regions, seg, records, dv, loose, binned)
      && FullRun(H, head, a, p, q, n)
    requires (a < p ==> a !in binned) && (q < n && q != H.top ==> q !in binned) && loose <= {a, q} && dv != p
    requires (dv == q || q in loose) ==> q < n
    ensures n in head && MayRetile(H, a, n, n, Free, Free, head)
    ensures SpaceOk(RetileHeap(H, a, n, n, Free, Free), MergedHead(head, a, n), if q == H.top then foot
      else foot[n := n - a],
                    base, least, regions, seg, records, MergedDv(H.top, dv, a, q), MergedHand(H.top, dv, a, q), binned)
  {
    hide Physical, HeapPlaced, SegmentsOk, BinnedExactly, FullRun, RunFacts, MayRetile, Rewritten, InHand, HandsOver,
      MergedHead, MergedDv, MergedHand;
    hide Retile, RetileKinds;
    SpacePhysical(H, head, foot, base, least, regions, seg, records, dv, loose, binned);
    RunIsKnown(H, head, foot, a, p, q, n);
    RunEnd(H, head, base, least, a, p, q, n);
    MergeHands(H, head, a, p, q, n, dv, loose);
    MergeInHand(H, head, a, p, q, n, dv, loose, binned);
    MergeRewritten(H, head, foot, a, p, q, n);
    RetileSpace(H, head, foot, base, least, regions, seg, records, dv, loose, binned, a, n, n, Free, Free,
                MergedHead(head, a, n), if q == H.top then foot
                  else foot[n := n - a], MergedDv(H.top, dv, a, q), MergedHand(H.top, dv, a, q));
  }

  lemma RunEnd(H: Heap, head: map<int, Head>, base: int, least: int, a: int, p: int, q: int, n: int)
    requires RunFacts(H, head, a, p, q, n) && FullRun(H, head, a, p, q, n) && HeapPlaced(H, base, least)
    ensures FreeRun(H, a, p, q, n) && n <= SIZE_T_RANGE && n in head && q <= n
  {
    hide Span;
    var _ := H.size[p];
    if q < n { var _ := H.size[q]; }
  }

  lemma RunAround(H: Heap, head: map<int, Head>, foot: map<int, int>, a: int, p: int, q: int, n: int)
    requires Physical(H, head, foot) && FullRun(H, head, a, p, q, n)
    ensures a <= p < q
  {
    LiveFacts(H, head, foot, p);
    hide Physical, Span;
    RunBack(H, head, foot, a, p, q, n);
  }

  lemma RunPlaced(H: Heap, head: map<int, Head>, base: int, least: int, a: int, p: int, q: int, n: int)
    requires RunFacts(H, head, a, p, q, n) && FullRun(H, head, a, p, q, n) && HeapPlaced(H, base, least)
    ensures 0 < a < n && MIN_CHUNK_SIZE <= n - a && a != H.top && (q == H.top ==> n == NextOf(H.size, H.top))
  {
    hide Span;
    var _ := H.size[a];
  }

  lemma LiveNotDv(H: Heap, dv: int, dvsize: int, p: int)
    requires IsLive(H, p) && DvOk(H, dv, dvsize) && 0 !in H.size
    ensures dv != p
  {
  }

  lemma MergeCaches(H: Heap, head: map<int, Head>, a: int, p: int, q: int, n: int, dv: int, dvsize: int, top: int,
                    topsize: int)
    requires RunFacts(H, head, a, p, q, n) && DvOk(H, dv, dvsize) && TopCached(H, top, topsize) && 0 < a
      && FreeRun(H, a, p, q, n)
    requires dv == q ==> q < n
    ensures var H' := RetileHeap(H, a, n, n, Free, Free); var dv' := MergedDv(top, dv, a, q);
      DvOk(H', dv', if dv' == 0 then 0 else if dv' == a then n - a else dvsize)
    ensures var H' := RetileHeap(H, a, n, n, Free, Free);
      TopCached(H', if q == top then a else top, if q == top then n - a else topsize)
    ensures var H' := RetileHeap(H, a, n, n, Free, Free);
      a in H'.size && a in H'.kind && H'.kind[a].Free? && H'.size[a] == n - a
  {
    hide Span;
    if dvsize != 0 { var _ := H.size[dv]; }
    RetileAt(H.size, a, n, n);
    RetileKindsAt(H.kind, a, n, n, Free, Free);
    hide Retile, RetileKinds;
  }

  /** dv once chunk c is freed: a run that took the old one in is dv, unless it is top. */
  ghost predicate DvMerged(H: Heap, c: int, dv: int, dv': int) {
    exists a {:trigger IsFree(H, a)} :: IsFree(H, a) && a <= c < EndOf(H, a)
      && dv' == if a <= dv < EndOf(H, a) then (if a == H.top then 0 else a) else dv
  }

  lemma DvIsMerged(H: Heap, head: map<int, Head>, foot: map<int, int>, dv: int, dv': int, dvsize': int, a: int, c: int)
    requires Physical(H, head, foot) && DvOk(H, dv', dvsize') && IsFree(H, a) && 0 < a <= c < EndOf(H, a)
    requires dv' == dv || (dv' == a <= dv < EndOf(H, a)) || (dv' == 0 && dv == a == H.top)
    ensures DvMerged(H, c, dv, dv')
  {
    hide Closed, StartsClear, EndsClear, Tagged, NoAdjacentFree, LiveInside, TopPlaced;
    if dv' == dv && a <= dv < EndOf(H, a) {
      assert 0 < H.size[a] && 0 < H.size[dv];
    }
    assert IsFree(H, a);
  }

  // ---- what freeing does to the heap ----

  ghost predicate FreeBefore(H: Heap, x: int, p: int) {
    IsFree(H, x) && NextOf(H.size, x) == p
  }

  /** Where the free run around p starts. */
  ghost function RunStart(H: Heap, p: int): int {
    if x :| FreeBefore(H, x, p) then x else p
  }

  /** Where it stops. */
  ghost function RunStop(H: Heap, p: int): int {
    if IsFree(H, EndOf(H, p)) then EndOf(H, EndOf(H, p)) else EndOf(H, p)
  }

  /** The heap once chunk p has been given back: p and its free neighbours are one free chunk. */
  ghost function Freed(H: Heap, p: int): Heap {
    RetileHeap(H, RunStart(H, p), RunStop(H, p), RunStop(H, p), Free, Free)
  }

  lemma RunIsFreed(H: Heap, head: map<int, Head>, foot: map<int, int>, a: int, p: int, q: int, n: int)
    requires Physical(H, head, foot) && FullRun(H, head, a, p, q, n)
    ensures Freed(H, p) == RetileHeap(H, a, n, n, Free, Free)
  {
    hide Retile, RetileKinds, Closed, StartsClear, EndsClear, Sized, LiveInside, NoAdjacentFree, FeetMatch, PrevsMatch,
      StartsPinuse, HeadsMatch, TopPlaced;
    if a != p { assert FreeBefore(H, a, p); }
    forall x | FreeBefore(H, x, p) ensures x == a {
      assert 0 < H.size[x];
      if a != p { assert 0 < H.size[a]; }
    }
  }

  // ---- what mspace_free finds ----

  /** The start and the stop of the run that the words around chunk c show. */
  function SeenStart(head: map<int, Head>, foot: map<int, int>, c: int): int {
    if c in head && !head[c].pinuse && c in foot then c - foot[c] else c
  }

  function SeenStop(head: map<int, Head>, q: int): int {
    if q in head && !head[q].cinuse then q + head[q].size else q
  }

  /** The chunk after c, as its head words show it. */
  ghost predicate NextSeen(H: Heap, head: map<int, Head>, dv: int, dvsize: int, top: int, topsize: int,
                           binned: map<int, int>, q: int)
  {
    && q in head && q in H.size && head[q].pinuse && (head[q].cinuse <==> !IsFree(H, q))
    && 0 < head[q].size
    && (if head[q].cinuse then q != top && q != dv
        else if q == top then head[q].size == topsize && q != dv
        else if q == dv then head[q].size == dvsize
        else q in binned && binned[q] == head[q].size)
  }

  lemma NextFound(H: Heap, head: map<int, Head>, foot: map<int, int>, base: int, least: int, dv: int, dvsize: int,
                  top: int, topsize: int,
                  binned: map<int, int>, c: int)
    requires Physical(H, head, foot) && BinnedExactly(H, dv, {}, binned) && DvOk(H, dv, dvsize)
      && TopCached(H, top, topsize)
    requires IsLive(H, c) && 0 !in H.size
    ensures c in head && head[c].cinuse && c < c + head[c].size == NextOf(H.size, c)
    ensures NextSeen(H, head, dv, dvsize, top, topsize, binned, c + head[c].size)
  {
    hide Physical;
    LiveFacts(H, head, foot, c);
    TopFacts(H, head, foot);
    var q := NextOf(H.size, c);
    var _ := H.kind[q];
  }

  /** The chunk before c, as prev_foot shows it. */
  ghost predicate PrevSeen(H: Heap, foot: map<int, int>, least: int, dv: int, top: int, binned: map<int, int>, c: int) {
    && c in foot && 0 < foot[c] && var a := c - foot[c];
      && IsFree(H, a) && NextOf(H.size, a) == c && least <= a && a != top
         && (if a == dv then true else a in binned && binned[a] == foot[c])
  }

  lemma PrevFound(H: Heap, head: map<int, Head>, foot: map<int, int>, base: int, least: int, dv: int, top: int,
                  binned: map<int, int>, c: int)
    requires Physical(H, head, foot) && HeapPlaced(H, base, least) && BinnedExactly(H, dv, {}, binned) && H.top == top
    requires IsLive(H, c)
    ensures 0 < least <= c && c in head && (!head[c].pinuse ==> PrevSeen(H, foot, least, dv, top, binned, c))
  {
    hide Tiled, Sized, NoAdjacentFree, LiveInside, PinusesMatch, FeetMatch, StartsPinuse, TopPlaced;
    LiveFacts(H, head, foot, c);
    var _ := H.size[c];
    if !head[c].pinuse {
      PrevAt(H.size, H.kind, head, foot, c);
      var a := c - foot[c];
      PrevNotTop(H, head, foot, a, c);
      var _ := H.size[a];
      var _ := H.kind[a];
      FreeFacts(H, head, foot, a);
    }
  }

  lemma CachesUnbinned(H: Heap, dv: int, binned: map<int, int>)
    requires BinnedExactly(H, dv, {}, binned)
    ensures dv !in binned && H.top !in binned
  {
    forall x {:trigger binned[x]} | x in binned ensures x != dv && x != H.top { }
  }

  /** The run the words show is the whole free run. */
  lemma SeenIsFull(H: Heap, head: map<int, Head>, foot: map<int, int>, least: int, dv: int, dvsize: int, top: int,
                   topsize: int,
                   binned: map<int, int>, c: int)
    requires Physical(H, head, foot) && IsLive(H, c) && c in head && H.top == top
    requires NextSeen(H, head, dv, dvsize, top, topsize, binned, EndOf(H, c))
    requires !head[c].pinuse ==> PrevSeen(H, foot, least, dv, top, binned, c)
    ensures FullRun(H, head, SeenStart(head, foot, c), c, EndOf(H, c), SeenStop(head, EndOf(H, c)))
  {
    hide Closed, EndsClear, StartsClear, NoOverlap, Sized, NoAdjacentFree, LiveInside, PinusesMatch, FeetMatch,
      StartsPinuse, PrevsMatch, TopPlaced;
    var q := EndOf(H, c);
    var _ := head[q];
    assert 0 < H.size[q];
  }
}
