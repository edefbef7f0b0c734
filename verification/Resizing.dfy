/** Cutting a chunk in use in two, and growing one into top. */
module Resizing {
  import opened ChunkLayout
  import opened BoundaryTags
  import opened Segments
  import opened HeapSteps
  import opened ChunkSteps
  import opened Coalesce

  /** set_inuse of the low part and of the high part of chunk p. */
  function CutHead(head: map<int, Head>, p: int, m: int, n: int): map<int, Head> {
    if p in head
      && n in head then head[p := Head(m - p, head[p].pinuse, true)][m := Head(n - m, true,
      true)][n := head[n].(pinuse := true)] else head
  }

  /** The two set_inuse calls, whatever the caller had left where the head of the second chunk goes. */
  lemma CutWords(head: map<int, Head>, p: int, nb: int, rsize: int, was: Head)
    requires p in head && p + nb + rsize in head && 0 < nb && 0 < rsize
    ensures var r := p + nb;
      var head1 := head[p := Head(nb, head[p].pinuse, true)];
      var head2 := head1[r := was.(pinuse := true)];
      var head3 := head2[r := Head(rsize, head2[r].pinuse, true)];
      head3[r + rsize := head3[r + rsize].(pinuse := true)] == CutHead(head, p, r, r + rsize)
  {
  }

  /** The same two calls the other way round. */
  lemma CutWordsBack(head: map<int, Head>, p: int, nb: int, rsize: int, was: Head)
    requires p in head && p + nb + rsize in head && head[p + nb + rsize].pinuse && 0 < nb && 0 < rsize
    ensures var r := p + nb;
      var head1 := head[r := Head(rsize, was.pinuse, true)];
      var head2 := head1[r + rsize := head1[r + rsize].(pinuse := true)];
      var head3 := head2[p := Head(nb, head2[p].pinuse, true)];
      head3[r := head3[r].(pinuse := true)] == CutHead(head, p, r, r + rsize)
  {
  }

  lemma GrownWords(head: map<int, Head>, p: int, nb: int, rsize: int, was: Head)
    requires p in head && 0 < nb
    ensures var r := p + nb;
      var head1 := head[p := Head(nb, head[p].pinuse, true)];
      var head2 := head1[r := was.(pinuse := true)];
      head2[r := Head(rsize, true, false)] == GrownHead(head, p, r, r + rsize)
  {
  }

  lemma CutRewritten(H: Heap, head: map<int, Head>, foot: map<int, int>, p: int, nb: int)
    requires Physical(H, head, foot) && IsLive(H, p) && MIN_CHUNK_SIZE <= nb && nb % 8 == 0
      && MIN_CHUNK_SIZE <= H.size[p] - nb
    ensures var m, n := p + nb, NextOf(H.size, p);
      && MayRetile(H, p, m, n, Live, Live, head) && !(p <= H.top < n)
      && Rewritten(head, foot, p, m, n, Live, Live, false, CutHead(head, p, m, n), foot)
  {
    hide Physical, Span;
    LiveFacts(H, head, foot, p);
  }

  /** A chunk in use has no binned chunk and no chunk of the allocator's own in it. */
  lemma LiveInHand(H: Heap, head: map<int, Head>, foot: map<int, int>, base: int, least: int, dv: int, dvsize: int,
                   binned: map<int, int>, p: int)
    requires Physical(H, head, foot) && HeapPlaced(H, base, least) && BinnedExactly(H, dv, {}, binned)
      && DvOk(H, dv, dvsize) && IsLive(H, p)
    ensures var n := NextOf(H.size, p);
      InHand(H, binned, p, n) && p < n && !(p <= H.top < n) && (dvsize == 0 || dv < p || n <= dv)
  {
    hide Physical, Span;
    LiveFacts(H, head, foot, p);
    var n := NextOf(H.size, p);
    var _ := H.size[p];
    if dvsize != 0 { var _ := H.size[dv]; }
    forall x {:trigger binned[x]} | x in binned ensures x < p || n <= x { var _ := H.size[x]; }
    forall q {:trigger H.kind[q]} | q in H.size && q in H.kind && p <= q < n
      ensures !H.kind[q].Meta? { var _ := H.size[q]; }
  }

  ghost predicate PinuseAt(head: map<int, Head>, x: int) {
    x in head && head[x].pinuse
  }

  lemma CutStep(H: Heap, head: map<int, Head>, foot: map<int, int>, base: int, least: int, regions: seq<Region>,
                seg: Segment, records: map<int, Segment>, dv: int, dvsize: int, binned: map<int, int>, p: int, nb: int)
    requires SpaceOk(H, head, foot, base, least, regions, seg, records, dv, {}, binned) && DvOk(H, dv, dvsize)
    requires IsLive(H, p) && MIN_CHUNK_SIZE <= nb && nb % 8 == 0 && MIN_CHUNK_SIZE <= EndOf(H, p) - p - nb
    ensures var m, n := p + nb, EndOf(H, p); SpaceOk(RetileHeap(H, p, m, n, Live, Live), CutHead(head, p, m, n), foot,
                                                     base, least, regions, seg, records, dv, {}, binned)
    ensures p in head && PinuseAt(head, EndOf(H, p)) && p < EndOf(H, p)
    ensures var n := EndOf(H, p); !(p <= H.top < n) && (dvsize == 0 || dv < p || n <= dv)
    ensures MayRetile(H, p, p + nb, EndOf(H, p), Live, Live, head)
  {
    hide Physical, HeapPlaced, SegmentsOk, BinnedExactly, MayRetile, Rewritten, InHand, Retile, RetileKinds, CutHead;
    SpacePhysical(H, head, foot, base, least, regions, seg, records, dv, {}, binned);
    LiveFacts(H, head, foot, p);
    CutRewritten(H, head, foot, p, nb);
    LiveInHand(H, head, foot, base, least, dv, dvsize, binned, p);
    var m, n := p + nb, EndOf(H, p);
    RetileSpace(H, head, foot, base, least, regions, seg, records, dv, {}, binned, p, m, n, Live, Live,
      CutHead(head, p, m, n), foot, dv, {});
  }

  /** set_inuse of the grown chunk, then the head of what is left of top. */
  function GrownHead(head: map<int, Head>, p: int, m: int, n: int): map<int, Head> {
    if p in head then head[p := Head(m - p, head[p].pinuse, true)][m := Head(n - m, true, false)] else head
  }

  /** A chunk in use with top right after it. */
  ghost predicate TopAfter(H: Heap, p: int) {
    IsLive(H, p) && EndOf(H, p) == H.top
  }

  lemma GrowRewritten(H: Heap, head: map<int, Head>, foot: map<int, int>, p: int, nb: int)
    requires Physical(H, head, foot) && TopAfter(H, p) && MIN_CHUNK_SIZE <= nb && nb % 8 == 0
      && p + nb < EndOf(H, H.top)
    ensures var m, n := p + nb, EndOf(H, H.top);
      && MayRetile(H, p, m, n, Live, Free, head) && p < H.top < n && n in head
      && Rewritten(head, foot, p, m, n, Live, Free, true, GrownHead(head, p, m, n), foot)
      && (forall x {:trigger H.size[x]} :: x in H.size && p <= x < n ==> x == p || x == H.top)
  {
    hide Physical, Span;
    LiveFacts(H, head, foot, p);
    TopFacts(H, head, foot);
    SpanJoin(H.size, H.starts, H.ends, p, H.top, EndOf(H, H.top));
  }

  lemma GrowInHand(H: Heap, base: int, least: int, dv: int, dvsize: int, binned: map<int, int>, p: int, n: int)
    requires HeapPlaced(H, base, least) && BinnedExactly(H, dv, {}, binned) && DvOk(H, dv, dvsize) && TopAfter(H, p)
    requires H.top in H.size && n == EndOf(H, H.top) && IsFree(H, H.top)
    requires forall x {:trigger H.size[x]} :: x in H.size && p <= x < n ==> x == p || x == H.top
    ensures InHand(H, binned, p, n) && (dvsize == 0 || dv < p || n <= dv)
  {
    var _ := H.size[H.top];
    if dvsize != 0 { var _ := H.size[dv]; }
    forall x {:trigger binned[x]} | x in binned ensures x < p || n <= x { var _ := H.size[x]; }
    forall q {:trigger H.kind[q]} | q in H.size && q in H.kind && p <= q < n
      ensures !H.kind[q].Meta? { var _ := H.size[q]; }
  }

  lemma GrowStep(H: Heap, head: map<int, Head>, foot: map<int, int>, base: int, least: int, regions: seq<Region>,
                 seg: Segment, records: map<int, Segment>, dv: int, dvsize: int, binned: map<int, int>, p: int, nb: int)
    requires SpaceOk(H, head, foot, base, least, regions, seg, records, dv, {}, binned) && DvOk(H, dv, dvsize)
    requires TopAfter(H, p) && MIN_CHUNK_SIZE <= nb && nb % 8 == 0 && p + nb < EndOf(H, H.top)
    ensures var m, n := p + nb, EndOf(H, H.top);
      SpaceOk(RetileHeap(H, p, m, n, Live, Free), GrownHead(head, p, m, n), foot,
                                                         base, least, regions, seg, records, dv, {}, binned)
    ensures p in head && p < H.top < EndOf(H, H.top) && (dvsize == 0 || dv < p || EndOf(H, H.top) <= dv)
    ensures MayRetile(H, p, p + nb, EndOf(H, H.top), Live, Free, head)
  {
    hide Physical, HeapPlaced, SegmentsOk, BinnedExactly, MayRetile, Rewritten, InHand, Retile, RetileKinds, GrownHead;
    SpacePhysical(H, head, foot, base, least, regions, seg, records, dv, {}, binned);
    LiveFacts(H, head, foot, p);
    TopFacts(H, head, foot);
    GrowRewritten(H, head, foot, p, nb);
    var m, n := p + nb, EndOf(H, H.top);
    GrowInHand(H, base, least, dv, dvsize, binned, p, n);
    RetileSpace(H, head, foot, base, least, regions, seg, records, dv, {}, binned, p, m, n, Live, Free,
      GrownHead(head, p, m, n), foot, dv, {});
  }

  lemma GrowCaches(H: Heap, dv: int, dvsize: int, p: int, m: int, n: int)
    requires DvOk(H, dv, dvsize) && p <= H.top < n && p < m < n && (dvsize == 0 || dv < p || n <= dv)
    ensures var H' := RetileHeap(H, p, m, n, Live, Free); DvOk(H', dv, dvsize) && TopCached(H', m, n - m)
  {
    RetileAt(H.size, p, m, n);
    RetileKindsAt(H.kind, p, m, n, Live, Free);
    hide Retile, RetileKinds;
  }
}
