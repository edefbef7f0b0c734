/** add_segment: a retired segment gets its record and fenceposts, and a new one becomes top. */
module Growth {
  import opened ChunkLayout
  import opened BoundaryTags
  import opened Segments
  import opened HeapSteps
  import opened ChunkSteps
  import opened Coalesce

  /** The heap once chunk c holds the old segment's record and [tbase, tbase + psize) is top. */
  function Extended(H: Heap, c: int, tbase: int, psize: int): Heap {
    Heap(H.size[c := SEGMENT_CHUNK][tbase := psize], H.kind[c := Meta][tbase := Free], H.starts + {tbase},
         H.ends - {EndOf(H, H.top)} + {c + SEGMENT_CHUNK, tbase + psize}, tbase)
  }

  /** Nothing lies in [lo, hi) but perhaps an end marker at lo. */
  ghost predicate ZoneClear(H: Heap, lo: int, hi: int) {
    && (forall p {:trigger H.size[p]} :: p in H.size ==> p + H.size[p] <= lo || hi <= p)
    && (forall e {:trigger e in H.ends} :: e in H.ends ==> e <= lo || hi <= e)
  }

  /** Nothing lies in [lo, hi) or runs up to lo. */
  ghost predicate NewClear(H: Heap, lo: int, hi: int) {
    && (forall p {:trigger H.size[p]} :: p in H.size ==> p + H.size[p] < lo || hi <= p)
    && (forall e {:trigger e in H.ends} :: e in H.ends ==> e < lo || hi <= e)
  }

  /** Where the record goes: behind the old top, or in its place when it is too small to be a chunk. */
  ghost predicate RecordPlace(H: Heap, c: int) {
    var t, e := H.top, EndOf(H, H.top);
    t in H.size && t < e && if c == t then e - t < MIN_CHUNK_SIZE else c == e && MIN_CHUNK_SIZE <= e - t
  }

  ghost predicate MayExtend(H: Heap, c: int, tbase: int, psize: int) {
    var t, e := H.top, EndOf(H, H.top);
    && RecordPlace(H, c) && 0 < tbase && 8 <= psize
    && ZoneClear(H, e, e + TOP_FOOT_SIZE) && NewClear(H, tbase, tbase + psize + TOP_FOOT_SIZE)
    && (e + TOP_FOOT_SIZE <= tbase || tbase + psize + TOP_FOOT_SIZE <= t)
  }

  lemma ExtendedAt(H: Heap, c: int, tbase: int, psize: int)
    requires MayExtend(H, c, tbase, psize) && Positive(H.size)
    ensures var H' := Extended(H, c, tbase, psize);
      && c != tbase && H'.top == tbase && H'.starts == H.starts + {tbase}
      && (forall p {:trigger H'.size[p]} {:trigger p in H'.size} ::
         p in H'.size <==> p in H.size || p == c || p == tbase)
      && (forall p {:trigger H'.size[p]} ::
         p in H'.size ==> H'.size[p] == if p == c then SEGMENT_CHUNK else if p == tbase then psize else H.size[p])
      && tbase !in H.size && (c == H.top || c !in H.size) && (c == H.top ==> EndOf(H, H.top) < c + SEGMENT_CHUNK)
      && EndOf(H, H.top) < c + SEGMENT_CHUNK < EndOf(H, H.top) + TOP_FOOT_SIZE
      && (forall e {:trigger e in H'.ends} ::
         e in H'.ends <==> (e in H.ends && e != EndOf(H, H.top)) || e == c + SEGMENT_CHUNK || e == tbase + psize)
  {
    var H' := Extended(H, c, tbase, psize);
    forall p | p in H.size ensures p != tbase && (p == c ==> c == H.top) { assert 0 < H.size[p]; }
  }

  lemma ExtendNoOverlap(H: Heap, c: int, tbase: int, psize: int)
    requires MayExtend(H, c, tbase, psize) && Positive(H.size) && NoOverlap(H.size)
    ensures var H' := Extended(H, c, tbase, psize); Positive(H'.size) && NoOverlap(H'.size)
  {
    ExtendedAt(H, c, tbase, psize);
    hide Extended;
    var _ := H.size[H.top];
  }

  lemma ExtendClosed(H: Heap, c: int, tbase: int, psize: int)
    requires MayExtend(H, c, tbase, psize) && Positive(H.size) && Closed(H.size, H.ends) && NoOverlap(H.size)
    ensures var H' := Extended(H, c, tbase, psize); Closed(H'.size, H'.ends)
  {
    ExtendedAt(H, c, tbase, psize);
    var H' := Extended(H, c, tbase, psize);
    hide Extended;
    var _ := H.size[H.top];
    forall p {:trigger NextOf(H'.size, p)} | p in H'.size
      ensures NextOf(H'.size, p) in H'.size || NextOf(H'.size, p) in H'.ends {
      if p != c && p != tbase {
        var n := NextOf(H.size, p);
        if n == EndOf(H, H.top) {
          assert H.size[p] > 0 && H.size[H.top] > 0;
        }
      }
    }
  }

  lemma ExtendClear(H: Heap, c: int, tbase: int, psize: int)
    requires MayExtend(H, c, tbase, psize) && Tiled(H.size, H.starts, H.ends)
    ensures var H' := Extended(H, c, tbase, psize); EndsClear(H'.size, H'.ends) && StartsClear(H'.size, H'.starts)
  {
    ExtendedAt(H, c, tbase, psize);
    var H' := Extended(H, c, tbase, psize);
    hide Closed;
    hide Extended;
    var _ := H.size[H.top];
    forall s {:trigger s in H.starts} | s in H.starts
      ensures s in H.size && (s <= H.top || EndOf(H, H.top) + TOP_FOOT_SIZE <= s)
      && (s < tbase || tbase + psize < s)
    {
      assert 0 < H.size[s];
    }
    forall p {:trigger NextOf(H'.size, p)} | p in H'.size ensures NextOf(H'.size, p) !in H'.starts {
      if p in H.size { var _ := NextOf(H.size, p); }
    }
  }

  lemma ExtendedKinds(H: Heap, c: int, tbase: int, psize: int)
    requires MayExtend(H, c, tbase, psize) && Positive(H.size) && H.size.Keys == H.kind.Keys
    ensures var H' := Extended(H, c, tbase, psize);
      && H'.size.Keys == H'.kind.Keys
      && (forall p {:trigger H'.kind[p]} ::
         p in H'.kind ==> H'.kind[p] == if p == tbase then Free else if p == c then Meta else H.kind[p])
  {
  }

  lemma ExtendShape(H: Heap, c: int, tbase: int, psize: int)
    requires MayExtend(H, c, tbase, psize) && Positive(H.size) && H.size.Keys == H.kind.Keys && Sized(H.size, H.top)
      && LiveInside(H.size, H.kind)
    requires tbase % 8 == 0 && psize % 8 == 0
    ensures var H' := Extended(H, c, tbase, psize);
      Sized(H'.size, H'.top) && LiveInside(H'.size, H'.kind) && TopPlaced(H')
  {
    ExtendedAt(H, c, tbase, psize);
    ExtendedKinds(H, c, tbase, psize);
    var H' := Extended(H, c, tbase, psize);
    var _ := H.size[H.top];
    hide Extended, NewClear;
    forall p {:trigger NextOf(H'.size, p)} | p in H'.size && p in H'.kind && H'.kind[p].Live?
      ensures NextOf(H'.size, p) in H'.size {
      var _ := NextOf(H.size, p);
    }
    assert NextOf(H'.size, tbase) in H'.ends;
  }

  /** Only top runs up to the end marker after it. */
  lemma EndsOnce(H: Heap, p: int)
    requires NoOverlap(H.size) && Positive(H.size) && p in H.size && H.top in H.size && EndOf(H, p) == EndOf(H, H.top)
    ensures p == H.top
  {
    assert 0 < H.size[p] && 0 < H.size[H.top];
  }

  lemma ExtendNoAdjacentFree(H: Heap, c: int, tbase: int, psize: int)
    requires MayExtend(H, c, tbase, psize) && Positive(H.size) && NoOverlap(H.size) && H.size.Keys == H.kind.Keys
      && NoAdjacentFree(H.size, H.kind, H.top)
    ensures var H' := Extended(H, c, tbase, psize); NoAdjacentFree(H'.size, H'.kind, H'.top)
  {
    ExtendedAt(H, c, tbase, psize);
    ExtendedKinds(H, c, tbase, psize);
    var H' := Extended(H, c, tbase, psize);
    hide Extended, NewClear, ZoneClear, NoOverlap, Positive;
    forall p {:trigger NextOf(H'.size, p)} | p in H'.size && p in H'.kind && H'.kind[p].Free? && p != H'.top
      ensures NextOf(H'.size, p) in H'.size && NextOf(H'.size, p) in H'.kind && !H'.kind[NextOf(H'.size, p)].Free?
    {
      var _ := NextOf(H.size, p);
    }
  }

  /** head' and foot' differ from head and foot only as add_segment makes them. */
  ghost predicate ExtendedWords(H: Heap, c: int, tbase: int, psize: int, head: map<int, Head>, foot: map<int, int>,
                                head': map<int, Head>, foot': map<int, int>)
  {
    var t, e := H.top, EndOf(H, H.top);
    && (forall x {:trigger x in head'} {:trigger head'[x]} ::
       x in head && (x < e || e + TOP_FOOT_SIZE <= x) && x != c && x != tbase && x != tbase + psize ==>
          x in head' && head'[x] == head[x])
    && c in head' && head'[c] == Head(SEGMENT_CHUNK, c == t, true)
    && c + SEGMENT_CHUNK in head' && head'[c + SEGMENT_CHUNK].pinuse
    && tbase in head' && head'[tbase] == Head(psize, true, false)
    && tbase + psize in head' && !head'[tbase + psize].pinuse
    && foot' == if c == t then foot else foot[c := e - t]
  }

  lemma ExtendHeads(H: Heap, c: int, tbase: int, psize: int, head: map<int, Head>, foot: map<int, int>,
                    head': map<int, Head>, foot': map<int, int>)
    requires MayExtend(H, c, tbase, psize) && Positive(H.size) && H.size.Keys == H.kind.Keys
      && HeadsMatch(H.size, H.kind, head)
    requires ExtendedWords(H, c, tbase, psize, head, foot, head', foot')
    ensures var H' := Extended(H, c, tbase, psize); HeadsMatch(H'.size, H'.kind, head')
  {
    ExtendedAt(H, c, tbase, psize);
    ExtendedKinds(H, c, tbase, psize);
    var H' := Extended(H, c, tbase, psize);
    hide Extended;
    forall p {:trigger head'[p]} {:trigger H'.kind[p]} | p in H'.size && p in H'.kind
      ensures p in head' && head'[p].size == H'.size[p] && head'[p].cinuse == !H'.kind[p].Free?
    {
      if p != c && p != tbase {
        assert 0 < H.size[p];
        var _ := head[p];
      }
    }
  }

  lemma ExtendPinuses(H: Heap, c: int, tbase: int, psize: int, head: map<int, Head>, foot: map<int, int>,
                      head': map<int, Head>, foot': map<int, int>)
    requires MayExtend(H, c, tbase, psize) && Positive(H.size) && NoOverlap(H.size) && H.size.Keys == H.kind.Keys
      && PinusesMatch(H.size, H.kind, head)
    requires H.top in head && head[H.top].pinuse && H.kind[H.top].Free?
    requires ExtendedWords(H, c, tbase, psize, head, foot, head', foot')
    ensures var H' := Extended(H, c, tbase, psize); PinusesMatch(H'.size, H'.kind, head')
  {
    ExtendedAt(H, c, tbase, psize);
    ExtendedKinds(H, c, tbase, psize);
    var H' := Extended(H, c, tbase, psize);
    hide Extended, NoOverlap;
    forall p {:trigger NextOf(H'.size, p)} | p in H'.size && p in H'.kind
      ensures NextOf(H'.size, p) in head' && head'[NextOf(H'.size, p)].pinuse == !H'.kind[p].Free?
    {
      if p != c && p != tbase {
        var n := NextOf(H.size, p);
        assert 0 < H.size[p];
        if n == EndOf(H, H.top) { EndsOnce(H, p); }
      }
    }
  }

  lemma ExtendFeet(H: Heap, c: int, tbase: int, psize: int, head: map<int, Head>, foot: map<int, int>,
                   head': map<int, Head>, foot': map<int, int>)
    requires MayExtend(H, c, tbase, psize) && Positive(H.size) && NoOverlap(H.size) && H.size.Keys == H.kind.Keys
      && FeetMatch(H.size, H.kind, H.top, foot)
    requires ExtendedWords(H, c, tbase, psize, head, foot, head', foot')
    ensures var H' := Extended(H, c, tbase, psize); FeetMatch(H'.size, H'.kind, H'.top, foot')
  {
    ExtendedAt(H, c, tbase, psize);
    ExtendedKinds(H, c, tbase, psize);
    var H' := Extended(H, c, tbase, psize);
    hide Extended, NoOverlap, NewClear, ZoneClear;
    forall p {:trigger NextOf(H'.size, p)} | p in H'.size && p in H'.kind && H'.kind[p].Free? && p != H'.top
      ensures NextOf(H'.size, p) in foot' && foot'[NextOf(H'.size, p)] == H'.size[p]
    {
      var n := NextOf(H.size, p);
      if n == EndOf(H, H.top) { EndsOnce(H, p); }
    }
  }

  /** Chunks of the old heap keep their words. */
  lemma ExtendKeeps(H: Heap, c: int, tbase: int, psize: int, head: map<int, Head>, foot: map<int, int>,
                    head': map<int, Head>, foot': map<int, int>, q: int)
    requires MayExtend(H, c, tbase, psize) && Positive(H.size)
      && ExtendedWords(H, c, tbase, psize, head, foot, head', foot')
    requires q in H.size && q != c && q in head
    ensures q != tbase && q in head' && head'[q] == head[q] && (q in foot ==> q in foot' && foot'[q] == foot[q])
  {
    assert 0 < H.size[q];
  }

  lemma ExtendPrevAt(H: Heap, c: int, tbase: int, psize: int, head: map<int, Head>, foot: map<int, int>,
                     head': map<int, Head>, foot': map<int, int>, q: int)
    requires MayExtend(H, c, tbase, psize) && Tiled(H.size, H.starts, H.ends) && H.size.Keys == H.kind.Keys
      && PrevsMatch(H.size, H.kind, head, foot)
    requires HeadsMatch(H.size, H.kind, head) && H.kind[H.top].Free? && EndOf(H, H.top) in H.ends
    requires ExtendedWords(H, c, tbase, psize, head, foot, head', foot')
    requires var H' := Extended(H, c, tbase, psize); q in H'.size && q in head' && !head'[q].pinuse
    ensures var H' := Extended(H, c, tbase, psize);
      q in foot' && q - foot'[q] in H'.size && H'.size[q - foot'[q]] == foot'[q] && q - foot'[q] in H'.kind
        && H'.kind[q - foot'[q]].Free?
  {
    ExtendedAt(H, c, tbase, psize);
    ExtendedKinds(H, c, tbase, psize);
    EndsNotChunks(H.size, H.ends);
    hide Extended, NoOverlap, Closed, StartsClear, EndsClear, NewClear, ZoneClear, PrevsMatch;
    if q in H.size && q != c {
      var _ := H.kind[q];
      ExtendKeeps(H, c, tbase, psize, head, foot, head', foot', q);
      PrevAt(H.size, H.kind, head, foot, q);
    }
  }

  lemma ExtendPrevs(H: Heap, c: int, tbase: int, psize: int, head: map<int, Head>, foot: map<int, int>,
                    head': map<int, Head>, foot': map<int, int>)
    requires MayExtend(H, c, tbase, psize) && Tiled(H.size, H.starts, H.ends) && H.size.Keys == H.kind.Keys
      && PrevsMatch(H.size, H.kind, head, foot)
    requires HeadsMatch(H.size, H.kind, head) && H.kind[H.top].Free? && EndOf(H, H.top) in H.ends
    requires ExtendedWords(H, c, tbase, psize, head, foot, head', foot')
    ensures var H' := Extended(H, c, tbase, psize); PrevsMatch(H'.size, H'.kind, head', foot')
  {
    hide Extended, Tiled, MayExtend, HeadsMatch, ExtendedWords;
    var H' := Extended(H, c, tbase, psize);
    forall q {:trigger q in foot'} {:trigger foot'[q]} | q in H'.size && q in head' && !head'[q].pinuse
      ensures q in foot' && q - foot'[q] in H'.size && H'.size[q - foot'[q]] == foot'[q] && q - foot'[q] in H'.kind
        && H'.kind[q - foot'[q]].Free?
    {
      ExtendPrevAt(H, c, tbase, psize, head, foot, head', foot', q);
    }
  }

  lemma ExtendStarts(H: Heap, c: int, tbase: int, psize: int, head: map<int, Head>, foot: map<int, int>,
                     head': map<int, Head>, foot': map<int, int>)
    requires MayExtend(H, c, tbase, psize) && Positive(H.size) && StartsClear(H.size, H.starts)
      && StartsPinuse(H.starts, head)
    requires ExtendedWords(H, c, tbase, psize, head, foot, head', foot')
    ensures var H' := Extended(H, c, tbase, psize); StartsPinuse(H'.starts, head')
  {
    forall s | s in H.starts + {tbase} ensures s in head' && head'[s].pinuse {
      if s in H.starts { assert 0 < H.size[s]; }
    }
  }

  lemma ExtendTiled(H: Heap, c: int, tbase: int, psize: int)
    requires MayExtend(H, c, tbase, psize) && Tiled(H.size, H.starts, H.ends)
    ensures var H' := Extended(H, c, tbase, psize); Tiled(H'.size, H'.starts, H'.ends)
  {
    ExtendNoOverlap(H, c, tbase, psize);
    ExtendClosed(H, c, tbase, psize);
    ExtendClear(H, c, tbase, psize);
    hide Extended, MayExtend, Positive, NoOverlap, Closed, EndsClear, StartsClear;
  }

  lemma ExtendTagged(H: Heap, c: int, tbase: int, psize: int, head: map<int, Head>, foot: map<int, int>,
                     head': map<int, Head>, foot': map<int, int>)
    requires Physical(H, head, foot) && MayExtend(H, c, tbase, psize)
      && ExtendedWords(H, c, tbase, psize, head, foot, head', foot')
    ensures var H' := Extended(H, c, tbase, psize); Tagged(H'.size, H'.kind, H'.starts, H'.top, head', foot')
  {
    TopFacts(H, head, foot);
    hide Extended, MayExtend, Positive, NoOverlap, Closed, EndsClear, StartsClear, HeadsMatch, PinusesMatch, FeetMatch,
      PrevsMatch, StartsPinuse;
    hide ExtendedWords, Span, Sized, NoAdjacentFree, LiveInside;
    ExtendHeads(H, c, tbase, psize, head, foot, head', foot');
    ExtendPinuses(H, c, tbase, psize, head, foot, head', foot');
    ExtendFeet(H, c, tbase, psize, head, foot, head', foot');
    ExtendPrevs(H, c, tbase, psize, head, foot, head', foot');
    ExtendStarts(H, c, tbase, psize, head, foot, head', foot');
  }

  lemma ExtendPhysical(H: Heap, c: int, tbase: int, psize: int, head: map<int, Head>, foot: map<int, int>,
                       head': map<int, Head>, foot': map<int, int>)
    requires Physical(H, head, foot) && MayExtend(H, c, tbase, psize)
      && ExtendedWords(H, c, tbase, psize, head, foot, head', foot')
    requires tbase % 8 == 0 && psize % 8 == 0
    ensures Physical(Extended(H, c, tbase, psize), head', foot')
  {
    ExtendTagged(H, c, tbase, psize, head, foot, head', foot');
    ExtendTiled(H, c, tbase, psize);
    hide Extended, MayExtend, NoOverlap, Closed, EndsClear, StartsClear, Tagged, Sized, NoAdjacentFree, LiveInside,
      TopPlaced, Positive;
    ExtendShape(H, c, tbase, psize);
    ExtendNoAdjacentFree(H, c, tbase, psize);
    ExtendedKinds(H, c, tbase, psize);
  }

  lemma ExtendPlaced(H: Heap, c: int, tbase: int, psize: int, base: int, least: int, least': int)
    requires HeapPlaced(H, base, least) && MayExtend(H, c, tbase, psize) && Positive(H.size)
      && H.size.Keys == H.kind.Keys && H.kind[H.top].Free?
    requires 0 < least' <= least && least' <= tbase && EndOf(H, H.top) + TOP_FOOT_SIZE <= SIZE_T_RANGE
      && tbase + psize <= SIZE_T_RANGE
    ensures HeapPlaced(Extended(H, c, tbase, psize), base, least')
  {
    ExtendedAt(H, c, tbase, psize);
    ExtendedKinds(H, c, tbase, psize);
    hide Extended, ZoneClear, NewClear;
    var _ := H.size[H.top];
  }

  lemma ExtendBinned(H: Heap, c: int, tbase: int, psize: int, dv: int, binned: map<int, int>)
    requires BinnedExactly(H, dv, {}, binned) && MayExtend(H, c, tbase, psize) && Positive(H.size)
      && H.size.Keys == H.kind.Keys && dv != tbase
    ensures BinnedExactly(Extended(H, c, tbase, psize), dv, if c == H.top then {} else {H.top}, binned)
  {
    ExtendedAt(H, c, tbase, psize);
    ExtendedKinds(H, c, tbase, psize);
    var H' := Extended(H, c, tbase, psize);
    hide Extended, ZoneClear, NewClear;
    forall x {:trigger binned[x]} | x in binned
      ensures x in H'.size && x in H'.kind && H'.kind[x].Free? && x != H'.top && x != dv && binned[x] == H'.size[x]
        && x != H.top
    {
      var _ := H.size[x];
      var _ := H'.kind[x];
    }
    forall x {:trigger H'.kind[x]} | x in H'.size && x in H'.kind && H'.kind[x].Free? && x != H'.top && x != dv
      && (c == H.top || x != H.top)
      ensures x in binned
    {
      var _ := H.kind[x];
    }
  }

  lemma ExtendCaches(H: Heap, c: int, tbase: int, psize: int, dv: int, dvsize: int)
    requires DvOk(H, dv, dvsize) && MayExtend(H, c, tbase, psize) && Positive(H.size) && H.size.Keys == H.kind.Keys
    ensures var H' := Extended(H, c, tbase, psize); DvOk(H', dv, dvsize) && TopCached(H', tbase, psize) && dv != tbase
  {
    ExtendedAt(H, c, tbase, psize);
    ExtendedKinds(H, c, tbase, psize);
    hide Extended, ZoneClear, NewClear;
  }
}
