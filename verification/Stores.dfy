/** The frame: what the stores of an operation spare, and what that leaves in memory. */
module Stores {
  import opened ChunkLayout
  import opened BoundaryTags
  import opened BinMaps
  import opened Storage
  import opened LinkStores
  import opened Segments
  import opened HeapSteps
  import opened ChunkSteps
  import opened Coalesce
  import opened Growth
  import opened NewSegment
  import opened Blocks
  import opened WordsInUse

  /** Every store from one point of the log to the other spares the blocks. */
  ghost predicate Frame(base: int, l0: seq<Event>, l1: seq<Event>, blocks: map<int, int>) {
    l0 <= l1 && forall i {:trigger l1[i]} :: |l0| <= i < |l1| ==> Spared(blocks, From(base, l1[i]), Upto(base, l1[i]))
  }

  /** Nothing is stored but words of the allocator's. */
  ghost predicate OnlyWords(l0: seq<Event>, l1: seq<Event>) {
    l0 <= l1 && forall i {:trigger l1[i]} :: |l0| <= i < |l1| ==> l1[i].Stored?
  }

  /** Blocks that the stores spare keep their bytes. */
  lemma FrameKeeps(base: int, start: int -> int, l0: seq<Event>, l1: seq<Event>, blocks: map<int, int>)
    requires Frame(base, l0, l1, blocks)
    ensures Untouched(blocks, BytesOf(base, start, l0), BytesOf(base, start, l1))
  {
    hide From, Upto, ByteAt;
    var data, data' := BytesOf(base, start, l0), BytesOf(base, start, l1);
    forall q, x {:trigger q in blocks, data'(x)} | q in blocks && InPayload(q, blocks[q], x)
      ensures data'(x) == data(x) {
      forall i {:trigger l1[i]} | |l0| <= i < |l1| ensures !(From(base, l1[i]) <= x < Upto(base, l1[i])) {
        assert Spared(blocks, From(base, l1[i]), Upto(base, l1[i]));
        var _ := blocks[q];
      }
      ByteStays(base, start, l0, l1, x);
    }
  }

  /** Fewer or smaller blocks. */
  ghost predicate Inside(blocks': map<int, int>, blocks: map<int, int>) {
    forall p {:trigger blocks'[p]} :: p in blocks' ==> p in blocks && blocks'[p] <= blocks[p]
  }

  lemma SparedInside(blocks: map<int, int>, lo: int, hi: int, a: int, b: int)
    requires Spared(blocks, lo, hi) && lo <= a && b <= hi
    ensures Spared(blocks, a, b)
  {
  }

  lemma SparedFewer(blocks: map<int, int>, blocks': map<int, int>, lo: int, hi: int)
    requires Spared(blocks, lo, hi) && Inside(blocks', blocks)
    ensures Spared(blocks', lo, hi)
  {
    forall p {:trigger blocks'[p]} | p in blocks' ensures hi <= Chunk2Mem(p) || p + blocks'[p] + CHUNK_OVERHEAD <= lo {
      var _ := blocks[p];
    }
  }

  /** A chunk that is no block is spared from its head to the head of the next. */
  lemma ChunkSpared(H: Heap, head: map<int, Head>, foot: map<int, int>, x: int)
    requires Physical(H, head, foot) && x in H.size && !IsLive(H, x)
    ensures Spared(Handed(H), x + W, EndOf(H, x) + 2 * W)
  {
    hide Closed, StartsClear, EndsClear, Tagged, Sized, NoAdjacentFree, LiveInside, TopPlaced;
    var blocks := Handed(H);
    forall p {:trigger blocks[p]} | p in blocks
      ensures EndOf(H, x) + 2 * W <= Chunk2Mem(p) || p + blocks[p] + CHUNK_OVERHEAD <= x + W
    {
      assert H.size[p] > 0 && H.size[x] > 0;
    }
  }

  /** No payload reaches the tail of a segment, where the foot of top or the fenceposts are. */
  lemma TailClear(H: Heap, head: map<int, Head>, foot: map<int, int>, regions: seq<Region>, k: nat, p: int, a: int)
    requires Physical(H, head, foot) && RegionsOk(regions) && Covered(H.size, regions) && k < |regions|
    requires IsLive(H, p) && InPayload(p, H.size[p], a)
    ensures !(regions[k].end + W <= a < regions[k].base + regions[k].size)
  {
    LiveFacts(H, head, foot, p);
    hide Physical, Span, RegionsOk, Covered;
    var j := WhichRegion(H.size, regions, NextOf(H.size, p));
    var i := WhichRegion(H.size, regions, p);
    TailsMeet(regions, i, j);
    TailsMeet(regions, j, k);
  }

  lemma SameInside(blocks: map<int, int>)
    ensures Inside(blocks, blocks)
  {
  }

  lemma LessInside(blocks: map<int, int>, p: int)
    ensures Inside(blocks - {p}, blocks)
  {
    var less := blocks - {p};
    forall q {:trigger less[q]} | q in less ensures q in blocks && less[q] <= blocks[q] { }
  }

  lemma MoreInside(blocks: map<int, int>, p: int, s: int)
    requires p !in blocks
    ensures Inside(blocks, blocks[p := s])
  {
  }

  lemma InsideThen(blocks: map<int, int>, blocks1: map<int, int>, blocks2: map<int, int>)
    requires Inside(blocks, blocks1) && Inside(blocks1, blocks2)
    ensures Inside(blocks, blocks2)
  {
    forall p {:trigger blocks[p]} | p in blocks ensures p in blocks2 && blocks[p] <= blocks2[p] { var _ := blocks1[p]; }
  }

  // ---- frames one after the other ----

  lemma FrameThen(base: int, l0: seq<Event>, l1: seq<Event>, l2: seq<Event>, blocks: map<int, int>)
    requires Frame(base, l0, l1, blocks) && Frame(base, l1, l2, blocks)
    ensures Frame(base, l0, l2, blocks)
  {
    hide Spared, From, Upto;
    forall i {:trigger l2[i]} | |l0| <= i < |l2| ensures Spared(blocks, From(base, l2[i]), Upto(base, l2[i])) {
      if i < |l1| { assert l1[i] == l2[i]; }
    }
  }

  lemma FrameFewer(base: int, l0: seq<Event>, l1: seq<Event>, blocks: map<int, int>, blocks': map<int, int>)
    requires Frame(base, l0, l1, blocks) && Inside(blocks', blocks)
    ensures Frame(base, l0, l1, blocks')
  {
    hide Spared, Inside, From, Upto;
    forall i {:trigger l1[i]} | |l0| <= i < |l1| ensures Spared(blocks', From(base, l1[i]), Upto(base, l1[i])) {
      SparedFewer(blocks, blocks', From(base, l1[i]), Upto(base, l1[i]));
    }
  }

  lemma NothingStored(base: int, l: seq<Event>, blocks: map<int, int>)
    ensures Frame(base, l, l, blocks) && OnlyWords(l, l)
  {
  }

  /** A store inside block p spares the others. */
  lemma FillFrame(base: int, log: seq<Event>, H: Heap, head: map<int, Head>, foot: map<int, int>, p: int, lo: int,
                  n: nat, byte: int -> int)
    requires Physical(H, head, foot) && p in Handed(H) && Chunk2Mem(p) <= lo
      && lo + n <= p + Handed(H)[p] + CHUNK_OVERHEAD
    ensures Frame(base, log, log + [Filled(lo, n, byte)], Handed(H) - {p})
  {
    hide Closed, StartsClear, EndsClear, Tagged, Sized, NoAdjacentFree, LiveInside, TopPlaced;
    var others := Handed(H) - {p};
    forall q {:trigger others[q]} | q in others
      ensures lo + n <= Chunk2Mem(q) || q + others[q] + CHUNK_OVERHEAD <= lo {
      assert H.size[q] > 0 && H.size[p] > 0;
    }
    var l1 := log + [Filled(lo, n, byte)];
    assert l1[..|log|] == log;
  }

  // ---- from kinds of words to frames ----

  /** Words in use in a sound layout spare its blocks. */
  lemma StoresSpare(L: Layout, l0: seq<Event>, l1: seq<Event>)
    requires LaidOut(L) && StoresInUse(L, l0, l1)
    ensures Frame(L.base, l0, l1, Handed(L.heap)) && OnlyWords(l0, l1)
  {
    hide LaidOut, InUse, Spared, Handed, Addr, Width;
    forall i {:trigger l1[i]} | |l0| <= i < |l1|
      ensures Spared(Handed(L.heap), From(L.base, l1[i]), Upto(L.base, l1[i])) {
      WordSpared(L, l1[i].w);
    }
  }

  /** A head in [lo, hi], or a prev_foot behind lo up to hi. */
  predicate TagWord(lo: int, hi: int, w: Word) {
    match w
    case HeadOf(x) => lo <= x <= hi
    case FootOf(x) => lo + W <= x <= hi
    case _ => false
  }

  ghost predicate TagsIn(l0: seq<Event>, l1: seq<Event>, lo: int, hi: int) {
    l0 <= l1 && forall i {:trigger l1[i]} :: |l0| <= i < |l1| ==> l1[i].Stored? && TagWord(lo, hi, l1[i].w)
  }

  /** Only tags of that stretch, and links of chunks binned before or after, are stored. */
  ghost predicate StoresIn(base: int, l0: seq<Event>, l1: seq<Event>, lo: int, hi: int, b0: map<int, int>,
                           b1: map<int, int>)
  {
    l0 <= l1 && forall i {:trigger l1[i]} :: |l0| <= i < |l1| ==>
      l1[i].Stored? && (TagWord(lo, hi, l1[i].w) || LinkWord(base, b0, l1[i].w) || LinkWord(base, b1, l1[i].w))
  }

  /** What is binned in between is binned before or after. */
  ghost predicate BinnedBetween(b0: map<int, int>, b1: map<int, int>, b2: map<int, int>) {
    forall x {:trigger b1[x]} :: x in b1 ==> (x in b0 && b0[x] == b1[x]) || (x in b2 && b2[x] == b1[x])
  }

  lemma LinkBetween(base: int, b0: map<int, int>, b1: map<int, int>, b2: map<int, int>, w: Word)
    requires BinnedBetween(b0, b1, b2) && LinkWord(base, b1, w)
    ensures LinkWord(base, b0, w) || LinkWord(base, b2, w)
  {
    hide IsHeader;
    match w
    case FdOf(x) => if x in b1 { var _ := b1[x]; }
    case BkOf(x) => if x in b1 { var _ := b1[x]; }
    case SlotOf(c) => if c.ChildOf? { var _ := b1[c.node]; }
    case ParentOf(x) => var _ := b1[x];
    case IndexOf(x) => var _ := b1[x];
    case _ =>
  }

  lemma LinksAreStores(base: int, l0: seq<Event>, l1: seq<Event>, lo: int, hi: int, b0: map<int, int>,
                       b1: map<int, int>, b2: map<int, int>)
    requires LinksIn(base, l0, l1, b1) && BinnedBetween(b0, b1, b2)
    ensures StoresIn(base, l0, l1, lo, hi, b0, b2)
  {
    hide LinkWord, BinnedBetween, TagWord;
    forall i {:trigger l1[i]} | |l0| <= i < |l1|
      ensures LinkWord(base, b0, l1[i].w) || LinkWord(base, b2, l1[i].w) {
      LinkBetween(base, b0, b1, b2, l1[i].w);
    }
  }

  lemma TagsAreStores(base: int, l0: seq<Event>, l1: seq<Event>, lo: int, hi: int, b0: map<int, int>,
                      b1: map<int, int>)
    requires TagsIn(l0, l1, lo, hi)
    ensures StoresIn(base, l0, l1, lo, hi, b0, b1)
  {
    hide LinkWord, TagWord;
  }

  lemma StoresThen(base: int, l0: seq<Event>, l1: seq<Event>, l2: seq<Event>, lo: int, hi: int, b0: map<int, int>,
                   b1: map<int, int>)
    requires StoresIn(base, l0, l1, lo, hi, b0, b1) && StoresIn(base, l1, l2, lo, hi, b0, b1)
    ensures StoresIn(base, l0, l2, lo, hi, b0, b1)
  {
    hide LinkWord, TagWord;
    forall i {:trigger l2[i]} | |l0| <= i < |l2|
      ensures l2[i].Stored? && (TagWord(lo, hi, l2[i].w) || LinkWord(base, b0, l2[i].w) || LinkWord(base, b1, l2[i].w))
    {
      if i < |l1| { assert l1[i] == l2[i]; }
    }
  }

  lemma RetileTags(l0: seq<Event>, l1: seq<Event>, a: int, m: int, n: int, footed: bool)
    requires RetileStores(l0, l1, a, m, n, footed) && a <= m <= n && a + W <= n
    ensures TagsIn(l0, l1, a, n)
  {
    hide WroteIn;
  }

  // ---- the stores of each retiling ----

  lemma WholeStored(l0: seq<Event>, l1: seq<Event>, a: int, n: int, e0: Event, e1: Event)
    requires l1 == l0 + [e0] + [e1] && e0.Stored? && e0.w == HeadOf(a) && e1.Stored? && e1.w == HeadOf(n) && a + W <= n
    ensures RetileStores(l0, l1, a, n, n, false) && TagsIn(l0, l1, a, n)
  {
    assert l1 == l0 + [e0, e1];
    RetileStoresOf(l0, [e0, e1], a, n, n, false, 0, 0);
    RetileTags(l0, l1, a, n, n, false);
  }

  /** In either order: the handed-out part first, or what is left. */
  lemma LowStored(l0: seq<Event>, l1: seq<Event>, a: int, m: int, n: int, e0: Event, e1: Event, e2: Event)
    requires l1 == l0 + [e0] + [e1] + [e2] && e0.Stored? && e1.Stored? && e2.Stored? && a < m < n && a + W <= n
    requires (e0.w == HeadOf(a) && e1.w == HeadOf(m) && e2.w == FootOf(n))
      || (e0.w == HeadOf(m) && e1.w == FootOf(n) && e2.w == HeadOf(a))
    ensures RetileStores(l0, l1, a, m, n, true) && TagsIn(l0, l1, a, n)
  {
    assert l1 == l0 + [e0, e1, e2];
    RetileStoresOf(l0, [e0, e1, e2], a, m, n, true, if e0.w == HeadOf(a) then 1 else 0,
      if e0.w == HeadOf(a) then 2 else 1);
    RetileTags(l0, l1, a, m, n, true);
  }

  lemma TopStored(l0: seq<Event>, l1: seq<Event>, a: int, m: int, n: int, e0: Event, e1: Event)
    requires l1 == l0 + [e0] + [e1] && e0.Stored? && e1.Stored? && a < m < n && a + W <= n
    requires e0.w == HeadOf(m) && e1.w == HeadOf(a)
    ensures RetileStores(l0, l1, a, m, n, false) && TagsIn(l0, l1, a, n)
  {
    assert l1 == l0 + [e0, e1];
    RetileStoresOf(l0, [e0, e1], a, m, n, false, 0, 0);
    RetileTags(l0, l1, a, m, n, false);
  }

  lemma MergedStored(l0: seq<Event>, l1: seq<Event>, a: int, n: int, e0: Event)
    requires l1 == l0 + [e0] && e0.Stored? && e0.w == HeadOf(a) && a + W <= n
    ensures RetileStores(l0, l1, a, n, n, false) && TagsIn(l0, l1, a, n)
  {
    RetileStoresOf(l0, [e0], a, n, n, false, 0, 0);
    RetileTags(l0, l1, a, n, n, false);
  }

  lemma FreedStored(l0: seq<Event>, l1: seq<Event>, a: int, n: int, e0: Event, e1: Event)
    requires l1 == l0 + [e0] + [e1] && e0.Stored? && e1.Stored? && e0.w == HeadOf(a) && e1.w == FootOf(n) && a + W <= n
    ensures RetileStores(l0, l1, a, n, n, true) && TagsIn(l0, l1, a, n)
  {
    assert l1 == l0 + [e0, e1];
    RetileStoresOf(l0, [e0, e1], a, n, n, true, 0, 1);
    RetileTags(l0, l1, a, n, n, true);
  }

  lemma ClearedStored(l0: seq<Event>, l1: seq<Event>, a: int, n: int, e0: Event, e1: Event, e2: Event)
    requires l1 == l0 + [e0] + [e1] + [e2] && e0.Stored? && e1.Stored? && e2.Stored? && a + W <= n
    requires e0.w == HeadOf(n) && e1.w == HeadOf(a) && e2.w == FootOf(n)
    ensures RetileStores(l0, l1, a, n, n, true) && TagsIn(l0, l1, a, n)
  {
    assert l1 == l0 + [e0, e1, e2];
    RetileStoresOf(l0, [e0, e1, e2], a, n, n, true, 0, 2);
    RetileTags(l0, l1, a, n, n, true);
  }

  lemma CutStored(l0: seq<Event>, l1: seq<Event>, a: int, m: int, n: int, e0: Event, e1: Event, e2: Event, e3: Event)
    requires l1 == l0 + [e0] + [e1] + [e2] + [e3] && e0.Stored? && e1.Stored? && e2.Stored? && e3.Stored? && a < m < n
    requires (e0.w == HeadOf(a) && e1.w == HeadOf(m) && e2.w == HeadOf(m) && e3.w == HeadOf(n))
      || (e0.w == HeadOf(m) && e1.w == HeadOf(n) && e2.w == HeadOf(a) && e3.w == HeadOf(m))
    ensures RetileStores(l0, l1, a, m, n, false)
  {
    assert l1 == l0 + [e0, e1, e2, e3];
    RetileStoresOf(l0, [e0, e1, e2, e3], a, m, n, false, if e0.w == HeadOf(a) then 1 else 0, 0);
  }

  lemma GrownStored(l0: seq<Event>, l1: seq<Event>, a: int, m: int, n: int, e0: Event, e1: Event, e2: Event)
    requires l1 == l0 + [e0] + [e1] + [e2] && e0.Stored? && e1.Stored? && e2.Stored? && a < m < n
    requires e0.w == HeadOf(a) && e1.w == HeadOf(m) && e2.w == HeadOf(m)
    ensures RetileStores(l0, l1, a, m, n, false)
  {
    assert l1 == l0 + [e0, e1, e2];
    RetileStoresOf(l0, [e0, e1, e2], a, m, n, false, 1, 0);
  }

  // ---- the stores of a new segment ----

  /** Only fenceposts are stored. */
  ghost predicate PostsOnly(l0: seq<Event>, l1: seq<Event>, p: int, end: int) {
    l0 <= l1 && forall i {:trigger l1[i]} :: |l0| <= i < |l1| ==>
      l1[i].Stored? && l1[i].w.HeadOf? && IsPost(p, end, l1[i].w.x)
  }

  /** The first n of them are. */
  ghost predicate PostsUpTo(l0: seq<Event>, l1: seq<Event>, p: int, n: nat) {
    forall k: nat {:trigger Fencepost(p, k)} :: k < n ==> WroteIn(l0, l1, HeadOf(Fencepost(p, k)))
  }

  lemma NoPosts(l: seq<Event>, p: int, end: int)
    ensures PostsOnly(l, l, p, end) && PostsUpTo(l, l, p, 0)
  {
  }

  lemma OneMorePost(l0: seq<Event>, l: seq<Event>, p: int, n: nat, end: int, h: Head)
    requires PostsOnly(l0, l, p, end) && PostsUpTo(l0, l, p, n) && Fencepost(p, n) + W < end
    ensures var l1 := l + [Stored(HeadOf(Fencepost(p, n)), Tag(h))];
      PostsOnly(l0, l1, p, end) && PostsUpTo(l0, l1, p, n + 1)
  {
    var e := Stored(HeadOf(Fencepost(p, n)), Tag(h));
    var l1 := l + [e];
    assert IsPost(p, end, Fencepost(p, n)) by { if W == 4 { } else { assert W == 8; } }
    assert l1[|l|] == e;
    assert WroteIn(l, l1, e.w);
    assert l0 <= l <= l1;
    forall k: nat {:trigger Fencepost(p, k)} | k < n + 1 ensures WroteIn(l0, l1, HeadOf(Fencepost(p, k))) {
      WroteLonger(l0, l, l1, HeadOf(Fencepost(p, k)));
    }
  }

  lemma LastPost(l0: seq<Event>, l1: seq<Event>, p: int, n: nat, end: int)
    requires PostsUpTo(l0, l1, p, n) && 0 < n && end <= Fencepost(p, n - 1) + 2 * W
    ensures PostsWritten(l0, l1, p, end)
  {
    forall x {:trigger IsPost(p, end, x)} | IsPost(p, end, x) ensures WroteIn(l0, l1, HeadOf(x)) {
      var k := PostAt(p, n, end, x);
      assert WroteIn(l0, l1, HeadOf(Fencepost(p, k)));
    }
  }

  lemma PostAt(p: int, n: nat, end: int, x: int) returns (k: nat)
    requires IsPost(p, end, x) && 0 < n && end <= Fencepost(p, n - 1) + 2 * W
    ensures k < n && Fencepost(p, k) == x
  {
    if W == 4 { k := (x - p) / 4; } else { assert W == 8; k := (x - p) / 8; }
  }

  /** The words of a new segment: four, the fenceposts, and for an old top that stays a chunk three more. */
  lemma SegmentStored(l0: seq<Event>, l1: seq<Event>, l2: seq<Event>, l3: seq<Event>, t: int, c: int, end: int,
                      tbase: int, psize: int, i0: Item, i1: Item, i2: Item, i3: Item, j0: Item, j1: Item, j2: Item)
    requires l1 == l0 + [Stored(HeadOf(tbase), i0)] + [Stored(HeadOf(tbase + psize), i1)] + [Stored(HeadOf(c), i2)]
      + [Stored(RecordOf(Chunk2Mem(c)), i3)]
    requires PostsOnly(l1, l2, c + SEGMENT_CHUNK, end) && PostsWritten(l1, l2, c + SEGMENT_CHUNK, end)
    requires l3 == if c == t then l2
      else l2 + [Stored(HeadOf(c), j0)] + [Stored(HeadOf(t), j1)] + [Stored(FootOf(c), j2)]
    ensures SegmentStores(l0, l3, t, c, end, tbase, psize)
  {
    hide IsPost;
    assert l0 <= l1 <= l2 <= l3;
    var k := |l0|;
    assert l1[k].w == HeadOf(tbase) && l1[k + 1].w == HeadOf(tbase + psize) && l1[k + 2].w == HeadOf(c)
      && l1[k + 3].w == RecordOf(Chunk2Mem(c));
    assert c != t ==> l3[|l2|].w == HeadOf(c) && l3[|l2| + 1].w == HeadOf(t) && l3[|l2| + 2].w == FootOf(c);
    SegmentWritten(l0, l1, l2, l3, t, c, end, tbase, psize);
    hide WroteIn;
    forall i {:trigger l3[i]} | |l0| <= i < |l3|
      ensures l3[i].Stored? && SegmentWord(t, c, end, tbase, psize, l3[i].w) {
      if i < |l1| {
        assert l3[i] == l1[i];
      } else if i < |l2| {
        assert l3[i] == l2[i];
      }
    }
  }

  lemma SegmentWritten(l0: seq<Event>, l1: seq<Event>, l2: seq<Event>, l3: seq<Event>, t: int, c: int, end: int,
                       tbase: int, psize: int)
    requires l0 <= l1 <= l2 <= l3 && |l1| == |l0| + 4 && PostsWritten(l1, l2, c + SEGMENT_CHUNK, end)
    requires forall i {:trigger l1[i]} :: |l0| <= i < |l1| ==> l1[i].Stored?
    requires var k := |l0|;
      && l1[k].w == HeadOf(tbase) && l1[k + 1].w == HeadOf(tbase + psize) && l1[k + 2].w == HeadOf(c)
      && l1[k + 3].w == RecordOf(Chunk2Mem(c))
    requires c != t ==> |l3| == |l2| + 3 && l3[|l2| + 2].Stored? && l3[|l2| + 2].w == FootOf(c)
    ensures WroteIn(l0, l3, HeadOf(tbase)) && WroteIn(l0, l3, HeadOf(tbase + psize)) && WroteIn(l0, l3, HeadOf(c))
    ensures WroteIn(l0, l3, RecordOf(Chunk2Mem(c))) && (c != t ==> WroteIn(l0, l3, FootOf(c)))
    ensures PostsWritten(l0, l3, c + SEGMENT_CHUNK, end)
  {
    hide IsPost;
    assert WroteIn(l0, l1, HeadOf(tbase)) && WroteIn(l0, l1, HeadOf(tbase + psize)) && WroteIn(l0, l1, HeadOf(c))
      && WroteIn(l0, l1, RecordOf(Chunk2Mem(c)));
    assert c != t ==> WroteIn(l2, l3, FootOf(c));
    WroteLonger(l0, l1, l3, HeadOf(tbase));
    WroteLonger(l0, l1, l3, HeadOf(tbase + psize));
    WroteLonger(l0, l1, l3, HeadOf(c));
    WroteLonger(l0, l1, l3, RecordOf(Chunk2Mem(c)));
    WroteLonger(l0, l2, l3, FootOf(c));
    forall x {:trigger IsPost(c + SEGMENT_CHUNK, end, x)} | IsPost(c + SEGMENT_CHUNK, end, x)
      ensures WroteIn(l0, l3, HeadOf(x)) {
      WroteLonger(l1, l2, l3, HeadOf(x));
      WroteLonger(l0, l1, l3, HeadOf(x));
    }
  }

  // ---- the stores of a request ----

  /** A chunk taken out of its bin, then tags. */
  lemma TakenThenTags(base: int, l0: seq<Event>, l1: seq<Event>, l2: seq<Event>, lo: int, hi: int, b0: map<int, int>,
                      b1: map<int, int>)
    requires LinksIn(base, l0, l1, b0) && TagsIn(l1, l2, lo, hi)
    ensures StoresIn(base, l0, l2, lo, hi, b0, b1)
  {
    hide LinksIn, TagsIn, StoresIn;
    LinksAreStores(base, l0, l1, lo, hi, b0, b0, b1);
    TagsAreStores(base, l1, l2, lo, hi, b0, b1);
    StoresThen(base, l0, l1, l2, lo, hi, b0, b1);
  }

  /** And another chunk binned. */
  lemma TakenTagsLinks(base: int, l0: seq<Event>, l1: seq<Event>, l2: seq<Event>, l3: seq<Event>, lo: int, hi: int,
                       b0: map<int, int>, b1: map<int, int>)
    requires LinksIn(base, l0, l1, b0) && TagsIn(l1, l2, lo, hi) && LinksIn(base, l2, l3, b1)
    ensures StoresIn(base, l0, l3, lo, hi, b0, b1)
  {
    hide LinksIn, TagsIn, StoresIn;
    TakenThenTags(base, l0, l1, l2, lo, hi, b0, b1);
    LinksAreStores(base, l2, l3, lo, hi, b0, b1, b1);
    StoresThen(base, l0, l2, l3, lo, hi, b0, b1);
  }

  lemma TagsThenLinks(base: int, l0: seq<Event>, l1: seq<Event>, l2: seq<Event>, lo: int, hi: int,
                      b0: map<int, int>, b1: map<int, int>)
    requires TagsIn(l0, l1, lo, hi) && LinksIn(base, l1, l2, b1)
    ensures StoresIn(base, l0, l2, lo, hi, b0, b1)
  {
    hide LinksIn, TagsIn, StoresIn;
    TagsAreStores(base, l0, l1, lo, hi, b0, b1);
    LinksAreStores(base, l1, l2, lo, hi, b0, b1, b1);
    StoresThen(base, l0, l1, l2, lo, hi, b0, b1);
  }

  lemma StoresFewer(base: int, l0: seq<Event>, l1: seq<Event>, lo: int, hi: int, b0: map<int, int>, b: map<int, int>,
                    b1: map<int, int>)
    requires StoresIn(base, l0, l1, lo, hi, b, b1) && BinnedBetween(b0, b, b1)
    ensures StoresIn(base, l0, l1, lo, hi, b0, b1)
  {
    hide LinkWord, BinnedBetween, TagWord;
    forall i {:trigger l1[i]} | |l0| <= i < |l1|
      ensures TagWord(lo, hi, l1[i].w) || LinkWord(base, b0, l1[i].w) || LinkWord(base, b1, l1[i].w) {
      if LinkWord(base, b, l1[i].w) { LinkBetween(base, b0, b, b1, l1[i].w); }
    }
  }

  /** One neighbour taken out of its bin, then the run put away. */
  lemma TakenThenFreed(base: int, l0: seq<Event>, l1: seq<Event>, l2: seq<Event>, lo: int, hi: int,
                       b0: map<int, int>, b: map<int, int>, b1: map<int, int>)
    requires LinksIn(base, l0, l1, b0) && StoresIn(base, l1, l2, lo, hi, b, b1) && BinnedBetween(b0, b, b1)
    ensures StoresIn(base, l0, l2, lo, hi, b0, b1)
  {
    hide LinksIn, StoresIn, BinnedBetween;
    assert BinnedBetween(b0, b0, b1) by { SameBetween(b0, b1); }
    LinksAreStores(base, l0, l1, lo, hi, b0, b0, b1);
    StoresFewer(base, l1, l2, lo, hi, b0, b, b1);
    StoresThen(base, l0, l1, l2, lo, hi, b0, b1);
  }

  lemma SameBetween(b0: map<int, int>, b1: map<int, int>)
    ensures BinnedBetween(b0, b0, b1) && BinnedBetween(b0, b1, b1)
  {
  }

  /** Both neighbours. */
  lemma TakenTwoFreed(base: int, l0: seq<Event>, l1: seq<Event>, l2: seq<Event>, l3: seq<Event>, lo: int, hi: int,
                      b0: map<int, int>, b: map<int, int>, b': map<int, int>, b1: map<int, int>)
    requires LinksIn(base, l0, l1, b0) && LinksIn(base, l1, l2, b) && StoresIn(base, l2, l3, lo, hi, b', b1)
    requires BinnedBetween(b0, b, b1) && BinnedBetween(b0, b', b1)
    ensures StoresIn(base, l0, l3, lo, hi, b0, b1)
  {
    hide LinksIn, StoresIn, BinnedBetween;
    SameBetween(b0, b1);
    LinksAreStores(base, l0, l1, lo, hi, b0, b0, b1);
    LinksAreStores(base, l1, l2, lo, hi, b0, b, b1);
    StoresThen(base, l0, l1, l2, lo, hi, b0, b1);
    StoresFewer(base, l2, l3, lo, hi, b0, b', b1);
    StoresThen(base, l0, l2, l3, lo, hi, b0, b1);
  }

  // ---- frames of an operation ----

  lemma TagSpared(base: int, blocks: map<int, int>, lo: int, hi: int, w: Word)
    requires TagWord(lo, hi, w) && Spared(blocks, lo + W, hi + 2 * W)
    ensures Spared(blocks, Addr(base, w), Addr(base, w) + Width(w))
  {
    SparedInside(blocks, lo + W, hi + 2 * W, Addr(base, w), Addr(base, w) + Width(w));
  }

  lemma LinkSpared(L: Layout, w: Word, blocks: map<int, int>)
    requires LaidOut(L) && LinkWord(L.base, L.binned, w) && Inside(blocks, Handed(L.heap))
    ensures Spared(blocks, Addr(L.base, w), Addr(L.base, w) + Width(w))
  {
    hide LaidOut, Spared, Handed, Inside, Addr, Width, IsFence, IsRecord, AfterFree;
    assert InUse(L, w);
    WordSpared(L, w);
    SparedFewer(Handed(L.heap), blocks, Addr(L.base, w), Addr(L.base, w) + Width(w));
  }

  /** Links of binned chunks spare the blocks. */
  lemma LinksSpare(L: Layout, l0: seq<Event>, l1: seq<Event>)
    requires LaidOut(L) && LinksIn(L.base, l0, l1, L.binned)
    ensures Frame(L.base, l0, l1, Handed(L.heap)) && OnlyWords(l0, l1)
  {
    hide LaidOut, Handed, Frame, OnlyWords, IsHeader, TreeKey, ListKey, SlotKey;
    assert StoresInUse(L, l0, l1);
    StoresSpare(L, l0, l1);
  }

  lemma WordsThen(l0: seq<Event>, l1: seq<Event>, l2: seq<Event>)
    requires OnlyWords(l0, l1) && OnlyWords(l1, l2)
    ensures OnlyWords(l0, l2)
  {
    forall i {:trigger l2[i]} | |l0| <= i < |l2| ensures l2[i].Stored? {
      if i < |l1| { assert l1[i] == l2[i]; }
    }
  }

  /** What one operation between two sound layouts stores, blocks being in both. */
  lemma OpFrame(L0: Layout, L1: Layout, l0: seq<Event>, l1: seq<Event>, blocks: map<int, int>, lo: int, hi: int)
    requires LaidOut(L0) && LaidOut(L1) && L0.base == L1.base
    requires Inside(blocks, Handed(L0.heap)) && Inside(blocks, Handed(L1.heap)) && Spared(blocks, lo + W, hi + 2 * W)
    requires StoresIn(L0.base, l0, l1, lo, hi, L0.binned, L1.binned)
    ensures Frame(L0.base, l0, l1, blocks) && OnlyWords(l0, l1)
  {
    hide LaidOut, Spared, Handed, Inside, Addr, Width, LinkWord, TagWord;
    forall i {:trigger l1[i]} | |l0| <= i < |l1| ensures Spared(blocks, From(L0.base, l1[i]), Upto(L0.base, l1[i])) {
      var w := l1[i].w;
      if TagWord(lo, hi, w) {
        TagSpared(L0.base, blocks, lo, hi, w);
      } else if LinkWord(L0.base, L0.binned, w) {
        LinkSpared(L0, w, blocks);
      } else {
        LinkSpared(L1, w, blocks);
      }
    }
  }

  // ---- the frames of realloc and memalign ----

  /** Stores that spare the blocks, then a free of one of them. */
  lemma FreedFrame(base: int, l0: seq<Event>, l1: seq<Event>, l2: seq<Event>, blocks: map<int, int>, r: int)
    requires Frame(base, l0, l1, blocks) && Frame(base, l1, l2, blocks - {r})
    ensures Frame(base, l0, l2, blocks - {r})
  {
    hide Frame, Inside;
    LessInside(blocks, r);
    FrameFewer(base, l0, l1, blocks, blocks - {r});
    FrameThen(base, l0, l1, l2, blocks - {r});
  }

  lemma CutAndFreed(blocks: map<int, int>, p: int, nb: int, r: int, rsize: int)
    requires r !in blocks && p in blocks
    ensures blocks[p := nb][r := rsize] - {r} == blocks[p := nb]
  {
  }

  lemma CutFront(blocks: map<int, int>, p: int, nb: int, r: int, rsize: int)
    requires r !in blocks && p in blocks
    ensures Replaced(blocks, blocks[p := nb][r := rsize] - {p}, p, r)
  {
  }

  /** The blocks around an over-sized one, while its ends are cut off and freed. */
  lemma AlignKeeps(blocks0: map<int, int>, blocks1: map<int, int>, blocks2: map<int, int>, blocks3: map<int, int>,
                   blocks4: map<int, int>,
                   p0: int, p: int, leader: int, trailer: int)
    requires Replaced(blocks0, blocks4, p0, p) && (p == p0 || p !in blocks0)
    requires if leader == 0 then blocks1 == blocks0 else p !in blocks0 && Replaced(blocks0, blocks1 - {p0}, p0, p)
    requires blocks3 == (if leader == 0 then blocks2 else blocks2 - {Mem2Chunk(leader)})
    requires blocks4 == (if trailer == 0 then blocks3 else blocks3 - {Mem2Chunk(trailer)})
    ensures var kept := blocks0 - {p0};
      Inside(kept, blocks1) && Inside(kept, blocks2) && Inside(kept, blocks3) && Inside(kept, blocks4)
  {
    hide Inside, Replaced;
    ReplacedKeeps(blocks0, blocks4, p0, p);
    LessInside(blocks3, Mem2Chunk(trailer));
    SameInside(blocks3);
    InsideThen(blocks0 - {p0}, blocks4, blocks3);
    LessInside(blocks2, Mem2Chunk(leader));
    SameInside(blocks2);
    InsideThen(blocks0 - {p0}, blocks3, blocks2);
    LessInside(blocks0, p0);
    if leader != 0 {
      ReplacedKeeps(blocks0, blocks1 - {p0}, p0, p);
      LessInside(blocks1, p0);
      InsideThen(blocks0 - {p0}, blocks1 - {p0}, blocks1);
    }
  }

  lemma ReplacedKeeps(blocks: map<int, int>, blocks': map<int, int>, p0: int, p: int)
    requires Replaced(blocks, blocks', p0, p) && (p == p0 || p !in blocks)
    ensures Inside(blocks - {p0}, blocks')
  {
    var less := blocks - {p0};
    forall q {:trigger less[q]} | q in less ensures q in blocks' && less[q] <= blocks'[q] { }
  }

  lemma FramesAll(base: int, l0: seq<Event>, l1: seq<Event>, l2: seq<Event>, l3: seq<Event>, l4: seq<Event>,
                  blocks1: map<int, int>, blocks2: map<int, int>, blocks3: map<int, int>, blocks4: map<int, int>,
                  kept: map<int, int>)
    requires Frame(base, l0, l1, blocks1) && Frame(base, l1, l2, blocks2)
    requires Frame(base, l2, l3, blocks3) && Frame(base, l3, l4, blocks4)
    requires Inside(kept, blocks1) && Inside(kept, blocks2) && Inside(kept, blocks3) && Inside(kept, blocks4)
    ensures Frame(base, l0, l4, kept)
  {
    hide Frame, Inside;
    FrameFewer(base, l0, l1, blocks1, kept);
    FrameFewer(base, l1, l2, blocks2, kept);
    FrameFewer(base, l2, l3, blocks3, kept);
    FrameFewer(base, l3, l4, blocks4, kept);
    FrameThen(base, l0, l1, l2, kept);
    FrameThen(base, l0, l2, l3, kept);
    FrameThen(base, l0, l3, l4, kept);
  }

  lemma MemalignFrame(base: int, l0: seq<Event>, l1: seq<Event>, l2: seq<Event>, blocks: map<int, int>,
                      blocks1: map<int, int>, p0: int)
    requires Frame(base, l0, l1, blocks) && Frame(base, l1, l2, blocks1 - {p0})
    requires p0 in blocks1 && p0 !in blocks && blocks1 == blocks[p0 := blocks1[p0]]
    ensures Frame(base, l0, l2, blocks)
  {
    assert blocks1 - {p0} == blocks;
    hide Frame;
    FrameThen(base, l0, l1, l2, blocks);
  }

  lemma MovedKeeps(blocks: map<int, int>, blocks': map<int, int>, p: int, q: int, bytes: nat)
    requires Moved(blocks, blocks', p, q, bytes) && (q == p || q !in blocks)
    ensures Inside(blocks - {p}, blocks')
  {
    var less := blocks - {p};
    forall x {:trigger less[x]} | x in less ensures x in blocks' && less[x] <= blocks'[x] { }
  }

  lemma KeptFrom(H: Heap, d0: int -> int, d1: int -> int, d2: int -> int, oldmem: int, newmem: int, bytes: nat)
    requires Untouched(Handed(H), d0, d1) && BytesKept(H, d1, d2, oldmem, newmem, bytes)
    ensures BytesKept(H, d0, d2, oldmem, newmem, bytes)
  {
    hide Handed;
    var p := Mem2Chunk(oldmem);
    forall q, x {:trigger q in Handed(H), d2(x)} | q in Handed(H) && q != p && InPayload(q, Handed(H)[q], x)
      ensures d2(x) == d0(x) {
      assert d1(x) == d0(x);
    }
    if newmem != 0 {
      forall x {:trigger d2(x)} | newmem <= x < newmem + bytes && InPayload(p, Handed(H)[p], x - newmem + oldmem)
        ensures d2(x) == d0(x - newmem + oldmem)
      {
        assert d1(x - newmem + oldmem) == d0(x - newmem + oldmem);
      }
    }
  }

  lemma KeptTo(H: Heap, blocks': map<int, int>, d0: int -> int, d1: int -> int, d2: int -> int, oldmem: int,
               newmem: int, bytes: nat)
    requires BytesKept(H, d0, d1, oldmem, newmem, bytes) && Untouched(blocks', d1, d2)
    requires Moved(Handed(H), blocks', Mem2Chunk(oldmem), Mem2Chunk(newmem), bytes)
    requires newmem == oldmem || Mem2Chunk(newmem) !in Handed(H)
    ensures BytesKept(H, d0, d2, oldmem, newmem, bytes)
  {
    hide Handed;
    MovedKeeps(Handed(H), blocks', Mem2Chunk(oldmem), Mem2Chunk(newmem), bytes);
    var p := Mem2Chunk(oldmem);
    forall q, x {:trigger q in Handed(H), d2(x)} | q in Handed(H) && q != p && InPayload(q, Handed(H)[q], x)
      ensures d2(x) == d0(x) {
      var less := Handed(H) - {p};
      var _ := less[q];
      assert d1(x) == d0(x);
    }
    if newmem != 0 {
      forall x {:trigger d2(x)} | newmem <= x < newmem + bytes && InPayload(p, Handed(H)[p], x - newmem + oldmem)
        ensures d2(x) == d0(x - newmem + oldmem)
      {
        assert InPayload(Mem2Chunk(newmem), blocks'[Mem2Chunk(newmem)], x);
        assert d1(x) == d0(x - newmem + oldmem);
      }
    }
  }

  /** A new block, the bytes copied, the old block freed. */
  lemma MoveFrame(base: int, start: int -> int, l0: seq<Event>, l1: seq<Event>, l2: seq<Event>, l3: seq<Event>,
                  H: Heap, blocks': map<int, int>, oldmem: int, newmem: int, bytes: nat)
    requires Frame(base, l0, l1, Handed(H)) && Frame(base, l1, l2, Handed(H)) && Frame(base, l2, l3, blocks')
    requires BytesKept(H, BytesOf(base, start, l1), BytesOf(base, start, l2), oldmem, newmem, bytes)
    requires Moved(Handed(H), blocks', Mem2Chunk(oldmem), Mem2Chunk(newmem), bytes) && Mem2Chunk(newmem) !in Handed(H)
    ensures Frame(base, l0, l3, Handed(H) - {Mem2Chunk(oldmem)})
    ensures BytesKept(H, BytesOf(base, start, l0), BytesOf(base, start, l3), oldmem, newmem, bytes)
  {
    hide Handed, Frame, Untouched, BytesKept, Moved, Inside, BytesOf;
    var blocks := Handed(H) - {Mem2Chunk(oldmem)};
    FrameKeeps(base, start, l0, l1, Handed(H));
    FrameKeeps(base, start, l2, l3, blocks');
    KeptFrom(H, BytesOf(base, start, l0), BytesOf(base, start, l1), BytesOf(base, start, l2), oldmem, newmem, bytes);
    KeptTo(H, blocks', BytesOf(base, start, l0), BytesOf(base, start, l2), BytesOf(base, start, l3), oldmem, newmem,
      bytes);
    LessInside(Handed(H), Mem2Chunk(oldmem));
    MovedKeeps(Handed(H), blocks', Mem2Chunk(oldmem), Mem2Chunk(newmem), bytes);
    FrameFewer(base, l0, l1, Handed(H), blocks);
    FrameFewer(base, l1, l2, Handed(H), blocks);
    FrameFewer(base, l2, l3, blocks', blocks);
    FrameThen(base, l0, l1, l2, blocks);
    FrameThen(base, l0, l2, l3, blocks);
  }

  /** A block that stays keeps its bytes. */
  lemma StayKeeps(base: int, start: int -> int, l0: seq<Event>, l1: seq<Event>, H: Heap, blocks': map<int, int>,
                  oldmem: int, bytes: nat)
    requires Frame(base, l0, l1, blocks') && IsLive(H, Mem2Chunk(oldmem))
    requires Moved(Handed(H), blocks', Mem2Chunk(oldmem), Mem2Chunk(oldmem), bytes)
    ensures BytesKept(H, BytesOf(base, start, l0), BytesOf(base, start, l1), oldmem, oldmem, bytes)
  {
    hide Frame, Untouched, BytesOf;
    FrameKeeps(base, start, l0, l1, blocks');
    NothingMoved(H, BytesOf(base, start, l0), oldmem, bytes);
    hide Handed, BytesKept, Moved;
    KeptTo(H, blocks', BytesOf(base, start, l0), BytesOf(base, start, l0), BytesOf(base, start, l1), oldmem, oldmem,
      bytes);
  }

  /** What blocks and blocks' both have: each block they share, as long as the shorter. */
  function Kept(blocks: map<int, int>, blocks': map<int, int>): map<int, int> {
    map q | q in blocks && q in blocks' :: if blocks[q] <= blocks'[q] then blocks[q] else blocks'[q]
  }

  lemma KeptInside(blocks: map<int, int>, blocks': map<int, int>)
    ensures Inside(Kept(blocks, blocks'), blocks) && Inside(Kept(blocks, blocks'), blocks')
  {
  }

  lemma KeptMoved(blocks: map<int, int>, blocks': map<int, int>, p: int, q: int, bytes: nat)
    requires Moved(blocks, blocks', p, q, bytes) && p in blocks && q !in blocks
    ensures Inside(Kept(blocks, blocks'), blocks - {p})
  {
    assert p !in blocks';
  }
}
