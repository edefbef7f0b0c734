/** The words the allocator has in use: no two share a byte, none lies in a payload, and memory says what each
    holds. */
module WordsInUse {
  import opened ChunkLayout
  import opened BoundaryTags
  import opened BinMaps
  import opened TreeLinks
  import opened SmallBins
  import opened Storage
  import opened LinkStores
  import opened Segments
  import opened HeapSteps
  import opened ChunkSteps
  import opened Coalesce
  import opened Resizing
  import opened Creation
  import opened Growth
  import opened NewSegment
  import opened Blocks

  /** What decides which words are in use. */
  datatype Layout = Layout(base: int, heap: Heap, regions: seq<Region>, binned: map<int, int>)

  /** The tail of a region, behind its chunks, one address in every W. */
  predicate InTail(r: Region, x: int) { r.end <= x && x + W <= r.base + r.size && (x - r.end) % W == 0 }

  /** A fencepost of a retired segment. */
  ghost predicate IsFence(regions: seq<Region>, x: int) {
    exists k {:trigger regions[k]} :: 1 <= k < |regions| && InTail(regions[k], x)
      && x + W < regions[k].base + regions[k].size
  }

  /** n comes after a free chunk other than top. */
  ghost predicate AfterFree(H: Heap, n: int) {
    exists p {:trigger IsFree(H, p)} :: IsFree(H, p) && p != H.top && EndOf(H, p) == n
  }

  ghost predicate IsRecord(regions: seq<Region>, ss: int) {
    exists k {:trigger regions[k]} :: 1 <= k < |regions| && RecordAt(regions[k]) == ss
  }

  /** Word w is in use: what it holds may yet be read. */
  ghost predicate InUse(L: Layout, w: Word) {
    match w
    case HeadOf(x) => x in L.heap.size || x in L.heap.ends || IsFence(L.regions, x)
    case FootOf(n) => AfterFree(L.heap, n)
    case RecordOf(ss) => IsRecord(L.regions, ss)
    case _ => LinkWord(L.base, L.binned, w)
  }

  /** Binned chunks are free, and not top. */
  ghost predicate BinnedFree(H: Heap, binned: map<int, int>) {
    forall p {:trigger binned[p]} :: p in binned ==> IsFree(H, p) && p != H.top && binned[p] == H.size[p]
  }

  ghost predicate StateThere(H: Heap, base: int) {
    base in H.size && H.size[base] == STATE_CHUNK && base in H.kind && H.kind[base].Meta?
  }

  ghost predicate LaidOut(L: Layout) {
    && L.heap.size.Keys == L.heap.kind.Keys && Tiled(L.heap.size, L.heap.starts, L.heap.ends)
    && Sized(L.heap.size, L.heap.top) && |L.regions| > 0 && RegionsOk(L.regions) && Marked(L.heap, L.regions)
    && MetasOk(L.heap, L.regions, L.base) && Covered(L.heap.size, L.regions) && StateThere(L.heap, L.base)
    && BinnedFree(L.heap, L.binned) && L.heap.top in L.heap.size
    && L.regions[0].end == NextOf(L.heap.size, L.heap.top)
  }

  lemma SpaceLaidOut(H: Heap, head: map<int, Head>, foot: map<int, int>, base: int, least: int, regions: seq<Region>,
                     seg: Segment, records: map<int, Segment>, dv: int, loose: set<int>, binned: map<int, int>)
    requires SpaceOk(H, head, foot, base, least, regions, seg, records, dv, loose, binned)
    ensures LaidOut(Layout(base, H, regions, binned))
  {
    hide Tiled, Sized, RegionsOk, Marked, MetasOk, Covered, Tagged, NoAdjacentFree, LiveInside, Listed;
  }

  // ---- the stretches of memory that words lie in ----

  /** A chunk, from its head to the head of the next; or one word of a segment's tail. */
  datatype Cell = AtChunk(x: int) | AtTail(x: int)

  ghost predicate IsTail(regions: seq<Region>, x: int) {
    exists k {:trigger regions[k]} :: 0 <= k < |regions| && InTail(regions[k], x)
  }

  ghost predicate IsCell(L: Layout, c: Cell) {
    match c
    case AtChunk(x) => x in L.heap.size
    case AtTail(x) => IsTail(L.regions, x)
  }

  ghost function CellEnd(L: Layout, c: Cell): int {
    match c
    case AtChunk(x) => EndOf(L.heap, x) + W
    case AtTail(x) => x + 2 * W
  }

  /** Word w lies in cell c. */
  ghost predicate Owns(L: Layout, c: Cell, w: Word) {
    match c
    case AtTail(x) => w == HeadOf(x)
    case AtChunk(x) =>
      match w
      case HeadOf(y) => y == x
      case FootOf(n) => IsFree(L.heap, x) && x != L.heap.top && EndOf(L.heap, x) == n
      case FdOf(y) => if y in L.binned then y == x else x == L.base && IsHeader(L.base, y)
      case BkOf(y) => if y in L.binned then y == x else x == L.base && IsHeader(L.base, y)
      case SlotOf(s) =>
        (match s
         case BinRoot(i) => x == L.base && i < 32
         case ChildOf(y, side) => y == x && TreeKey(L.binned, x) && 0 <= side < 2)
      case ParentOf(y) => y == x && TreeKey(L.binned, x)
      case IndexOf(y) => y == x && TreeKey(L.binned, x)
      case RecordOf(ss) => x == Mem2Chunk(ss) && IsRecord(L.regions, ss)
  }

  lemma EndInTail(L: Layout, k: nat)
    requires LaidOut(L) && k < |L.regions|
    ensures InTail(L.regions[k], L.regions[k].end)
  {
    hide Tiled, Marked, Covered, StateThere, BinnedFree;
    var r := L.regions[k];
    assert r.end < r.base + r.size && r.base % 8 == 0 && r.size % 8 == 0;
    if k == 0 {
      var _ := L.heap.size[L.heap.top];
    } else {
      var _ := L.heap.size[RecordChunk(r)];
    }
    assert r.end % 8 == 0;
    assert (r.end - r.end) % W == 0;
  }

  /** Every word in use lies in some cell. */
  lemma Owner(L: Layout, w: Word) returns (c: Cell)
    requires LaidOut(L) && InUse(L, w)
    ensures IsCell(L, c) && Owns(L, c, w)
  {
    hide Tiled, Sized, RegionsOk, Covered, LaidOut, InTail, IsHeader;
    assert MetasOk(L.heap, L.regions, L.base) && Marked(L.heap, L.regions) && StateThere(L.heap, L.base)
      && BinnedFree(L.heap, L.binned) by { LaidOutParts(L); }
    match w
    case HeadOf(x) =>
      if x in L.heap.size {
        c := AtChunk(x);
      } else if x in L.heap.ends {
        var k := WhichEnd(L.heap, L.regions, x);
        EndInTail(L, k);
        c := AtTail(x);
      } else {
        c := AtTail(x);
      }
    case FootOf(n) =>
      var p :| IsFree(L.heap, p) && p != L.heap.top && EndOf(L.heap, p) == n;
      c := AtChunk(p);
    case FdOf(x) => if x in L.binned { var _ := L.binned[x]; c := AtChunk(x); } else { c := AtChunk(L.base); }
    case BkOf(x) => if x in L.binned { var _ := L.binned[x]; c := AtChunk(x); } else { c := AtChunk(L.base); }
    case SlotOf(s) =>
      if s.BinRoot? { c := AtChunk(L.base); } else { var _ := L.binned[s.node]; c := AtChunk(s.node); }
    case ParentOf(x) => var _ := L.binned[x]; c := AtChunk(x);
    case IndexOf(x) => var _ := L.binned[x]; c := AtChunk(x);
    case RecordOf(ss) =>
      var k :| 1 <= k < |L.regions| && RecordAt(L.regions[k]) == ss;
      c := AtChunk(RecordChunk(L.regions[k]));
  }

  lemma LaidOutParts(L: Layout)
    requires LaidOut(L)
    ensures MetasOk(L.heap, L.regions, L.base) && Marked(L.heap, L.regions) && StateThere(L.heap, L.base)
    ensures BinnedFree(L.heap, L.binned) && |L.regions| > 0 && RegionsOk(L.regions) && Covered(L.heap.size, L.regions)
    ensures Tiled(L.heap.size, L.heap.starts, L.heap.ends) && Sized(L.heap.size, L.heap.top)
    ensures L.heap.size.Keys == L.heap.kind.Keys
  {
    hide MetasOk, Marked, StateThere, BinnedFree, RegionsOk, Covered, Tiled, Sized;
  }

  /** A word lies inside its cell. */
  lemma InCell(L: Layout, c: Cell, w: Word)
    requires LaidOut(L) && IsCell(L, c) && Owns(L, c, w)
    ensures c.x + W <= Addr(L.base, w) && Addr(L.base, w) + Width(w) <= CellEnd(L, c)
  {
    hide RegionsOk, Marked, Covered, MetasOk, NoOverlap, Closed, EndsClear, StartsClear, LaidOut;
    LaidOutParts(L);
    if c.AtChunk? {
      var x := c.x;
      assert 8 <= L.heap.size[x] by { assert 0 < L.heap.size[x] && L.heap.size[x] % 8 == 0; }
      if w.RecordOf? {
        RecordSized(L, w.ss);
      } else if w.HeadOf? {
      } else if w.FootOf? {
      } else {
        LinkInCell(L, x, w);
      }
    }
  }

  lemma RecordSized(L: Layout, ss: int)
    requires LaidOut(L) && IsRecord(L.regions, ss)
    ensures EndOf(L.heap, Mem2Chunk(ss)) == Mem2Chunk(ss) + SEGMENT_CHUNK && Mem2Chunk(ss) in L.heap.kind
      && L.heap.kind[Mem2Chunk(ss)].Meta?
  {
    hide RegionsOk, Marked, Covered, Tiled, Sized, LaidOut;
    LaidOutParts(L);
    var k :| 1 <= k < |L.regions| && RecordAt(L.regions[k]) == ss;
  }

  lemma LinkInCell(L: Layout, x: int, w: Word)
    requires LaidOut(L) && x in L.heap.size && Owns(L, AtChunk(x), w) && !w.HeadOf? && !w.FootOf? && !w.RecordOf?
    ensures x + 2 * W <= Addr(L.base, w) && Addr(L.base, w) + Width(w) <= EndOf(L.heap, x)
  {
    hide RegionsOk, Marked, Covered, MetasOk, Tiled, LaidOut;
    LaidOutParts(L);
    if x in L.binned {
      assert MIN_CHUNK_SIZE <= L.heap.size[x] == L.binned[x];
    }
    if W == 4 { } else { assert W == 8; }
  }

  lemma InTailApart(r: Region, x: int, y: int)
    requires InTail(r, x) && InTail(r, y) && x < y
    ensures x + W <= y
  {
    if W == 4 { } else { assert W == 8; }
  }

  lemma TailsMeet(regions: seq<Region>, j: nat, k: nat)
    requires RegionsOk(regions) && j < |regions| && k < |regions|
    ensures regions[j].base < regions[j].end < regions[j].base + regions[j].size
    ensures regions[k].base < regions[k].end < regions[k].base + regions[k].size
    ensures j == k || regions[j].base + regions[j].size <= regions[k].base
      || regions[k].base + regions[k].size <= regions[j].base
  {
    var _ := regions[j];
    var _ := regions[k];
  }

  /** No two cells meet. */
  lemma CellsApart(L: Layout, c: Cell, d: Cell)
    requires LaidOut(L) && IsCell(L, c) && IsCell(L, d) && c != d
    ensures Clear(c.x + W, CellEnd(L, c), d.x + W, CellEnd(L, d))
  {
    hide LaidOut, IsTail;
    if c.AtChunk? && d.AtChunk? {
      ChunksApart(L, c.x, d.x);
    } else if c.AtChunk? {
      ChunkOffTail(L, c.x, d.x);
    } else if d.AtChunk? {
      ChunkOffTail(L, d.x, c.x);
    } else {
      TailsApart(L, c.x, d.x);
    }
  }

  lemma ChunksApart(L: Layout, x: int, y: int)
    requires LaidOut(L) && x in L.heap.size && y in L.heap.size && x != y
    ensures Clear(x + W, EndOf(L.heap, x) + W, y + W, EndOf(L.heap, y) + W)
  {
    hide RegionsOk, Marked, Covered, MetasOk, Closed, EndsClear, StartsClear, Sized, LaidOut;
    LaidOutParts(L);
    assert L.heap.size[x] > 0 && L.heap.size[y] > 0;
  }

  lemma ChunkOffTail(L: Layout, x: int, y: int)
    requires LaidOut(L) && x in L.heap.size && IsTail(L.regions, y)
    ensures Clear(x + W, EndOf(L.heap, x) + W, y + W, y + 2 * W)
  {
    hide RegionsOk, Marked, Covered, MetasOk, Tiled, Sized, LaidOut;
    LaidOutParts(L);
    var j := WhichRegion(L.heap.size, L.regions, x);
    var k :| 0 <= k < |L.regions| && InTail(L.regions[k], y);
    TailsMeet(L.regions, j, k);
  }

  lemma TailsApart(L: Layout, x: int, y: int)
    requires LaidOut(L) && IsTail(L.regions, x) && IsTail(L.regions, y) && x != y
    ensures Clear(x + W, x + 2 * W, y + W, y + 2 * W)
  {
    hide RegionsOk, Marked, Covered, MetasOk, Tiled, Sized, LaidOut;
    LaidOutParts(L);
    var j :| 0 <= j < |L.regions| && InTail(L.regions[j], x);
    var k :| 0 <= k < |L.regions| && InTail(L.regions[k], y);
    TailsMeet(L.regions, j, k);
    if j == k {
      if x < y { InTailApart(L.regions[j], x, y); } else { InTailApart(L.regions[j], y, x); }
    }
  }

  predicate IsLink(w: Word) { !w.HeadOf? && !w.FootOf? && !w.RecordOf? }

  ghost predicate WordsClear(base: int, u: Word, v: Word) {
    Clear(Addr(base, u), Addr(base, u) + Width(u), Addr(base, v), Addr(base, v) + Width(v))
  }

  /** The links of one binned chunk. */
  lemma NodeApart(L: Layout, x: int, u: Word, v: Word)
    requires x in L.binned && x != L.base && Owns(L, AtChunk(x), u) && Owns(L, AtChunk(x), v) && u != v
    requires IsLink(u) && IsLink(v)
    ensures WordsClear(L.base, u, v)
  {
    if W == 4 { } else { assert W == 8; }
  }

  /** The bins of the malloc_state. */
  lemma StateApart(L: Layout, u: Word, v: Word)
    requires Owns(L, AtChunk(L.base), u) && Owns(L, AtChunk(L.base), v) && u != v && IsLink(u) && IsLink(v)
      && L.base !in L.binned
    ensures WordsClear(L.base, u, v)
  {
    if W == 4 { } else { assert W == 8; }
  }

  lemma BinnedNotBase(L: Layout, p: int)
    requires LaidOut(L) && p in L.binned
    ensures p != L.base && IsFree(L.heap, p) && p != L.heap.top
  {
    hide RegionsOk, Marked, Covered, MetasOk, Tiled, Sized, LaidOut;
    LaidOutParts(L);
    var _ := L.binned[p];
  }

  lemma LinksApart(L: Layout, x: int, u: Word, v: Word)
    requires LaidOut(L) && x in L.heap.size && Owns(L, AtChunk(x), u) && Owns(L, AtChunk(x), v) && u != v
    requires IsLink(u) && IsLink(v)
    ensures WordsClear(L.base, u, v)
  {
    hide WordsClear, LaidOut, IsHeader;
    forall p | p in L.binned ensures p != L.base { BinnedNotBase(L, p); }
    if x == L.base { StateApart(L, u, v); } else { NodeApart(L, x, u, v); }
  }

  /** The words of one chunk are apart. */
  lemma SameCell(L: Layout, x: int, u: Word, v: Word)
    requires LaidOut(L) && x in L.heap.size && Owns(L, AtChunk(x), u) && Owns(L, AtChunk(x), v) && u != v
    ensures WordsClear(L.base, u, v)
  {
    hide LaidOut, Owns, Addr, Width;
    if IsLink(u) && IsLink(v) {
      LinksApart(L, x, u, v);
    } else if u.HeadOf? || (u.RecordOf? && !v.HeadOf?) || (u.FootOf? && IsLink(v)) {
      OtherWords(L, x, u, v);
    } else {
      OtherWords(L, x, v, u);
    }
  }

  lemma OtherWords(L: Layout, x: int, u: Word, v: Word)
    requires LaidOut(L) && x in L.heap.size && Owns(L, AtChunk(x), u) && Owns(L, AtChunk(x), v) && u != v
    requires u.HeadOf? || (u.RecordOf? && !v.HeadOf?) || (u.FootOf? && (IsLink(v) || v.FootOf?))
    ensures WordsClear(L.base, u, v)
  {
    hide RegionsOk, Marked, Covered, MetasOk, Tiled, LaidOut, IsHeader;
    LaidOutParts(L);
    if u.RecordOf? { RecordSized(L, u.ss); }
    if v.RecordOf? { RecordSized(L, v.ss); }
    if IsLink(v) {
      LinkInCell(L, x, v);
      if u.RecordOf? && x in L.binned { BinnedNotBase(L, x); }
    }
    if v.FootOf? { assert MIN_CHUNK_SIZE <= L.heap.size[x]; }
  }

  /** No two words in use share a byte. */
  lemma WordsApart(L: Layout, u: Word, v: Word)
    requires LaidOut(L) && InUse(L, u) && InUse(L, v) && u != v
    ensures WordsClear(L.base, u, v)
  {
    hide LaidOut, InUse, Owns, WordsClear, CellEnd, IsCell;
    var c := Owner(L, u);
    var d := Owner(L, v);
    if c == d {
      OneCell(L, c, u, v);
    } else {
      CellsApart(L, c, d);
      InCell(L, c, u);
      InCell(L, d, v);
      ApartInside(L, c, d, u, v);
    }
  }

  lemma OneCell(L: Layout, c: Cell, u: Word, v: Word)
    requires LaidOut(L) && IsCell(L, c) && Owns(L, c, u) && Owns(L, c, v) && u != v
    ensures WordsClear(L.base, u, v)
  {
    hide LaidOut, WordsClear;
    if c.AtChunk? {
      SameCell(L, c.x, u, v);
    }
  }

  lemma ApartInside(L: Layout, c: Cell, d: Cell, u: Word, v: Word)
    requires Clear(c.x + W, CellEnd(L, c), d.x + W, CellEnd(L, d))
    requires c.x + W <= Addr(L.base, u) && Addr(L.base, u) + Width(u) <= CellEnd(L, c)
    requires d.x + W <= Addr(L.base, v) && Addr(L.base, v) + Width(v) <= CellEnd(L, d)
    ensures WordsClear(L.base, u, v)
  {
    hide CellEnd, Addr, Width;
  }

  // ---- no word in use lies in a payload ----

  /** No byte of [lo, hi) is in a payload. */
  ghost predicate Spared(blocks: map<int, int>, lo: int, hi: int) {
    forall p {:trigger blocks[p]} :: p in blocks ==> hi <= Chunk2Mem(p) || p + blocks[p] + CHUNK_OVERHEAD <= lo
  }

  /** Only the head of a block's own chunk is the allocator's. */
  lemma LiveOwns(L: Layout, p: int, w: Word)
    requires LaidOut(L) && IsLive(L.heap, p) && Owns(L, AtChunk(p), w)
    ensures w == HeadOf(p)
  {
    hide LaidOut, IsHeader, RegionsOk, Marked, Covered, MetasOk, Tiled, Sized;
    LaidOutParts(L);
    if w.RecordOf? { RecordSized(L, w.ss); }
    if IsLink(w) && p in L.binned { BinnedNotBase(L, p); }
  }

  lemma WordOffBlock(L: Layout, w: Word, p: int)
    requires LaidOut(L) && InUse(L, w) && p in Handed(L.heap)
    ensures Clear(Addr(L.base, w), Addr(L.base, w) + Width(w), Chunk2Mem(p),
      p + Handed(L.heap)[p] + CHUNK_OVERHEAD)
  {
    hide LaidOut, InUse, Owns, Addr, Width;
    HandedLive(L.heap);
    var c := Owner(L, w);
    InCell(L, c, w);
    if c == AtChunk(p) {
      LiveOwns(L, p, w);
      HeadPlace(L.base, p);
    } else {
      CellsApart(L, c, AtChunk(p));
    }
  }

  lemma HeadPlace(base: int, p: int)
    ensures Addr(base, HeadOf(p)) == p + W && Width(HeadOf(p)) == W
  {
  }

  /** No word in use lies in a payload. */
  lemma WordSpared(L: Layout, w: Word)
    requires LaidOut(L) && InUse(L, w)
    ensures Spared(Handed(L.heap), Addr(L.base, w), Addr(L.base, w) + Width(w))
  {
    hide LaidOut, InUse, Addr, Width, Handed;
    var blocks := Handed(L.heap);
    forall p {:trigger blocks[p]} | p in blocks
      ensures Addr(L.base, w) + Width(w) <= Chunk2Mem(p) || p + blocks[p] + CHUNK_OVERHEAD <= Addr(L.base, w)
    {
      WordOffBlock(L, w, p);
    }
  }

  // ---- memory says what every word in use holds ----

  ghost predicate Legible(L: Layout, log: seq<Event>) {
    forall w {:trigger InUse(L, w)} :: InUse(L, w) ==> Intact(L.base, log, w)
  }

  /** Only words in use are stored. */
  ghost predicate StoresInUse(L: Layout, l0: seq<Event>, l1: seq<Event>) {
    l0 <= l1 && forall i {:trigger l1[i]} :: |l0| <= i < |l1| ==> l1[i].Stored? && InUse(L, l1[i].w)
  }

  /** The words in use after are in use in L, and were in use before or are stored. */
  ghost predicate AllWritten(L0: Layout, L1: Layout, L: Layout, l0: seq<Event>, l1: seq<Event>) {
    forall w {:trigger InUse(L1, w)} :: InUse(L1, w) ==> InUse(L, w) && (InUse(L0, w) || WroteIn(l0, l1, w))
  }

  /** Stores of words in use in a sound layout L, before or after, leave the words in use after legible. */
  lemma LegibleStep(L0: Layout, L1: Layout, L: Layout, l0: seq<Event>, l1: seq<Event>)
    requires LaidOut(L) && Legible(L0, l0) && L0.base == L1.base == L.base
    requires StoresInUse(L, l0, l1) && AllWritten(L0, L1, L, l0, l1)
    ensures Legible(L1, l1)
  {
    hide LaidOut, InUse, WroteIn, Intact;
    forall w {:trigger InUse(L1, w)} | InUse(L1, w) ensures Intact(L.base, l1, w) {
      StoresApart(L, l0, l1, w);
      IntactStays(L.base, l0, l1, w);
    }
  }

  lemma StoresApart(L: Layout, l0: seq<Event>, l1: seq<Event>, w: Word)
    requires LaidOut(L) && StoresInUse(L, l0, l1) && InUse(L, w)
    ensures OnlyOver(L.base, l0, l1, w)
  {
    hide LaidOut, InUse, Addr, Width;
    forall i {:trigger l1[i]} | |l0| <= i < |l1|
      ensures (l1[i].Stored? && l1[i].w == w) || ClearOf(L.base, l1[i], w) {
      if l1[i].w != w { WordsApart(L, l1[i].w, w); }
    }
  }

  /** A chunk taken out of the bins. */
  lemma UnlinkLegible(L: Layout, binned: map<int, int>, l0: seq<Event>, l1: seq<Event>)
    requires LaidOut(L) && Legible(L, l0) && LinksIn(L.base, l0, l1, L.binned)
    requires forall x {:trigger binned[x]} {:trigger x in binned} ::
      x in binned ==> x in L.binned && L.binned[x] == binned[x]
    ensures Legible(L.(binned := binned), l1)
  {
    hide LaidOut, WroteIn, Legible, IsHeader, IsFence, AfterFree, IsRecord;
    LegibleStep(L, L.(binned := binned), L, l0, l1);
  }

  /** A chunk put into the bins. */
  lemma InsertLegible(L: Layout, binned: map<int, int>, x: int, s: int, l0: seq<Event>, l1: seq<Event>)
    requires LaidOut(L.(binned := binned)) && Legible(L, l0) && binned == L.binned[x := s]
    requires LinksIn(L.base, l0, l1, binned) && NodeWritten(l0, l1, x, s)
    ensures Legible(L.(binned := binned), l1)
  {
    hide LaidOut, WroteIn, Legible, IsHeader, IsFence, AfterFree, IsRecord;
    LegibleStep(L, L.(binned := binned), L.(binned := binned), l0, l1);
  }

  /** A store of a client, or memcpy or memset for one, inside a block. */
  lemma FillLegible(L: Layout, log: seq<Event>, p: int, lo: int, n: nat, byte: int -> int)
    requires LaidOut(L) && Legible(L, log) && p in Handed(L.heap)
    requires Chunk2Mem(p) <= lo && lo + n <= p + Handed(L.heap)[p] + CHUNK_OVERHEAD
    ensures Legible(L, log + [Filled(lo, n, byte)])
  {
    hide LaidOut, InUse, Handed, Addr, Width;
    var l1 := log + [Filled(lo, n, byte)];
    assert l1[..|log|] == log;
    forall w {:trigger InUse(L, w)} | InUse(L, w) ensures Intact(L.base, l1, w) {
      WordOffBlock(L, w, p);
    }
  }

  /** A new space, every word in use just stored. */
  lemma NewLegible(L: Layout, l0: seq<Event>, l1: seq<Event>)
    requires LaidOut(L) && StoresInUse(L, l0, l1)
    requires forall w {:trigger InUse(L, w)} :: InUse(L, w) ==> WroteIn(l0, l1, w)
    ensures Legible(L, l1)
  {
    hide LaidOut, InUse, WroteIn, Intact;
    forall w {:trigger InUse(L, w)} | InUse(L, w) ensures Intact(L.base, l1, w) {
      StoresApart(L, l0, l1, w);
      IntactStays(L.base, l0, l1, w);
    }
  }

  /** The words in use in a new space of one segment. */
  lemma InitialWord(base: int, topsize: int, regions: seq<Region>, w: Word)
    requires |regions| == 1
    ensures InUse(Layout(base, InitialHeap(base, topsize), regions, map[]), w) <==>
      w == HeadOf(base) || w == HeadOf(base + STATE_CHUNK) || w == HeadOf(base + STATE_CHUNK + topsize)
      || LinkWord(base, map[], w)
  {
    InitialFacts(base, topsize);
    hide InitialHeap, LinkWord;
    if w.HeadOf? || w.FootOf? || w.RecordOf? { assert !LinkWord(base, map[], w) by { NotLink(base, w); } }
  }

  lemma NotLink(base: int, w: Word)
    requires w.HeadOf? || w.FootOf? || w.RecordOf?
    ensures !LinkWord(base, map[], w)
  {
  }

  /** The words of the malloc_state's bins are those that init_bins stores. */
  lemma StateWordWritten(base: int, l0: seq<Event>, l1: seq<Event>, w: Word)
    requires LinkWord(base, map[], w) && StateWritten(base, l0, l1, 32)
    ensures WroteIn(l0, l1, w)
  {
    hide WroteIn, Header;
    match w
    case FdOf(x) => var i :| 0 <= i < 32 && x == Header(base, i); assert BinWritten(base, l0, l1, i);
    case BkOf(x) => var i :| 0 <= i < 32 && x == Header(base, i); assert BinWritten(base, l0, l1, i);
    case SlotOf(c) => assert BinWritten(base, l0, l1, c.bin);
  }

  /** What the log of a new space holds: a clearing, the state's head, its bins, top's head and the head behind. */
  ghost predicate InitialLog(base: int, topsize: int, l0: seq<Event>, l1: seq<Event>, l2: seq<Event>) {
    && |l0| == 2 && l0[1].Stored? && l0[1].w == HeadOf(base) && LinksIn(base, l0, l1, map[]) && l1 <= l2
    && |l2| == |l1| + 2 && l2[|l1|].Stored? && l2[|l1|].w == HeadOf(base + STATE_CHUNK)
    && l2[|l1| + 1].Stored? && l2[|l1| + 1].w == HeadOf(base + STATE_CHUNK + topsize)
  }

  lemma InitialLogged(base: int, topsize: int, l0: seq<Event>, l1: seq<Event>, l2: seq<Event>, i1: Item, i2: Item)
    requires |l0| == 2 && l0[1].Stored? && l0[1].w == HeadOf(base) && LinksIn(base, l0, l1, map[])
    requires l2 ==
      l1 + [Stored(HeadOf(base + STATE_CHUNK), i1)] + [Stored(HeadOf(base + STATE_CHUNK + topsize), i2)]
    ensures InitialLog(base, topsize, l0, l1, l2)
  {
    hide LinksIn;
  }

  lemma InitialStores(base: int, topsize: int, regions: seq<Region>, l0: seq<Event>, l1: seq<Event>, l2: seq<Event>)
    requires |regions| == 1 && InitialLog(base, topsize, l0, l1, l2)
    ensures StoresInUse(Layout(base, InitialHeap(base, topsize), regions, map[]), l0[..1], l2)
  {
    var L := Layout(base, InitialHeap(base, topsize), regions, map[]);
    hide InUse, LinkWord, InitialHeap;
    assert l0[..1] <= l0 <= l1 <= l2;
    forall i {:trigger l2[i]} | 1 <= i < |l2| ensures l2[i].Stored? && InUse(L, l2[i].w) {
      if i < |l1| { assert l2[i] == l1[i]; }
      if i < |l0| { assert l1[i] == l0[i]; }
      InitialWord(base, topsize, regions, l2[i].w);
    }
  }

  lemma InitialWritten(base: int, topsize: int, regions: seq<Region>, l0: seq<Event>, l1: seq<Event>, l2: seq<Event>,
                       w: Word)
    requires |regions| == 1 && InitialLog(base, topsize, l0, l1, l2) && StateWritten(base, l0, l1, 32)
    requires InUse(Layout(base, InitialHeap(base, topsize), regions, map[]), w)
    ensures WroteIn(l0[..1], l2, w)
  {
    hide InUse, LinkWord, InitialHeap, WroteIn, StateWritten;
    assert l0[..1] <= l0 <= l1 <= l2;
    InitialWord(base, topsize, regions, w);
    if LinkWord(base, map[], w) {
      StateWordWritten(base, l0, l1, w);
      WroteLonger(l0, l1, l2, w);
      WroteLonger(l0[..1], l0, l2, w);
    } else {
      assert l2[1] == l1[1] == l0[1];
      OneOfThree(base, topsize, l0[..1], l2, w);
    }
  }

  lemma InitialLegible(base: int, topsize: int, regions: seq<Region>, l0: seq<Event>, l1: seq<Event>, l2: seq<Event>)
    requires LaidOut(Layout(base, InitialHeap(base, topsize), regions, map[])) && |regions| == 1
    requires InitialLog(base, topsize, l0, l1, l2) && StateWritten(base, l0, l1, 32)
    ensures Legible(Layout(base, InitialHeap(base, topsize), regions, map[]), l2)
  {
    hide LaidOut, InUse, WroteIn, StateWritten, StoresInUse, Legible, InitialHeap;
    var L := Layout(base, InitialHeap(base, topsize), regions, map[]);
    assert |l0| > 0;
    InitialStores(base, topsize, regions, l0, l1, l2);
    forall w {:trigger InUse(L, w)} | InUse(L, w) ensures WroteIn(l0[..1], l2, w) {
      InitialWritten(base, topsize, regions, l0, l1, l2, w);
    }
    NewLegible(L, l0[..1], l2);
  }

  lemma OneOfThree(base: int, topsize: int, l: seq<Event>, l2: seq<Event>, w: Word)
    requires l <= l2 && |l| == 1 && |l2| >= 4 && l2[1].Stored? && l2[1].w == HeadOf(base)
    requires l2[|l2| - 2].Stored? && l2[|l2| - 2].w == HeadOf(base + STATE_CHUNK)
    requires l2[|l2| - 1].Stored? && l2[|l2| - 1].w == HeadOf(base + STATE_CHUNK + topsize)
    requires w == HeadOf(base) || w == HeadOf(base + STATE_CHUNK) || w == HeadOf(base + STATE_CHUNK + topsize)
    ensures WroteIn(l, l2, w)
  {
  }

  // ---- a retiling ----

  /** The heads at a and n and, for a cut, at m; and the foot at n of a free chunk that needs one. */
  predicate RetileWord(a: int, m: int, n: int, footed: bool, w: Word) {
    w == HeadOf(a) || w == HeadOf(n) || (m < n && w == HeadOf(m)) || (footed && w == FootOf(n))
  }

  /** Only those are stored, and the new ones are. */
  ghost predicate RetileStores(l0: seq<Event>, l1: seq<Event>, a: int, m: int, n: int, footed: bool) {
    && l0 <= l1
    && (forall i {:trigger l1[i]} :: |l0| <= i < |l1| ==> l1[i].Stored? && RetileWord(a, m, n, footed, l1[i].w))
    && (m < n ==> WroteIn(l0, l1, HeadOf(m))) && (footed ==> WroteIn(l0, l1, FootOf(n)))
  }

  /** These stores are such: es[im] is the head at m, es[jf] the foot. */
  lemma RetileStoresOf(l0: seq<Event>, es: seq<Event>, a: int, m: int, n: int, footed: bool, im: nat, jf: nat)
    requires forall i {:trigger es[i]} ::
      0 <= i < |es| ==> es[i].Stored? && RetileWord(a, m, n, footed, es[i].w)
    requires m < n ==> im < |es| && es[im].w == HeadOf(m)
    requires footed ==> jf < |es| && es[jf].w == FootOf(n)
    ensures RetileStores(l0, l0 + es, a, m, n, footed)
  {
    var l1 := l0 + es;
    assert forall i {:trigger l1[i]} :: |l0| <= i < |l1| ==> l1[i] == es[i - |l0|];
    if m < n { assert l1[|l0| + im] == es[im]; }
    if footed { assert l1[|l0| + jf] == es[jf]; }
  }

  /** The last chunk of the stretch is free and not top. */
  predicate IsFooted(H: Heap, a: int, m: int, n: int, low: Kind, high: Kind) {
    (if m < n then high else low).Free? && !(a <= H.top < n)
  }

  /** Where chunks are after a retiling. */
  lemma RetileChunks(H: Heap, a: int, m: int, n: int, low: Kind, high: Kind, head: map<int, Head>)
    requires MayRetile(H, a, m, n, low, high, head) && H.size.Keys == H.kind.Keys
    ensures var H' := RetileHeap(H, a, m, n, low, high);
      && a in H'.size && (m < n ==> m in H'.size) && (n in H'.size || n in H'.ends) && H'.ends == H.ends
      && (forall x {:trigger x in H'.size} :: x in H'.size ==> x in H.size || (m < n && x == m))
      && (IsFooted(H, a, m, n, low, high) ==> AfterFree(H', n))
  {
    var H' := RetileHeap(H, a, m, n, low, high);
    RetileAt(H.size, a, m, n);
    RetileKindsAt(H.kind, a, m, n, low, high);
    hide Retile, RetileKinds;
    if IsFooted(H, a, m, n, low, high) { assert IsFree(H', if m < n then m else a); }
  }

  lemma RetileFeet(H: Heap, a: int, m: int, n: int, low: Kind, high: Kind, head: map<int, Head>, e: int)
    requires MayRetile(H, a, m, n, low, high, head) && H.size.Keys == H.kind.Keys
    requires AfterFree(RetileHeap(H, a, m, n, low, high), e)
    ensures AfterFree(H, e) || (IsFooted(H, a, m, n, low, high) && e == n)
  {
    var H' := RetileHeap(H, a, m, n, low, high);
    RetileAt(H.size, a, m, n);
    RetileKindsAt(H.kind, a, m, n, low, high);
    hide Retile, RetileKinds, Span;
    var p :| IsFree(H', p) && p != H'.top && EndOf(H', p) == e;
    if p in H.size && (p < a || n <= p) { assert IsFree(H, p); }
  }

  lemma RetileUsed(L: Layout, H': Heap, a: int, m: int, n: int, footed: bool, l0: seq<Event>, l1: seq<Event>)
    requires a in H'.size && (m < n ==> m in H'.size) && (n in H'.size || n in H'.ends) && (footed ==> AfterFree(H', n))
    requires RetileStores(l0, l1, a, m, n, footed)
    ensures StoresInUse(L.(heap := H'), l0, l1)
  {
    hide WroteIn, IsFence, AfterFree;
  }

  lemma RetileWritten(L: Layout, H': Heap, a: int, m: int, n: int, footed: bool, l0: seq<Event>, l1: seq<Event>)
    requires H'.ends == L.heap.ends
    requires forall x {:trigger x in H'.size} :: x in H'.size ==> x in L.heap.size || (m < n && x == m)
    requires forall e {:trigger AfterFree(H', e)} :: AfterFree(H', e) ==> AfterFree(L.heap, e) || (footed && e == n)
    requires RetileStores(l0, l1, a, m, n, footed)
    ensures AllWritten(L, L.(heap := H'), L.(heap := H'), l0, l1)
  {
    hide WroteIn, IsFence, AfterFree, LinkWord, IsRecord, RetileWord;
  }

  lemma RetileLegible(L: Layout, a: int, m: int, n: int, low: Kind, high: Kind, head: map<int, Head>,
                      l0: seq<Event>, l1: seq<Event>)
    requires LaidOut(L) && Legible(L, l0) && MayRetile(L.heap, a, m, n, low, high, head)
    requires LaidOut(L.(heap := RetileHeap(L.heap, a, m, n, low, high)))
    requires RetileStores(l0, l1, a, m, n, IsFooted(L.heap, a, m, n, low, high))
    ensures Legible(L.(heap := RetileHeap(L.heap, a, m, n, low, high)), l1)
    ensures StoresInUse(L.(heap := RetileHeap(L.heap, a, m, n, low, high)), l0, l1)
  {
    hide LaidOut, WroteIn, Legible, MayRetile, RetileHeap, IsFooted, InUse, AfterFree, RetileStores, StoresInUse,
      AllWritten, Tiled, Sized, RegionsOk, Marked, MetasOk, Covered, StateThere, BinnedFree;
    LaidOutParts(L);
    var H' := RetileHeap(L.heap, a, m, n, low, high);
    var footed := IsFooted(L.heap, a, m, n, low, high);
    RetileChunks(L.heap, a, m, n, low, high, head);
    forall e {:trigger AfterFree(H', e)} | AfterFree(H', e) ensures AfterFree(L.heap, e) || (footed && e == n) {
      RetileFeet(L.heap, a, m, n, low, high, head, e);
    }
    RetileUsed(L, H', a, m, n, footed, l0, l1);
    RetileWritten(L, H', a, m, n, footed, l0, l1);
    LegibleStep(L, L.(heap := H'), L.(heap := H'), l0, l1);
  }

  /** The words and the blocks once the live chunk p has grown into top, to nb bytes. */
  lemma GrowDone(H: Heap, head: map<int, Head>, foot: map<int, int>, base: int, least: int, regions: seq<Region>,
                 seg: Segment, records: map<int, Segment>, dv: int, dvsize: int, binned: map<int, int>, top: int,
                 topsize: int, p: int, nb: int)
    requires SpaceOk(H, head, foot, base, least, regions, seg, records, dv, {}, binned) && DvOk(H, dv, dvsize)
    requires TopCached(H, top, topsize) && TopAfter(H, p) && MIN_CHUNK_SIZE <= nb && nb % 8 == 0
      && top - p < nb < top - p + topsize
    ensures p in head && p + head[p].size == top && p < p + nb < top + topsize
    ensures var m, n := p + nb, top + topsize; var H' := RetileHeap(H, p, m, n, Live, Free);
      && DvOk(H', dv, dvsize) && TopCached(H', m, n - m) && Handed(H') == Handed(H)[p := nb] && p in Handed(H)
      && MayRetile(H, p, m, n, Live, Free, head) && !IsFooted(H, p, m, n, Live, Free)
      && SpaceOk(H', GrownHead(head, p, m, n), foot, base, least, regions, seg, records, dv, {}, binned)
  {
    hide SpaceOk, Physical, HeapPlaced, BinnedExactly, MayRetile, Handed, GrownHead, RetileHeap, DvOk;
    SpacePhysical(H, head, foot, base, least, regions, seg, records, dv, {}, binned);
    LiveFacts(H, head, foot, p);
    GrowStep(H, head, foot, base, least, regions, seg, records, dv, dvsize, binned, p, nb);
    GrowCaches(H, dv, dvsize, p, p + nb, top + topsize);
    HandedGrown(H, head, foot, p, p + nb, top + topsize);
  }

  // ---- a new segment ----

  /** A fencepost from p on, up to end. */
  predicate IsPost(p: int, end: int, x: int) { p <= x && x + W < end && (x - p) % W == 0 }

  /** The words of the new top and its foot, of the record of the old segment, which ends at end, of its fenceposts,
      and of what is left of the old top t. */
  predicate SegmentWord(t: int, c: int, end: int, tbase: int, psize: int, w: Word) {
    match w
    case HeadOf(x) =>
      x == tbase || x == tbase + psize || x == c || (c != t && x == t) || IsPost(c + SEGMENT_CHUNK, end, x)
    case FootOf(n) => c != t && n == c
    case RecordOf(ss) => ss == Chunk2Mem(c)
    case _ => false
  }

  /** Every fencepost has its word stored. */
  ghost predicate PostsWritten(l0: seq<Event>, l1: seq<Event>, p: int, end: int) {
    forall x {:trigger IsPost(p, end, x)} :: IsPost(p, end, x) ==> WroteIn(l0, l1, HeadOf(x))
  }

  ghost predicate SegmentStores(l0: seq<Event>, l1: seq<Event>, t: int, c: int, end: int, tbase: int, psize: int) {
    && l0 <= l1
    && (forall i {:trigger l1[i]} :: |l0| <= i < |l1| ==>
          l1[i].Stored? && SegmentWord(t, c, end, tbase, psize, l1[i].w))
    && WroteIn(l0, l1, HeadOf(tbase)) && WroteIn(l0, l1, HeadOf(tbase + psize)) && WroteIn(l0, l1, HeadOf(c))
    && WroteIn(l0, l1, RecordOf(Chunk2Mem(c))) && (c != t ==> WroteIn(l0, l1, FootOf(c)))
    && PostsWritten(l0, l1, c + SEGMENT_CHUNK, end)
  }

  lemma PostIsFence(regions: seq<Region>, k: nat, x: int)
    requires 1 <= k < |regions| && IsPost(regions[k].end, regions[k].base + regions[k].size, x)
    ensures IsFence(regions, x)
  {
    assert InTail(regions[k], x);
  }

  /** The words stored for a new segment are in use. */
  lemma ExtendUsed(L: Layout, c: int, tbase: int, tsize: int, l0: seq<Event>, l1: seq<Event>)
    requires |L.regions| > 0 && MayExtend(L.heap, c, tbase, tsize - TOP_FOOT_SIZE) && Positive(L.heap.size)
      && L.heap.size.Keys == L.heap.kind.Keys && L.heap.top in L.heap.kind && L.heap.kind[L.heap.top].Free?
    requires var end := L.regions[0].base + L.regions[0].size;
      SegmentStores(l0, l1, L.heap.top, c, end, tbase, tsize - TOP_FOOT_SIZE)
    ensures StoresInUse(Layout(L.base, Extended(L.heap, c, tbase, tsize - TOP_FOOT_SIZE),
      ExtendedRegions(L.regions, c, tbase, tsize), L.binned), l0, l1)
  {
    var H' := Extended(L.heap, c, tbase, tsize - TOP_FOOT_SIZE);
    var r' := ExtendedRegions(L.regions, c, tbase, tsize);
    var L1 := Layout(L.base, H', r', L.binned);
    RegionAt(L.regions, c, tbase, tsize);
    ExtendedAt(L.heap, c, tbase, tsize - TOP_FOOT_SIZE);
    ExtendedKinds(L.heap, c, tbase, tsize - TOP_FOOT_SIZE);
    hide Extended, ExtendedRegions, ZoneClear, NewClear, Positive, WroteIn, PostsWritten, IsPost;
    forall i {:trigger l1[i]} | |l0| <= i < |l1| ensures l1[i].Stored? && InUse(L1, l1[i].w) {
      var w := l1[i].w;
      if w.HeadOf? && IsPost(c + SEGMENT_CHUNK, L.regions[0].base + L.regions[0].size, w.x) {
        PostIsFence(r', 1, w.x);
      } else if w.FootOf? {
        assert IsFree(H', L.heap.top);
      } else if w.RecordOf? {
        assert RecordAt(r'[1]) == w.ss;
      }
    }
  }

  /** All words a new segment brings into use are stored. */
  lemma ExtendWritten(L: Layout, c: int, tbase: int, tsize: int, l0: seq<Event>, l1: seq<Event>)
    requires |L.regions| > 0 && MayExtend(L.heap, c, tbase, tsize - TOP_FOOT_SIZE) && Positive(L.heap.size)
      && L.heap.size.Keys == L.heap.kind.Keys
    requires L.regions[0].base + L.regions[0].size == EndOf(L.heap, L.heap.top) + TOP_FOOT_SIZE
    requires var end := L.regions[0].base + L.regions[0].size;
      SegmentStores(l0, l1, L.heap.top, c, end, tbase, tsize - TOP_FOOT_SIZE)
    ensures var L1 := Layout(L.base, Extended(L.heap, c, tbase, tsize - TOP_FOOT_SIZE),
        ExtendedRegions(L.regions, c, tbase, tsize), L.binned);
      AllWritten(L, L1, L1, l0, l1)
  {
    var H' := Extended(L.heap, c, tbase, tsize - TOP_FOOT_SIZE);
    var r' := ExtendedRegions(L.regions, c, tbase, tsize);
    var L1 := Layout(L.base, H', r', L.binned);
    RegionAt(L.regions, c, tbase, tsize);
    hide ExtendedRegions, ZoneClear, NewClear, Positive, WroteIn;
    forall w {:trigger InUse(L1, w)} | InUse(L1, w) ensures InUse(L, w) || WroteIn(l0, l1, w) {
      match w
      case HeadOf(x) => ExtendHeadsWritten(L, c, tbase, tsize, l0, l1, x);
      case FootOf(n) => ExtendFeetWritten(L.heap, c, tbase, tsize - TOP_FOOT_SIZE, n);
      case RecordOf(ss) =>
        var k :| 1 <= k < |r'| && RecordAt(r'[k]) == ss;
        if k > 1 { assert RecordAt(L.regions[k - 1]) == ss; }
      case _ =>
    }
  }

  lemma ExtendFeetWritten(H: Heap, c: int, tbase: int, psize: int, n: int)
    requires MayExtend(H, c, tbase, psize) && Positive(H.size) && H.size.Keys == H.kind.Keys
    requires AfterFree(Extended(H, c, tbase, psize), n)
    ensures AfterFree(H, n) || (c != H.top && n == c)
  {
    var H' := Extended(H, c, tbase, psize);
    ExtendedAt(H, c, tbase, psize);
    ExtendedKinds(H, c, tbase, psize);
    hide Extended, ZoneClear, NewClear, Positive;
    var p :| IsFree(H', p) && p != H'.top && EndOf(H', p) == n;
    if p != H.top { assert IsFree(H, p); }
  }

  lemma ExtendHeadsWritten(L: Layout, c: int, tbase: int, tsize: int, l0: seq<Event>, l1: seq<Event>, x: int)
    requires |L.regions| > 0 && MayExtend(L.heap, c, tbase, tsize - TOP_FOOT_SIZE) && Positive(L.heap.size)
      && L.heap.size.Keys == L.heap.kind.Keys
    requires L.regions[0].base + L.regions[0].size == EndOf(L.heap, L.heap.top) + TOP_FOOT_SIZE
    requires var end := L.regions[0].base + L.regions[0].size;
      SegmentStores(l0, l1, L.heap.top, c, end, tbase, tsize - TOP_FOOT_SIZE)
    requires InUse(Layout(L.base, Extended(L.heap, c, tbase, tsize - TOP_FOOT_SIZE),
      ExtendedRegions(L.regions, c, tbase, tsize), L.binned), HeadOf(x))
    ensures InUse(L, HeadOf(x)) || WroteIn(l0, l1, HeadOf(x))
  {
    var H' := Extended(L.heap, c, tbase, tsize - TOP_FOOT_SIZE);
    var r' := ExtendedRegions(L.regions, c, tbase, tsize);
    RegionAt(L.regions, c, tbase, tsize);
    ExtendedAt(L.heap, c, tbase, tsize - TOP_FOOT_SIZE);
    hide Extended, ExtendedRegions, ZoneClear, NewClear, Positive, WroteIn, SegmentWord;
    var end := L.regions[0].base + L.regions[0].size;
    if x in H'.ends && x == c + SEGMENT_CHUNK {
      assert IsPost(c + SEGMENT_CHUNK, end, x);
    } else if x !in H'.size && x !in H'.ends {
      var k :| 1 <= k < |r'| && InTail(r'[k], x) && x + W < r'[k].base + r'[k].size;
      if k == 1 {
        assert IsPost(c + SEGMENT_CHUNK, end, x);
      } else {
        assert InTail(L.regions[k - 1], x);
      }
    }
  }

  lemma ExtendLegible(L: Layout, c: int, tbase: int, tsize: int, l0: seq<Event>, l1: seq<Event>)
    requires LaidOut(L) && Legible(L, l0) && MayExtend(L.heap, c, tbase, tsize - TOP_FOOT_SIZE)
    requires L.heap.top in L.heap.kind && L.heap.kind[L.heap.top].Free?
    requires LaidOut(Layout(L.base, Extended(L.heap, c, tbase, tsize - TOP_FOOT_SIZE),
      ExtendedRegions(L.regions, c, tbase, tsize), L.binned))
    requires SegmentStores(l0, l1, L.heap.top, c, EndOf(L.heap, L.heap.top) + TOP_FOOT_SIZE, tbase,
      tsize - TOP_FOOT_SIZE)
    ensures var L1 := Layout(L.base, Extended(L.heap, c, tbase, tsize - TOP_FOOT_SIZE),
        ExtendedRegions(L.regions, c, tbase, tsize), L.binned);
      Legible(L1, l1) && StoresInUse(L1, l0, l1)
  {
    hide LaidOut, Legible, MayExtend, Extended, ExtendedRegions, SegmentStores, StoresInUse, AllWritten, Sized, Marked,
      MetasOk, Covered, StateThere, BinnedFree, NoOverlap, Closed, EndsClear, StartsClear;
    FirstEnds(L);
    LaidOutParts(L);
    ExtendUsed(L, c, tbase, tsize, l0, l1);
    ExtendWritten(L, c, tbase, tsize, l0, l1);
    var L1 := Layout(L.base, Extended(L.heap, c, tbase, tsize - TOP_FOOT_SIZE),
      ExtendedRegions(L.regions, c, tbase, tsize), L.binned);
    LegibleStep(L, L1, L1, l0, l1);
  }

  lemma FirstEnds(L: Layout)
    requires LaidOut(L)
    ensures |L.regions| > 0
    ensures L.regions[0].base + L.regions[0].size == EndOf(L.heap, L.heap.top) + TOP_FOOT_SIZE
  {
    hide Sized, Marked, MetasOk, Covered, StateThere, BinnedFree, Tiled;
  }
}
