/** A malloc space over extern segments: mspace_malloc, mspace_free and what builds on them. */
module Mspace {
  import opened ChunkLayout
  import opened BoundaryTags
  import opened BinMaps
  import opened SmallBins
  import opened BinStore
  import TreeBins
  import opened Segments
  import opened HeapSteps
  import opened ChunkSteps
  import opened Creation
  import opened Alignments
  import opened Coalesce
  import opened Blocks
  import opened Resizing
  import opened Growth
  import opened NewSegment
  import opened Storage
  import opened LinkStores
  import opened WordsInUse
  import opened Stores
  import Conservation

  class MallocState {
    const base: int
    const ram: Memory
    const bins: Bins

    /** Head and prev_foot words of the chunks, by chunk address. */
    var head: map<int, Head>
    var foot: map<int, int>

    var dv: int
    var dvsize: int
    var top: int
    var topsize: int
    var leastAddr: int
    var seg: Segment
    /** The segment records kept inside retired segments. */
    var records: map<int, Segment>
    ghost var heap: Heap
    ghost var regions: seq<Region>

    /** init_user_mstate: the malloc_state at the bottom of [tbase, tbase + tsize), top above it. */
    constructor (tbase: int, tsize: int, memory: int -> int)
      requires 0 < tbase && 0 <= tsize && tbase + tsize <= SIZE_T_RANGE && TopRoom(tbase, tsize) >= 8
      ensures Valid() && fresh(bins) && fresh(ram) && base == AlignUp(tbase) && ram.start == memory
      ensures regions == [Region(base, AlignedSize(tbase, tsize), base + STATE_CHUNK + TopRoom(tbase, tsize))]
      ensures heap == InitialHeap(base, TopRoom(tbase, tsize)) && leastAddr == base
    {
      hide SpaceOk, SmallOk, TreeBins.TreeOk, AlignUp, AlignedSize, RoundDown, Retile, Told, LinksTold, TagsTold,
        LinksIn, StateWritten, Legible, LaidOut, InitialLog, InitialHeap, Valid;
      AlignFacts(tbase, tsize);
      var msp := AlignUp(tbase);
      var size := AlignedSize(tbase, tsize);
      var mn := msp + STATE_CHUNK;
      var psize := msp + size - mn - TOP_FOOT_SIZE;
      assert psize == TopRoom(tbase, tsize) && size == STATE_CHUNK + psize + TOP_FOOT_SIZE;
      assert 0 < msp && msp % 8 == 0 && 8 <= psize && psize % 8 == 0 && msp + size <= SIZE_T_RANGE;
      hide TopRoom;
      base := msp;
      var m := new Memory(msp, memory);
      var zero := (_: int) => 0;
      m.Fill(Chunk2Mem(msp), STATE_CHUNK, zero);
      assert m.log == [Filled(Chunk2Mem(msp), STATE_CHUNK, zero)];
      m.Store(HeadOf(msp), Tag(Head(STATE_CHUNK, true, true)));
      FirstTold(Filled(Chunk2Mem(msp), STATE_CHUNK, zero), msp, Head(STATE_CHUNK, true, true));
      ghost var l0 := m.log;
      ram := m;
      bins := new Bins(msp, m);
      TagsStay(msp, l0, m.log, map[], map[msp := Head(STATE_CHUNK, true, true)], map[], map[]);
      leastAddr := msp;
      seg := Segment(msp, size, 0);
      records := map[];
      dv := 0;
      dvsize := 0;
      head := map[msp := Head(STATE_CHUNK, true, true)];
      foot := map[];
      heap := InitialHeap(msp, psize);
      regions := [Region(msp, size, mn + psize)];
      new;
      FirstTop(psize, l0);
    }

    /** The words are those last stored in memory. */
    ghost predicate Mirrored()
      reads `head, `foot, `records, bins, ram
    {
      && bins.base == base && bins.ram == ram && ram.base == base && bins.Mirrors()
      && TagsTold(Told(ram.log), head, foot, records)
    }

    /** What decides which words are in use. */
    ghost function Plan(): Layout
      reads this, bins
    {
      Layout(base, heap, regions, bins.binned)
    }

    /** The space is in order, apart from the free chunks of loose, which are in no bin. */
    ghost predicate InOrder(loose: set<int>)
      reads this, bins
    {
      && DvOk(heap, dv, dvsize) && TopCached(heap, top, topsize) && bins.base == base && bins.Valid()
      && SpaceOk(heap, head, foot, base, leastAddr, regions, seg, records, dv, loose, bins.binned)
    }

    /** It is, and every word in use is what memory says at its place. */
    ghost predicate Core(loose: set<int>)
      reads this, bins, ram
    {
      Mirrored() && Legible(Plan(), ram.log) && InOrder(loose)
    }

    ghost predicate Valid()
      reads this, bins, ram
    {
      Core({})
    }

    lemma OneBase()
      requires Valid()
      ensures ram.base == base
    {
      hide InOrder, Legible;
    }

    /** The bytes of memory. */
    function Data(): int -> int
      reads ram
    {
      ram.Data()
    }

    /** p->head = h. */
    method SetHead(p: int, h: Head)
      requires Mirrored()
      modifies `head, ram
      ensures Mirrored() && head == old(head)[p := h] && ram.log == old(ram.log) + [Stored(HeadOf(p), Tag(h))]
    {
      hide TagsTold, Told, LinksTold;
      TagTold(ram.log, head, foot, records, HeadOf(p), Tag(h));
      LinksStay(ram.log, Stored(HeadOf(p), Tag(h)), bins.TreeWords());
      head := head[p := h];
      ram.Store(HeadOf(p), Tag(h));
    }

    /** n->prev_foot = s. */
    method SetFoot(n: int, s: int)
      requires Mirrored()
      modifies `foot, ram
      ensures Mirrored() && foot == old(foot)[n := s] && ram.log == old(ram.log) + [Stored(FootOf(n), Number(s))]
    {
      hide TagsTold, Told, LinksTold;
      TagTold(ram.log, head, foot, records, FootOf(n), Number(s));
      LinksStay(ram.log, Stored(FootOf(n), Number(s)), bins.TreeWords());
      foot := foot[n := s];
      ram.Store(FootOf(n), Number(s));
    }

    /** set_inuse of chunk p, whose head holds was before, as next the one after it. */
    method SetInuse(p: int, s: int, was: Head, next: Head)
      requires Mirrored() && 0 < s
      modifies `head, ram
      ensures Mirrored() && head == old(head)[p := Head(s, was.pinuse, true)][p + s := next.(pinuse := true)]
      ensures ram.log ==
        old(ram.log) + [Stored(HeadOf(p), Tag(Head(s, was.pinuse, true)))]
        + [Stored(HeadOf(p + s), Tag(next.(pinuse := true)))]
    {
      hide Mirrored;
      SetHead(p, Head(s, was.pinuse, true));
      SetHead(p + s, next.(pinuse := true));
    }

    /** set_free_with_pinuse of chunk q, which n comes after. */
    method SetFree(q: int, psize: int, n: int)
      requires Mirrored() && n in head
      modifies `head, `foot, ram
      ensures Mirrored() && head == old(head)[n := old(head)[n].(pinuse := false)][q := Head(psize, true, false)]
        && foot == old(foot)[n := psize]
      ensures ram.log ==
        old(ram.log) + [Stored(HeadOf(n), Tag(old(head)[n].(pinuse := false)))]
        + [Stored(HeadOf(q), Tag(Head(psize, true, false)))] + [Stored(FootOf(n), Number(psize))]
    {
      hide Mirrored;
      SetHead(n, head[n].(pinuse := false));
      SetHead(q, Head(psize, true, false));
      SetFoot(n, psize);
    }

    /** init_top, for a chunk that is aligned. */
    method InitTop(p: int, psize: int)
      requires Mirrored()
      modifies `head, `top, `topsize, ram
      ensures Mirrored() && top == p && topsize == psize
      ensures head == old(head)[p := Head(psize, true, false)][p + psize := Head(TOP_FOOT_SIZE, false, false)]
      ensures ram.log ==
        old(ram.log) + [Stored(HeadOf(p), Tag(Head(psize, true, false)))]
        + [Stored(HeadOf(p + psize), Tag(Head(TOP_FOOT_SIZE, false, false)))]
    {
      hide Mirrored;
      top := p;
      topsize := psize;
      SetHead(p, Head(psize, true, false));
      SetHead(p + psize, Head(TOP_FOOT_SIZE, false, false));
    }

    /** init_top in a new space: everything else is in place. */
    method FirstTop(psize: int, ghost l0: seq<Event>)
      requires Mirrored() && bins.base == base && bins.Valid() && bins.binned == map[] && 0 < base && base % 8 == 0
        && 8 <= psize
        && psize % 8 == 0
      requires dv == 0 && dvsize == 0 && leastAddr == base && foot == map[] && records == map[]
        && head == map[base := Head(STATE_CHUNK, true, true)]
      requires var size := STATE_CHUNK + psize + TOP_FOOT_SIZE;
        && base + size <= SIZE_T_RANGE && seg == Segment(base, size, 0)
        && regions == [Region(base, size, base + STATE_CHUNK + psize)] && heap == InitialHeap(base, psize)
      requires |l0| == 2 && l0[1].Stored? && l0[1].w == HeadOf(base) && LinksIn(base, l0, ram.log, map[])
        && StateWritten(base, l0, ram.log, 32)
      modifies `head, `top, `topsize, ram
      ensures Valid()
    {
      hide SpaceOk, SmallOk, TreeBins.TreeOk, LinksIn, StateWritten, Legible, LaidOut, InitialLog, InitialHeap,
        Mirrored;
      ghost var l1 := ram.log;
      InitTop(base + STATE_CHUNK, psize);
      InitialFacts(base, psize);
      InitialSpace(base, psize, head, foot, regions, seg, records);
      SpaceLaidOut(heap, head, foot, base, leastAddr, regions, seg, records, dv, {}, bins.binned);
      InitialLogged(base, psize, l0, l1, ram.log, Tag(Head(psize, true, false)),
        Tag(Head(TOP_FOOT_SIZE, false, false)));
      InitialLegible(base, psize, regions, l0, l1, ram.log);
    }

    /** *ss = r. */
    method SetRecord(ss: int, r: Segment)
      requires Mirrored()
      modifies `records, ram
      ensures Mirrored() && records == old(records)[ss := r]
        && ram.log == old(ram.log) + [Stored(RecordOf(ss), Record(r))]
    {
      hide TagsTold, Told, LinksTold;
      TagTold(ram.log, head, foot, records, RecordOf(ss), Record(r));
      LinksStay(ram.log, Stored(RecordOf(ss), Record(r)), bins.TreeWords());
      records := records[ss := r];
      ram.Store(RecordOf(ss), Record(r));
    }

    /** A store that is the client's, or made for it. */
    method FillIn(lo: int, n: nat, byte: int -> int)
      requires Mirrored()
      modifies ram
      ensures Mirrored() && ram.log == old(ram.log) + [Filled(lo, n, byte)]
    {
      hide TagsTold, Told, LinksTold;
      ToldMore(ram.log, Filled(lo, n, byte));
      LinksStay(ram.log, Filled(lo, n, byte), bins.TreeWords());
      ram.Fill(lo, n, byte);
    }

    /** What the head word at p says, whoever stored it. */
    method ReadWord(p: int) returns (h: Head)
    {
      h := ReadHead(NumberAt(Data(), p + W, W));
    }

    /** The space once a stretch is retiled and its words are stored. */
    lemma Retiled(P: Layout, head0: map<int, Head>, l0: seq<Event>, a: int, m: int, n: int, low: Kind, high: Kind,
                  loose: set<int>)
      requires Mirrored() && InOrder(loose) && LaidOut(P) && Legible(P, l0)
      requires MayRetile(P.heap, a, m, n, low, high, head0)
        && Plan() == P.(heap := RetileHeap(P.heap, a, m, n, low, high))
      requires RetileStores(l0, ram.log, a, m, n, IsFooted(P.heap, a, m, n, low, high))
      ensures Core(loose)
      ensures Frame(base, l0, ram.log, Handed(heap)) && OnlyWords(l0, ram.log)
    {
      hide SmallOk, TreeBins.TreeOk, SpaceOk, Legible, LaidOut, RetileStores, MayRetile, Mirrored, RetileHeap, IsFooted,
        Handed, Frame, OnlyWords, StoresInUse, DvOk, TopCached;
      SpaceLaidOut(heap, head, foot, base, leastAddr, regions, seg, records, dv, loose, bins.binned);
      RetileLegible(P, a, m, n, low, high, head0, l0, ram.log);
      StoresSpare(Plan(), l0, ram.log);
    }

    /** set_inuse_and_pinuse: hands out the whole free chunk p. */
    method ClaimWhole(p: int, s: int)
      requires Core({p}) && p in heap.size && p in heap.kind && heap.kind[p].Free? && p != top && p != dv
        && s == heap.size[p]
      modifies `head, `heap, ram
      ensures Core({}) && heap == RetileHeap(old(heap), p, p + s, p + s, Live, Live)
      ensures TagsIn(old(ram.log), ram.log, p, p + s)
    {
      hide SmallOk, TreeBins.TreeOk, SpaceOk, Retile, RetileKinds, Physical, Legible, LaidOut, RetileStores, TagsIn,
        MayRetile, Mirrored;
      ghost var P, head0, l0 := Plan(), head, ram.log;
      SpacePhysical(heap, head, foot, base, leastAddr, regions, seg, records, dv, {p}, bins.binned);
      SpaceLaidOut(heap, head, foot, base, leastAddr, regions, seg, records, dv, {p}, bins.binned);
      WholeClear(heap, head, foot, dv, dvsize, top, topsize, p);
      WholeStep(heap, head, foot, base, leastAddr, regions, seg, records, dv, bins.binned, p);
      CachesKept(heap, p, p + s, p + s, Live, Live, dv, dvsize, top, topsize);
      SetHead(p, Head(s, true, true));
      SetHead(p + s, head[p + s].(pinuse := true));
      heap := RetileHeap(heap, p, p + s, p + s, Live, Live);
      WholeStored(l0, ram.log, p, p + s, ram.log[|l0|], ram.log[|l0| + 1]);
      Retiled(P, head0, l0, p, p + s, p + s, Live, Live, {});
    }

    lemma LowReady(p: int, nb: int, rsize: int)
      requires Core({p}) && p in heap.size && p in heap.kind && heap.kind[p].Free? && p != top && p != dv
      requires heap.size[p] == nb + rsize && MIN_CHUNK_SIZE <= nb && MIN_CHUNK_SIZE <= rsize && nb % 8 == 0
      ensures var r, n := p + nb, p + nb + rsize; var H' := RetileHeap(heap, p, r, n, Live, Free);
        && SpaceOk(H', head[p := Head(nb, true, true)][r := Head(rsize, true, false)], foot[n := rsize],
                   base, leastAddr, regions, seg, records, dv, {r}, bins.binned)
        && DvOk(H', dv, dvsize) && TopCached(H', top, topsize) && InHandFree(H', r, rsize, top, dv)
      ensures MayRetile(heap, p, p + nb, p + nb + rsize, Live, Free, head)
        && IsFooted(heap, p, p + nb, p + nb + rsize, Live, Free)
    {
      hide SmallOk, TreeBins.TreeOk, SpaceOk, Retile, RetileKinds, Physical;
      SpacePhysical(heap, head, foot, base, leastAddr, regions, seg, records, dv, {p}, bins.binned);
      WholeClear(heap, head, foot, dv, dvsize, top, topsize, p);
      LowStep(heap, head, foot, base, leastAddr, regions, seg, records, dv, bins.binned, p, nb);
      CachesKept(heap, p, p + nb, p + nb + rsize, Live, Free, dv, dvsize, top, topsize);
      RetiledHigh(heap, p, p + nb, p + nb + rsize, Live, Free);
    }

    /** set_size_and_pinuse_of_inuse_chunk and set_size_and_pinuse_of_free_chunk: of the low nb bytes of a chunk and of
        its remainder.  When dv is split the remainder's words come first. */
    method TagLow(p: int, nb: int, rsize: int, restFirst: bool)
      requires Mirrored() && MIN_CHUNK_SIZE <= nb && 0 < rsize
      modifies `head, `foot, ram
      ensures Mirrored() && head == old(head)[p := Head(nb, true, true)][p + nb := Head(rsize, true, false)]
        && foot == old(foot)[p + nb + rsize := rsize]
      ensures RetileStores(old(ram.log), ram.log, p, p + nb, p + nb + rsize, true)
        && TagsIn(old(ram.log), ram.log, p, p + nb + rsize)
    {
      hide Mirrored, RetileStores, TagsIn;
      var r := p + nb;
      ghost var head0, l0 := head, ram.log;
      if restFirst {
        SetHead(r, Head(rsize, true, false));
        SetFoot(r + rsize, rsize);
        SetHead(p, Head(nb, true, true));
        assert head == head0[p := Head(nb, true, true)][r := Head(rsize, true, false)];
      } else {
        SetHead(p, Head(nb, true, true));
        SetHead(r, Head(rsize, true, false));
        SetFoot(r + rsize, rsize);
      }
      LowStored(l0, ram.log, p, r, r + rsize, ram.log[|l0|], ram.log[|l0| + 1], ram.log[|l0| + 2]);
    }

    /** Hands out the first nb bytes of the free chunk p. */
    method ClaimLow(p: int, nb: int, rsize: int, restFirst: bool) returns (r: int)
      requires Core({p}) && p in heap.size && p in heap.kind && heap.kind[p].Free? && p != top && p != dv
      requires heap.size[p] == nb + rsize && MIN_CHUNK_SIZE <= nb && MIN_CHUNK_SIZE <= rsize && nb % 8 == 0
      modifies `head, `foot, `heap, ram
      ensures r == p + nb && Core({r}) && heap == RetileHeap(old(heap), p, r, r + rsize, Live, Free)
      ensures InHandFree(heap, r, rsize, top, dv)
      ensures TagsIn(old(ram.log), ram.log, p, p + nb + rsize)
    {
      hide SmallOk, TreeBins.TreeOk, SpaceOk, RetileHeap, DvOk, TopCached, Legible, LaidOut, RetileStores, TagsIn,
        MayRetile, IsFooted, Mirrored;
      ghost var P, head0, l0 := Plan(), head, ram.log;
      LowReady(p, nb, rsize);
      SpaceLaidOut(heap, head, foot, base, leastAddr, regions, seg, records, dv, {p}, bins.binned);
      r := p + nb;
      TagLow(p, nb, rsize, restFirst);
      heap := RetileHeap(heap, p, p + nb, p + nb + rsize, Live, Free);
      Retiled(P, head0, l0, p, r, r + rsize, Live, Free, {r});
    }

    /** insert_chunk of a free chunk in hand. */
    method BinChunk(r: int, s: int, ghost loose: set<int>)
      requires Core(loose) && r in loose && InHandFree(heap, r, s, top, dv)
      modifies bins, ram
      ensures Core(loose - {r}) && bins.binned == old(bins.binned)[r := s]
      ensures LinksIn(base, old(ram.log), ram.log, bins.binned)
    {
      hide SmallOk, TreeBins.TreeOk, Physical, HeapPlaced, BinnedExactly, SegmentsOk, LinksIn, NodeWritten, Legible,
        LaidOut, LinksTold, Told, TagsTold;
      ghost var P, l0 := Plan(), ram.log;
      SpacePhysical(heap, head, foot, base, leastAddr, regions, seg, records, dv, loose, bins.binned);
      LooseReady(heap, head, foot, base, leastAddr, dv, loose, bins.binned, r);
      PutBinned(heap, dv, loose, bins.binned, r);
      bins.InsertChunk(r, s, head, leastAddr);
      TagsStay(base, l0, ram.log, bins.binned, head, foot, records);
      SpaceLaidOut(heap, head, foot, base, leastAddr, regions, seg, records, dv, loose - {r}, bins.binned);
      InsertLegible(P, bins.binned, r, s, l0, ram.log);
    }

    /** replace_dv: the remainder r becomes dv; the old one goes into its small bin. */
    method ReplaceDv(r: int, s: int)
      requires Core({r}) && InHandFree(heap, r, s, top, dv) && dvsize < 256
      modifies bins, ram, `dv, `dvsize
      ensures Core({}) && dv == r && dvsize == s
      ensures forall x {:trigger old(bins.binned)[x]} ::
        x in old(bins.binned) ==> x in bins.binned && bins.binned[x] == old(bins.binned)[x]
      ensures LinksIn(base, old(ram.log), ram.log, bins.binned)
    {
      hide SmallOk, TreeBins.TreeOk, Physical, HeapPlaced, BinnedExactly, SegmentsOk, LinksIn, Legible, Mirrored;
      SpacePhysical(heap, head, foot, base, leastAddr, regions, seg, records, dv, {r}, bins.binned);
      LooseReady(heap, head, foot, base, leastAddr, dv, {r}, bins.binned, r);
      DvToLoose(heap, dv, {r}, bins.binned);
      NoneStored(base, ram.log, bins.binned);
      if dvsize != 0 {
        var old_dv, dvs := dv, dvsize;
        assert {r} + {old_dv} == {r, old_dv};
        dv := 0;
        dvsize := 0;
        LooseReady(heap, head, foot, base, leastAddr, dv, {r, old_dv}, bins.binned, old_dv);
        BinChunk(old_dv, dvs, {r, old_dv});
        assert {r, old_dv} - {old_dv} == {r};
      }
      LooseToDv(heap, {r}, bins.binned, r);
      assert {r} - {r} == {};
      dvsize := s;
      dv := r;
    }

    /** Serves nb from the designated victim: splits it, or hands all of it out. */
    method TakeDv(nb: int) returns (p: int)
      requires Valid() && MIN_CHUNK_SIZE <= nb <= dvsize && nb % 8 == 0
      modifies `head, `foot, `heap, `dv, `dvsize, ram
      ensures p == old(dv) && dv == if old(dvsize) - nb >= MIN_CHUNK_SIZE then p + nb else 0
      ensures Valid() && heap == Allocated(old(heap), p, nb) && top == old(top)
      ensures TagsIn(old(ram.log), ram.log, p, old(EndOf(heap, dv)))
    {
      hide SmallOk, TreeBins.TreeOk, Physical, HeapPlaced, BinnedExactly, SegmentsOk, RetileHeap, Allocated, Legible,
        Mirrored, TagsIn;
      var rsize := dvsize - nb;
      p := dv;
      SpacePhysical(heap, head, foot, base, leastAddr, regions, seg, records, dv, {}, bins.binned);
      DvToLoose(heap, dv, {}, bins.binned);
      assert {} + {p} == {p};
      if rsize >= MIN_CHUNK_SIZE {
        LowIsAllocated(heap, p, nb);
        dv := 0;
        dvsize := 0;
        var r := ClaimLow(p, nb, rsize, true);
        SpacePhysical(heap, head, foot, base, leastAddr, regions, seg, records, dv, {r}, bins.binned);
        LooseToDv(heap, {r}, bins.binned, r);
        assert {r} - {r} == {};
        dv := r;
        dvsize := rsize;
      } else {
        WholeIsAllocated(heap, p, nb);
        var dvs := dvsize;
        dvsize := 0;
        dv := 0;
        ClaimWhole(p, dvs);
      }
    }

    /** Serves nb from the low end of top. */
    method SplitTop(nb: int) returns (p: int)
      requires Valid() && MIN_CHUNK_SIZE <= nb < topsize && nb % 8 == 0
      modifies `head, `heap, `top, `topsize, ram
      ensures p == old(top)
      ensures Valid() && heap == Allocated(old(heap), p, nb)
      ensures TagsIn(old(ram.log), ram.log, p, old(EndOf(heap, top)))
    {
      hide SmallOk, TreeBins.TreeOk, SpaceOk, Retile, RetileKinds, Physical, Allocated, Legible, LaidOut, RetileStores,
        TagsIn, MayRetile, Mirrored, DvOk, TopCached, RetileHeap;
      ghost var P, head0, l0 := Plan(), head, ram.log;
      TopNamed(heap, top, topsize);
      LowIsAllocated(heap, top, nb);
      TopStep(heap, head, foot, base, leastAddr, regions, seg, records, dv, {}, bins.binned, nb);
      SpacePhysical(heap, head, foot, base, leastAddr, regions, seg, records, dv, {}, bins.binned);
      SpaceLaidOut(heap, head, foot, base, leastAddr, regions, seg, records, dv, {}, bins.binned);
      TopCaches(heap, head, foot, dv, dvsize, nb);
      topsize := topsize - nb;
      var rsize := topsize;
      p := top;
      top := p + nb;
      SetHead(top, Head(rsize, true, false));
      SetHead(p, Head(nb, true, true));
      heap := RetileHeap(heap, p, p + nb, p + nb + rsize, Live, Free);
      TopStored(l0, ram.log, p, top, top + rsize, ram.log[|l0|], ram.log[|l0| + 1]);
      Retiled(P, head0, l0, p, top, top + rsize, Live, Free, {});
    }

    /** unlink_first_small_chunk of a marked bin: its first chunk is in hand. */
    method TakeSmall(i: nat) returns (p: int)
      requires Valid() && i < 32 && Has(bins.smallmap, i)
      modifies bins, ram
      ensures BinnedAs(old(bins.binned), p, 8 * i)
      ensures Core({p}) && InHandFree(heap, p, 8 * i, top, dv) && bins.binned == old(bins.binned) - {p}
      ensures LinksIn(base, old(ram.log), ram.log, old(bins.binned))
    {
      hide SmallOk, TreeBins.TreeOk, Physical, HeapPlaced, BinnedExactly, SegmentsOk, Has, LinksIn, Legible, LaidOut,
        LinksTold, Told, TagsTold;
      ghost var P, l0 := Plan(), ram.log;
      SpacePhysical(heap, head, foot, base, leastAddr, regions, seg, records, dv, {}, bins.binned);
      SpaceLaidOut(heap, head, foot, base, leastAddr, regions, seg, records, dv, {}, bins.binned);
      p := bins.UnlinkFirstSmallChunk(i, leastAddr);
      Taken(heap, head, foot, base, leastAddr, dv, old(bins.binned), p);
      TagsStay(base, l0, ram.log, P.binned, head, foot, records);
      UnlinkLegible(P, bins.binned, l0, ram.log);
    }

    /** unlink_large_chunk: chunk v is in hand. */
    method TakeLarge(v: int)
      requires Valid() && v in bins.binned && 256 <= bins.binned[v]
      modifies bins, ram
      ensures Core({v}) && InHandFree(heap, v, old(bins.binned)[v], top, dv) && bins.binned == old(bins.binned) - {v}
      ensures LinksIn(base, old(ram.log), ram.log, old(bins.binned))
    {
      hide SmallOk, TreeBins.TreeOk, Physical, HeapPlaced, BinnedExactly, SegmentsOk, LinksIn, Legible, LaidOut,
        LinksTold, Told, TagsTold;
      ghost var P, l0 := Plan(), ram.log;
      SpacePhysical(heap, head, foot, base, leastAddr, regions, seg, records, dv, {}, bins.binned);
      SpaceLaidOut(heap, head, foot, base, leastAddr, regions, seg, records, dv, {}, bins.binned);
      bins.UnlinkLargeChunk(v, leastAddr);
      Taken(heap, head, foot, base, leastAddr, dv, old(bins.binned), v);
      TagsStay(base, l0, ram.log, P.binned, head, foot, records);
      UnlinkLegible(P, bins.binned, l0, ram.log);
    }

    /** A small bin whose chunks leave less than a chunk over: all of its first chunk. */
    method ExactSmall(i: nat, nb: int) returns (p: int)
      requires Valid() && i < 32 && Has(bins.smallmap, i) && nb <= 8 * i < nb + MIN_CHUNK_SIZE
      modifies `head, `heap, bins, ram
      ensures BinnedAs(old(bins.binned), p, 8 * i)
      ensures Valid() && heap == Allocated(old(heap), p, nb)
      ensures StoresIn(base, old(ram.log), ram.log, p, EndOf(old(heap), p), old(bins.binned), bins.binned)
    {
      hide SmallOk, TreeBins.TreeOk, SpaceOk, RetileHeap, Allocated, Has, TagsIn, LinksIn, StoresIn, Legible, Mirrored;
      ghost var H, b0, l0 := heap, bins.binned, ram.log;
      p := TakeSmall(i);
      ghost var l1 := ram.log;
      WholeIsAllocated(heap, p, nb);
      ClaimWhole(p, 8 * i);
      TakenThenTags(base, l0, l1, ram.log, p, EndOf(H, p), b0, bins.binned);
    }

    /** The next non-empty small bin: the low end of its first chunk; the rest becomes dv. */
    method NextSmall(i: nat, nb: int) returns (p: int)
      requires Valid() && i < 32 && Has(bins.smallmap, i) && MIN_CHUNK_SIZE <= nb <= 8 * i && nb % 8 == 0 && dvsize < nb
      requires W == 4 ==> MIN_CHUNK_SIZE <= 8 * i - nb
      modifies `head, `foot, `heap, `dv, `dvsize, bins, ram
      ensures BinnedAs(old(bins.binned), p, 8 * i)
      ensures dv == if 8 * i - nb >= MIN_CHUNK_SIZE then p + nb else old(dv)
      ensures Valid() && heap == Allocated(old(heap), p, nb)
      ensures StoresIn(base, old(ram.log), ram.log, p, EndOf(old(heap), p), old(bins.binned), bins.binned)
    {
      hide SmallOk, TreeBins.TreeOk, SpaceOk, RetileHeap, Allocated, Has, TagsIn, LinksIn, StoresIn, Legible, Mirrored;
      ghost var H, b0, l0 := heap, bins.binned, ram.log;
      p := TakeSmall(i);
      ghost var l1 := ram.log;
      var rsize := 8 * i - nb;
      if W != 4 && rsize < MIN_CHUNK_SIZE {
        WholeIsAllocated(heap, p, nb);
        ClaimWhole(p, 8 * i);
        TakenThenTags(base, l0, l1, ram.log, p, EndOf(H, p), b0, bins.binned);
      } else {
        LowIsAllocated(heap, p, nb);
        var r := ClaimLow(p, nb, rsize, false);
        ghost var l2 := ram.log;
        ReplaceDv(r, rsize);
        TakenTagsLinks(base, l0, l1, l2, ram.log, p, EndOf(H, p), b0, bins.binned);
      }
    }

    /** tmalloc_small: the smallest tree chunk; the rest becomes dv. */
    method TmallocSmall(nb: int) returns (p: int)
      requires Valid() && bins.treemap != 0 && MIN_CHUNK_SIZE <= nb < 256 && nb % 8 == 0 && dvsize < nb
      modifies `head, `foot, `heap, `dv, `dvsize, bins, ram
      ensures SmallestBinned(old(bins.binned), p, 256)
      ensures RestIsDv(old(bins.binned), p, nb, old(dv), dv)
      ensures Valid() && heap == Allocated(old(heap), p, nb)
      ensures StoresIn(base, old(ram.log), ram.log, p, EndOf(old(heap), p), old(bins.binned), bins.binned)
    {
      hide SmallOk, TreeBins.TreeOk, RetileHeap, Allocated, Physical, HeapPlaced, BinnedExactly, SegmentsOk, TagsIn,
        LinksIn, StoresIn, Legible, Mirrored;
      SpacePhysical(heap, head, foot, base, leastAddr, regions, seg, records, dv, {}, bins.binned);
      var v, rsize := bins.SearchSmall(nb, head);
      ghost var H, b0, l0 := heap, bins.binned, ram.log;
      if v >= leastAddr {
        var r := v + nb;
        if v < r {
          TakeLarge(v);
          ghost var l1 := ram.log;
          if rsize < MIN_CHUNK_SIZE {
            WholeIsAllocated(heap, v, nb);
            ClaimWhole(v, rsize + nb);
            TakenThenTags(base, l0, l1, ram.log, v, EndOf(H, v), b0, bins.binned);
          } else {
            LowIsAllocated(heap, v, nb);
            r := ClaimLow(v, nb, rsize, false);
            ghost var l2 := ram.log;
            ReplaceDv(r, rsize);
            TakenTagsLinks(base, l0, l1, l2, ram.log, v, EndOf(H, v), b0, bins.binned);
          }
        } else {
          assert false; // CORRUPTION_ERROR_ACTION
        }
      } else {
        assert false; // CORRUPTION_ERROR_ACTION
      }
      p := v;
    }

    /** tmalloc_large: the best fitting tree chunk, or null when there is none or dv fits as well. */
    method TmallocLarge(nb: int) returns (p: int)
      requires Valid() && LargeSizeOf(nb) && nb % 8 == 0
      modifies `head, `foot, `heap, bins, ram
      ensures p == 0 ==>
        unchanged(this) && unchanged(bins) && unchanged(ram) && (nb <= dvsize || NoneBinned(bins.binned, nb))
      ensures p == 0 ==> NoneBetween(bins.binned, nb, dvsize)
      ensures p != 0 ==>
        SmallestBinned(old(bins.binned), p, nb) && (nb <= dvsize ==> !NoneBetween(old(bins.binned), nb, dvsize))
      ensures p != 0 ==> heap == Allocated(old(heap), p, nb)
      ensures p != 0 ==>
        StoresIn(base, old(ram.log), ram.log, p, EndOf(old(heap), p), old(bins.binned), bins.binned)
      ensures Valid()
    {
      hide SmallOk, TreeBins.TreeOk, RetileHeap, Allocated, Physical, HeapPlaced, BinnedExactly, SegmentsOk, TagsIn,
        LinksIn, StoresIn, Legible, Mirrored;
      SpacePhysical(heap, head, foot, base, leastAddr, regions, seg, records, dv, {}, bins.binned);
      DvBound(heap, base, leastAddr, dv, dvsize);
      var v, rsize := bins.SearchLarge(nb, head);
      TremMeans(dvsize, nb);
      p := 0;
      ghost var H, b0, l0 := heap, bins.binned, ram.log;
      if v != 0 && rsize < (dvsize - nb) % SIZE_T_RANGE {
        if v >= leastAddr {
          var r := v + nb;
          if v < r {
            TakeLarge(v);
            ghost var l1 := ram.log;
            if rsize < MIN_CHUNK_SIZE {
              WholeIsAllocated(heap, v, nb);
              ClaimWhole(v, rsize + nb);
              TakenThenTags(base, l0, l1, ram.log, v, EndOf(H, v), b0, bins.binned);
            } else {
              LowIsAllocated(heap, v, nb);
              r := ClaimLow(v, nb, rsize, false);
              ghost var l2 := ram.log;
              BinChunk(r, rsize, {r});
              assert {r} - {r} == {};
              TakenTagsLinks(base, l0, l1, l2, ram.log, v, EndOf(H, v), b0, bins.binned);
            }
          } else {
            assert false; // CORRUPTION_ERROR_ACTION
          }
        } else {
          assert false; // CORRUPTION_ERROR_ACTION
        }
        p := v;
      }
    }

    /** The small-request half of mspace_malloc: exact bin, next bin, or the smallest tree chunk. */
    method SmallFit(nb: int) returns (p: int)
      requires Valid() && MIN_CHUNK_SIZE <= nb < 256 && nb % 8 == 0
      modifies `head, `foot, `heap, `dv, `dvsize, bins, ram
      ensures p == 0 ==>
        unchanged(this) && unchanged(bins) && unchanged(ram) && NoneNearBinned(bins.binned, nb)
        && (nb <= dvsize || NoneBinned(bins.binned, nb))
      ensures p != 0 ==> SmallestBinned(old(bins.binned), p, nb) && heap == Allocated(old(heap), p, nb)
      ensures p != 0 ==> RestIsDv(old(bins.binned), p, nb, old(dv), dv)
      ensures p != 0 && nb <= old(dvsize) ==> NearBinned(old(bins.binned), p, nb)
      ensures p != 0 ==>
        StoresIn(base, old(ram.log), ram.log, p, EndOf(old(heap), p), old(bins.binned), bins.binned)
      ensures Valid()
    {
      hide SpaceOk, RetileHeap, Allocated, SmallOk, TreeBins.TreeOk, Has, And, Not, Shr, Shl, Bit, LeastBit, LeftBits,
        DvOk, TopCached, StoresIn, EndOf, Legible, Mirrored;
      SpacePhysical(heap, head, foot, base, leastAddr, regions, seg, records, dv, {}, bins.binned);
      var idx := nb / 8;
      var smallbits := Shr(bins.smallmap, idx);
      ghost var binned := bins.binned;
      p := 0;
      if And(32, smallbits, 3) != 0 {
        bins.SmallBelow(idx, idx + And(32, Not(32, smallbits), 1));
        idx := idx + And(32, Not(32, smallbits), 1);
        p := ExactSmall(idx, nb);
        FirstIsSmallest(binned, p, nb, idx);
      } else if dvsize < nb {
        bins.SmallMissed(idx);
        if smallbits != 0 {
          var i := Bit2Idx(LeastBit(And(32, Shl(32, smallbits, idx), LeftBits(Bit(idx)))));
          bins.SmallNext(idx, i);
          p := NextSmall(i, nb);
          FirstIsSmallest(binned, p, nb, i);
        } else {
          bins.SmallNone(idx);
          if bins.treemap != 0 {
            p := TmallocSmall(nb);
            TreeIsSmallest(binned, p, nb);
          } else {
            bins.NoneLarge();
            NothingFits(binned, nb);
          }
        }
      } else {
        bins.SmallMissed(idx);
      }
    }

    /** mspace_malloc as far as the bins, and the padded size of the request. */
    method ServeBinned(bytes: nat) returns (p: int, nb: nat)
      requires Valid() && bytes < SIZE_T_RANGE
      modifies `head, `foot, `heap, `dv, `dvsize, bins, ram
      ensures Valid()
      ensures nb == if bytes >= MAX_REQUEST then SIZE_T_RANGE - 1 else Request2Size(bytes)
      ensures p == 0 ==> unchanged(this) && unchanged(bins) && unchanged(ram)
      ensures p == 0 && nb <= dvsize ==>
        if bytes > MAX_SMALL_REQUEST then NoneBetween(bins.binned, nb, dvsize) else NoneNearBinned(bins.binned, nb)
      ensures p == 0 && dvsize < nb && bytes < MAX_REQUEST ==> NoneBinned(bins.binned, nb)
      ensures p != 0 ==> bytes < MAX_REQUEST && heap == Allocated(old(heap), p, nb) && !NoneFit(old(heap), nb)
      ensures p != 0 ==>
        Chosen(old(heap), old(dv), nb, bytes > MAX_SMALL_REQUEST, p)
        && DvAfter(old(heap), old(dv), nb, bytes > MAX_SMALL_REQUEST, p, dv)
      ensures p != 0 ==>
        StoresIn(base, old(ram.log), ram.log, p, EndOf(old(heap), p), old(bins.binned), bins.binned)
    {
      hide SpaceOk, RetileHeap, Allocated, SmallOk, TreeBins.TreeOk, DvOk, TopCached, Request2Size, SmallestBinned,
        NoneBinned, NoneBetween, NoneNearBinned, NearBinned, RestIsDv, Fits, NoneFit, Chosen, DvAfter, LargeSizeOf,
        BinnedExactly, HeapPlaced, Physical, StoresIn, EndOf, Legible, Mirrored;
      SpacePhysical(heap, head, foot, base, leastAddr, regions, seg, records, dv, {}, bins.binned);
      SizesBound(heap, head, foot, base, leastAddr, dv, dvsize, top, topsize);
      RequestFacts(bytes);
      ghost var H, dv0, dvsize0, binned := heap, dv, dvsize, bins.binned;
      p := 0;
      if bytes <= MAX_SMALL_REQUEST {
        nb := Request2Size(bytes);
        p := SmallFit(nb);
      } else if bytes >= MAX_REQUEST {
        nb := SIZE_T_RANGE - 1;
      } else {
        nb := PadRequest(bytes);
        if bins.treemap != 0 {
          p := TmallocLarge(nb);
        } else {
          bins.NoneLarge();
          NoneBelow(binned, 256, nb);
          NoneIsBetween(binned, nb, dvsize);
        }
      }
      if p != 0 {
        DvAfterBinned(H, dv0, binned, p, nb, bytes > MAX_SMALL_REQUEST, dv);
        ChosenBinned(H, dv0, dvsize0, binned, p, nb, bytes > MAX_SMALL_REQUEST);
      }
    }

    /** mspace_malloc, its stores told by kind. */
    method Serve(bytes: nat) returns (mem: int)
      requires Valid() && bytes < SIZE_T_RANGE
      modifies `head, `foot, `heap, `dv, `dvsize, `top, `topsize, bins, ram
      ensures Valid()
      ensures mem == 0 <==>
        bytes >= MAX_REQUEST || (NoneFit(old(heap), Request2Size(bytes)) && old(topsize) <= Request2Size(bytes))
      ensures mem == 0 ==> unchanged(this) && unchanged(bins) && unchanged(ram)
      ensures mem != 0 ==>
        heap == Allocated(old(heap), Mem2Chunk(mem), Request2Size(bytes))
        && Served(old(heap), heap, Mem2Chunk(mem), bytes)
      ensures mem != 0 ==> Chosen(old(heap), old(dv), Request2Size(bytes), bytes > MAX_SMALL_REQUEST, Mem2Chunk(mem))
      ensures mem != 0 ==>
        DvAfter(old(heap), old(dv), Request2Size(bytes), bytes > MAX_SMALL_REQUEST, Mem2Chunk(mem), dv)
      ensures mem != 0 ==>
        StoresIn(base, old(ram.log), ram.log, Mem2Chunk(mem), EndOf(old(heap), Mem2Chunk(mem)), old(bins.binned),
        bins.binned)
    {
      hide SpaceOk, RetileHeap, Allocated, SmallOk, TreeBins.TreeOk, DvOk, TopCached, Request2Size, NoneBinned,
        NoneBetween, NoneNearBinned, Fits, NoneFit, Chosen, DvAfter, BinnedExactly, HeapPlaced, Physical, TagsIn,
        StoresIn, EndOf, Legible, Mirrored;
      SpacePhysical(heap, head, foot, base, leastAddr, regions, seg, records, dv, {}, bins.binned);
      SizesBound(heap, head, foot, base, leastAddr, dv, dvsize, top, topsize);
      RequestFacts(bytes);
      ghost var H, dv0, dvsize0, binned, l0 := heap, dv, dvsize, bins.binned, ram.log;
      ghost var large := bytes > MAX_SMALL_REQUEST;
      var p, nb := ServeBinned(bytes);
      if p == 0 {
        if nb <= dvsize {
          ChosenDv(H, dv0, dvsize0, binned, nb, large);
          CachesNamed(heap, dv, dvsize, top, topsize);
          p := TakeDv(nb);
          DvAfterDv(H, dv0, dvsize0, nb, large, dv);
          TagsAreStores(base, l0, ram.log, p, EndOf(H, p), binned, bins.binned);
        } else {
          if bytes < MAX_REQUEST { ChosenNone(H, dv0, dvsize0, binned, nb); }
          if nb < topsize {
            ChosenTop(H, dv0, nb, large, top, topsize);
            CachesNamed(heap, dv, dvsize, top, topsize);
            DvAfterTop(H, dv0, nb, large, top, topsize);
            p := SplitTop(nb);
            TagsAreStores(base, l0, ram.log, p, EndOf(H, p), binned, bins.binned);
          } else {
            mem := 0;
            return;
          }
        }
      }
      ChosenIsChunk(H, base, leastAddr, dv0, nb, large, p);
      AllocatedServes(H, old(head), old(foot), dv0, bytes, large, p);
      mem := Chunk2Mem(p);
    }

    lemma MallocFrame(P: Layout, l0: seq<Event>, head0: map<int, Head>, foot0: map<int, int>, dv0: int, p: int, nb: int,
                      large: bool)
      requires Valid() && LaidOut(P) && P.base == base && Physical(P.heap, head0, foot0)
      requires Chosen(P.heap, dv0, nb, large, p) && Inside(Handed(P.heap), Handed(heap))
      requires StoresIn(base, l0, ram.log, p, EndOf(P.heap, p), P.binned, bins.binned)
      ensures Frame(base, l0, ram.log, Handed(P.heap)) && OnlyWords(l0, ram.log)
    {
      hide SmallOk, TreeBins.TreeOk, Physical, HeapPlaced, BinnedExactly, SegmentsOk, DvOk, TopCached, StoresIn,
        Spared, Inside, Handed, Frame, EndOf, SmallestFit, LaidOut, Legible, Mirrored, OnlyWords;
      SpaceLaidOut(heap, head, foot, base, leastAddr, regions, seg, records, dv, {}, bins.binned);
      TopFacts(P.heap, head0, foot0);
      ChunkSpared(P.heap, head0, foot0, p);
      SameInside(Handed(P.heap));
      OpFrame(P, Plan(), l0, ram.log, Handed(P.heap), p, EndOf(P.heap, p));
    }

    /** mspace_malloc. */
    method MspaceMalloc(bytes: nat) returns (mem: int)
      requires Valid() && bytes < SIZE_T_RANGE
      modifies `head, `foot, `heap, `dv, `dvsize, `top, `topsize, bins, ram
      ensures Valid()
      ensures mem == 0 <==>
        bytes >= MAX_REQUEST || (NoneFit(old(heap), Request2Size(bytes)) && old(topsize) <= Request2Size(bytes))
      ensures mem == 0 ==> unchanged(this) && unchanged(bins) && unchanged(ram)
      ensures mem != 0 ==>
        heap == Allocated(old(heap), Mem2Chunk(mem), Request2Size(bytes))
        && Served(old(heap), heap, Mem2Chunk(mem), bytes)
      ensures mem != 0 ==> Chosen(old(heap), old(dv), Request2Size(bytes), bytes > MAX_SMALL_REQUEST, Mem2Chunk(mem))
      ensures mem != 0 ==>
        DvAfter(old(heap), old(dv), Request2Size(bytes), bytes > MAX_SMALL_REQUEST, Mem2Chunk(mem), dv)
      ensures Frame(base, old(ram.log), ram.log, old(Handed(heap))) && OnlyWords(old(ram.log), ram.log)
    {
      hide SpaceOk, SmallOk, TreeBins.TreeOk, Allocated, NoneFit, Chosen, DvAfter, Request2Size, Handed, StoresIn,
        Frame, Physical, HeapPlaced, BinnedExactly, DvOk, TopCached, Legible, Mirrored, LaidOut, OnlyWords;
      SpacePhysical(heap, head, foot, base, leastAddr, regions, seg, records, dv, {}, bins.binned);
      SpaceLaidOut(heap, head, foot, base, leastAddr, regions, seg, records, dv, {}, bins.binned);
      ghost var P, l0, head0, foot0, dv0 := Plan(), ram.log, head, foot, dv;
      mem := Serve(bytes);
      if mem != 0 {
        MoreInside(Handed(P.heap), Mem2Chunk(mem), Handed(heap)[Mem2Chunk(mem)]);
        MallocFrame(P, l0, head0, foot0, dv0, Mem2Chunk(mem), Request2Size(bytes), bytes > MAX_SMALL_REQUEST);
      } else {
        NothingStored(base, l0, Handed(P.heap));
      }
    }

    /** A run of free chunks around the live chunk p, with what is free of it in hand or dv or top. */
    ghost predicate RunInHand(a: int, p: int, q: int, n: int, loose: set<int>)
      reads this, bins, ram
    {
      && (a < p ==> a !in bins.binned) && (q < n && q != top ==> q !in bins.binned) && loose <= {a, q}
         && (q in loose ==> q < n)
      && FullRun(heap, head, a, p, q, n) && Core(loose)
    }

    lemma MergeReady(a: int, p: int, q: int, n: int, loose: set<int>)
      requires RunInHand(a, p, q, n, loose)
      ensures n in head && 0 < a < n && MIN_CHUNK_SIZE <= n - a && a != top && (q == top ==> n == top + topsize)
        && RetileHeap(heap, a, n, n, Free, Free) == Freed(heap, p)
      ensures var H' := RetileHeap(heap, a, n, n, Free, Free); var dv' := MergedDv(top, dv, a, q);
        && SpaceOk(H', MergedHead(head, a, n), if q == top then foot
           else foot[n := n - a], base, leastAddr, regions, seg, records,
                   dv', MergedHand(top, dv, a, q), bins.binned)
        && DvOk(H', dv', if dv' == 0 then 0 else if dv' == a then n - a else dvsize)
        && TopCached(H', if q == top then a else top, if q == top then n - a else topsize)
        && IsFree(H', a) && EndOf(H', a) == n
      ensures MayRetile(heap, a, n, n, Free, Free, head) && (a <= top < n <==> q == top) && a <= p < q <= n
      ensures q < n ==> MergedHead(head, a, n) == head[a := Head(n - a, true, false)]
    {
      hide Physical, HeapPlaced, SegmentsOk, BinnedExactly, RunFacts, SmallOk, TreeBins.TreeOk, Retile, RetileKinds,
        MergedHead, MergedDv, MergedHand;
      SpacePhysical(heap, head, foot, base, leastAddr, regions, seg, records, dv, loose, bins.binned);
      RunIsKnown(heap, head, foot, a, p, q, n);
      RunIsFreed(heap, head, foot, a, p, q, n);
      RunEnd(heap, head, base, leastAddr, a, p, q, n);
      RunPlaced(heap, head, base, leastAddr, a, p, q, n);
      RunAround(heap, head, foot, a, p, q, n);
      LiveNotDv(heap, dv, dvsize, p);
      MergeStep(heap, head, foot, base, leastAddr, regions, seg, records, dv, loose, bins.binned, a, p, q, n);
      MergeCaches(heap, head, a, p, q, n, dv, dvsize, top, topsize);
      if q < n { MergedHeadShort(head, a, n); }
    }

    /** mspace_free, case of top after the run: the run joins it.  c is the chunk given back, p the start of its run. */
    method FreeIntoTop(p: int, psize: int, ghost c: int, ghost loose: set<int>)
      requires RunInHand(p, c, top, p + psize + topsize, loose) && top == p + psize && 0 < topsize
      modifies `head, `heap, `dv, `dvsize, `top, `topsize, ram
      ensures Valid() && heap == Freed(old(heap), c) && 0 < p <= c < EndOf(heap, p)
      ensures top == p && dv == if old(dv) == p then 0 else old(dv)
      ensures IsFree(heap, p) && TagsIn(old(ram.log), ram.log, p, EndOf(heap, p))
    {
      hide SpaceOk, SmallOk, TreeBins.TreeOk, Retile, RetileKinds, FullRun, Freed, MergedHead, RetileHeap, Legible,
        LaidOut, RetileStores, TagsIn, MayRetile, Mirrored;
      ghost var P, head0, l0, n := Plan(), head, ram.log, p + psize + topsize;
      MergeReady(p, c, top, n, loose);
      SpaceLaidOut(heap, head, foot, base, leastAddr, regions, seg, records, dv, loose, bins.binned);
      heap := RetileHeap(heap, p, n, n, Free, Free);
      var tsize := topsize + psize;
      topsize := tsize;
      top := p;
      SetHead(p, Head(tsize, true, false));
      if p == dv {
        dv := 0;
        dvsize := 0;
      }
      MergedStored(l0, ram.log, p, n, ram.log[|l0|]);
      Retiled(P, head0, l0, p, n, n, Free, Free, {});
    }

    /** mspace_free, case of dv after the run: the run joins it. */
    method FreeIntoDv(p: int, psize: int, ghost c: int, ghost loose: set<int>)
      requires RunInHand(p, c, dv, p + psize + dvsize, loose) && dv == p + psize && 0 < dvsize && dv != top
      modifies `head, `foot, `heap, `dv, `dvsize, ram
      ensures Valid() && heap == Freed(old(heap), c) && 0 < p <= c < EndOf(heap, p)
      ensures dv == p <= old(dv) < EndOf(heap, p)
      ensures IsFree(heap, p) && TagsIn(old(ram.log), ram.log, p, EndOf(heap, p))
    {
      hide SpaceOk, SmallOk, TreeBins.TreeOk, Retile, RetileKinds, FullRun, Freed, MergedHead, RetileHeap, Legible,
        LaidOut, RetileStores, TagsIn, MayRetile, Mirrored;
      ghost var P, head0, l0, n := Plan(), head, ram.log, p + psize + dvsize;
      MergeReady(p, c, dv, n, loose);
      SpaceLaidOut(heap, head, foot, base, leastAddr, regions, seg, records, dv, loose, bins.binned);
      heap := RetileHeap(heap, p, n, n, Free, Free);
      var dsize := dvsize + psize;
      dvsize := dsize;
      dv := p;
      SetHead(p, Head(dsize, true, false));
      SetFoot(p + dsize, dsize);
      FreedStored(l0, ram.log, p, n, ram.log[|l0|], ram.log[|l0| + 1]);
      Retiled(P, head0, l0, p, n, n, Free, Free, {});
    }

    /** The merged run when neither top nor dv comes after it. */
    lemma MergeApart(p: int, c: int, q: int, next: int, loose: set<int>)
      requires RunInHand(p, c, q, next, loose) && q != top && q != dv
      ensures next in head && 0 < p <= c < next && p + W <= next && q <= next && p != top
        && RetileHeap(heap, p, next, next, Free, Free) == Freed(heap, c)
        && (q < next ==> MergedHead(head, p, next) == head[p := Head(next - p, true, false)])
        && MayRetile(heap, p, next, next, Free, Free, head) && IsFooted(heap, p, next, next, Free, Free)
      ensures var H' := Freed(heap, c);
        && IsFree(H', p) && EndOf(H', p) == next && TopCached(H', top, topsize)
        && DvOk(H', dv, if p == dv then next - p else dvsize)
        && SpaceOk(H', MergedHead(head, p, next), foot[next := next - p], base, leastAddr, regions, seg, records, dv,
           if p == dv then {} else {p}, bins.binned)
    {
      hide SpaceOk, SmallOk, TreeBins.TreeOk, FullRun, Freed, MergedHead, RetileHeap, Legible, MayRetile, Mirrored,
        TopCached;
      TopNamed(heap, top, topsize);
      MergeReady(p, c, q, next, loose);
    }

    /** The tags of a run that stays apart: set_free_with_pinuse, or without clear_pinuse after a free chunk. */
    method TagRun(p: int, psize: int, next: int, clear: bool, ghost c: int, ghost q: int, ghost loose: set<int>)
      requires RunInHand(p, c, q, next, loose) && next == p + psize && q != top && q != dv && (clear <==> q == next)
      modifies `head, `foot, `heap, `dvsize, ram
      ensures Core(if p == dv then {} else {p}) && heap == Freed(old(heap), c) && dv == old(dv)
      ensures dvsize == if p == dv then psize else old(dvsize)
      ensures 0 < p <= c < next && p != top && IsFree(heap, p) && EndOf(heap, p) == next
        && TagsIn(old(ram.log), ram.log, p, next)
    {
      hide SpaceOk, SmallOk, TreeBins.TreeOk, FullRun, Freed, RetileHeap, Legible, LaidOut, RetileStores, TagsIn,
        MayRetile, Mirrored, DvOk, TopCached, MergedHead, IsFooted;
      ghost var P, head0, l0 := Plan(), head, ram.log;
      MergeApart(p, c, q, next, loose);
      SpaceLaidOut(heap, head, foot, base, leastAddr, regions, seg, records, dv, loose, bins.binned);
      heap := RetileHeap(heap, p, next, next, Free, Free);
      if clear {
        MergedHeadIs(head, p, next);
        SetFree(p, psize, next);
        ClearedStored(l0, ram.log, p, next, ram.log[|l0|], ram.log[|l0| + 1], ram.log[|l0| + 2]);
      } else {
        SetHead(p, Head(psize, true, false));
        SetFoot(next, psize);
        FreedStored(l0, ram.log, p, next, ram.log[|l0|], ram.log[|l0| + 1]);
      }
      if p == dv { dvsize := psize; }
      Retiled(P, head0, l0, p, next, next, Free, Free, if p == dv then {} else {p});
    }

    /** mspace_free, case of a chunk in use after the run: the run becomes dv or is binned. */
    method FreeApart(p: int, psize: int, next: int, clear: bool, ghost c: int, ghost q: int, ghost loose: set<int>)
      requires RunInHand(p, c, q, next, loose) && next == p + psize && q != top && q != dv && (clear <==> q == next)
      modifies `head, `foot, `heap, `dvsize, bins, ram
      ensures Valid() && heap == Freed(old(heap), c) && IsFree(heap, p)
      ensures forall x {:trigger old(bins.binned)[x]} ::
        x in old(bins.binned) ==> x in bins.binned && bins.binned[x] == old(bins.binned)[x]
      ensures StoresIn(base, old(ram.log), ram.log, p, EndOf(heap, p), old(bins.binned), bins.binned)
      ensures 0 < p <= c < EndOf(heap, p)
    {
      hide SpaceOk, SmallOk, TreeBins.TreeOk, FullRun, Freed, Legible, Mirrored, TagsIn, LinksIn, StoresIn,
        RunInHand;
      ghost var l0, b0 := ram.log, bins.binned;
      RunUnbinned(p, c, q, next, loose);
      TagRun(p, psize, next, clear, c, q, loose);
      ghost var l1 := ram.log;
      if p != dv {
        RunReady(p, psize);
        BinChunk(p, psize, {p});
        assert {p} - {p} == {};
        TagsThenLinks(base, l0, l1, ram.log, p, next, b0, bins.binned);
      } else {
        TagsAreStores(base, l0, l1, p, next, b0, bins.binned);
      }
    }

    lemma RunUnbinned(a: int, p: int, q: int, n: int, loose: set<int>)
      requires RunInHand(a, p, q, n, loose)
      ensures a !in bins.binned || a == p
    {
    }

    lemma RunReady(p: int, psize: int)
      requires Core({p}) && IsFree(heap, p) && EndOf(heap, p) == p + psize && p != dv && p != top
      ensures InHandFree(heap, p, psize, top, dv) && p !in bins.binned
    {
      hide SmallOk, TreeBins.TreeOk, Physical, HeapPlaced, SegmentsOk, Legible, Mirrored;
      ChunksPositive(heap, head, foot);
      SpacePhysical(heap, head, foot, base, leastAddr, regions, seg, records, dv, {p}, bins.binned);
    }

    /** unlink_chunk of a free neighbour. */
    method TakeNeighbour(p: int, s: int, ghost loose: set<int>)
      requires Core(loose) && p in bins.binned && bins.binned[p] == s
      modifies bins, ram
      ensures Core(loose + {p}) && bins.binned == old(bins.binned) - {p}
      ensures LinksIn(base, old(ram.log), ram.log, old(bins.binned))
    {
      hide SmallOk, TreeBins.TreeOk, Physical, HeapPlaced, BinnedExactly, SegmentsOk, LinksIn, Legible, LaidOut,
        LinksTold, Told, TagsTold;
      ghost var P, l0 := Plan(), ram.log;
      SpacePhysical(heap, head, foot, base, leastAddr, regions, seg, records, dv, loose, bins.binned);
      SpaceLaidOut(heap, head, foot, base, leastAddr, regions, seg, records, dv, loose, bins.binned);
      TakeBinned(heap, dv, loose, bins.binned, p);
      bins.UnlinkChunk(p, s, leastAddr);
      TagsStay(base, l0, ram.log, P.binned, head, foot, records);
      UnlinkLegible(P, bins.binned, l0, ram.log);
    }

    /** What mspace_free reads around the live chunk c. */
    lemma Around(c: int)
      requires Valid() && IsLive(heap, c)
      ensures leastAddr <= c && c in head && head[c].cinuse && c < c + head[c].size == EndOf(heap, c)
      ensures NextSeen(heap, head, dv, dvsize, top, topsize, bins.binned, EndOf(heap, c))
      ensures !head[c].pinuse ==> PrevSeen(heap, foot, leastAddr, dv, top, bins.binned, c)
      ensures FullRun(heap, head, SeenStart(head, foot, c), c, EndOf(heap, c), SeenStop(head, EndOf(heap, c)))
      ensures dv !in bins.binned && top !in bins.binned
      ensures Handed(Freed(heap, c)) == Handed(heap) - {c}
    {
      hide SmallOk, TreeBins.TreeOk, SpaceOk, Physical, HeapPlaced, BinnedExactly, PrevSeen, NextSeen, DvOk, SeenStart,
        SeenStop, FullRun;
      SpacePhysical(heap, head, foot, base, leastAddr, regions, seg, records, dv, {}, bins.binned);
      NextFound(heap, head, foot, base, leastAddr, dv, dvsize, top, topsize, bins.binned, c);
      PrevFound(heap, head, foot, base, leastAddr, dv, top, bins.binned, c);
      SeenIsFull(heap, head, foot, leastAddr, dv, dvsize, top, topsize, bins.binned, c);
      CachesUnbinned(heap, dv, bins.binned);
      HandedFreed(heap, head, foot, SeenStart(head, foot, c), c, EndOf(heap, c), SeenStop(head, EndOf(heap, c)));
    }

    /** mspace_free of a block, its stores told by kind.  a is the free chunk it is in after. */
    method GiveBack(mem: int) returns (ghost a: int)
      requires Valid() && IsLive(heap, Mem2Chunk(mem))
      modifies `head, `foot, `heap, `dv, `dvsize, `top, `topsize, bins, ram
      ensures Valid() && heap == Freed(old(heap), Mem2Chunk(mem))
        && Handed(heap) == old(Handed(heap)) - {Mem2Chunk(mem)}
      ensures DvMerged(heap, Mem2Chunk(mem), old(dv), dv)
      ensures IsFree(heap, a) && StoresIn(base, old(ram.log), ram.log, a, EndOf(heap, a), old(bins.binned), bins.binned)
    {
      hide SpaceOk, SmallOk, TreeBins.TreeOk, Retile, RetileKinds, Freed, RetileHeap, FullRun, BinnedExactly, Physical,
        HeapPlaced, DvOk, DvMerged, TopCached, LinksIn, StoresIn, TagsIn, Legible, Mirrored;
      var p := Mem2Chunk(mem);
      ghost var c, l0, b, dv0 := p, ram.log, bins.binned, dv;
      Around(c);
      if p >= leastAddr && head[p].cinuse {
        var psize := head[p].size;
        var next := p + psize;
        ghost var loose := {};
        NoneStored(base, l0, b);
        if !head[p].pinuse {
          var prevsize := foot[p];
          var prev := p - prevsize;
          psize := psize + prevsize;
          p := prev;
          if prev >= leastAddr {
            if p != dv {
              TakeNeighbour(p, prevsize, {});
              assert {} + {p} == {p};
              loose := {p};
            } else if head[next].cinuse && head[next].pinuse {
              FreeApart(p, psize, next, true, c, next, {});
              DvSettles(p, c, dv0);
              return p;
            }
          } else {
            assert false; // USAGE_ERROR_ACTION
          }
        }
        ghost var l1, b1 := ram.log, bins.binned;
        if p < next && head[next].pinuse {
          if !head[next].cinuse {
            if next == top {
              FreeIntoTop(p, psize, c, loose);
              TakenThenTags(base, l0, l1, ram.log, p, EndOf(heap, p), b, bins.binned);
            } else if next == dv {
              FreeIntoDv(p, psize, c, loose);
              TakenThenTags(base, l0, l1, ram.log, p, EndOf(heap, p), b, bins.binned);
            } else {
              var nsize := head[next].size;
              TakeNeighbour(next, nsize, loose);
              ghost var l2 := ram.log;
              FreeApart(p, psize + nsize, next + nsize, false, c, next, loose + {next});
              TakenTwoFreed(base, l0, l1, l2, ram.log, p, EndOf(heap, p), b, b1, b1 - {next}, bins.binned);
            }
          } else {
            FreeApart(p, psize, next, true, c, next, loose);
            TakenThenFreed(base, l0, l1, ram.log, p, EndOf(heap, p), b, b1, bins.binned);
          }
        } else {
          assert false; // USAGE_ERROR_ACTION
        }
      } else {
        assert false; // USAGE_ERROR_ACTION
      }
      a := p;
      DvSettles(a, c, dv0);
    }

    lemma DvSettles(a: int, c: int, dv0: int)
      requires Valid() && IsFree(heap, a) && 0 < a <= c < EndOf(heap, a)
      requires dv == dv0 || (dv == a <= dv0 < EndOf(heap, a)) || (dv == 0 && dv0 == a == top)
      ensures DvMerged(heap, c, dv0, dv)
    {
      hide SmallOk, TreeBins.TreeOk, Physical, HeapPlaced, BinnedExactly, SegmentsOk, DvOk, DvMerged, Legible, LaidOut,
        Mirrored;
      SpacePhysical(heap, head, foot, base, leastAddr, regions, seg, records, dv, {}, bins.binned);
      DvIsMerged(heap, head, foot, dv0, dv, dvsize, a, c);
    }

    lemma FreeFrame(P: Layout, l0: seq<Event>, a: int)
      requires Valid() && LaidOut(P) && P.base == base && Inside(Handed(heap), Handed(P.heap)) && IsFree(heap, a)
      requires StoresIn(base, l0, ram.log, a, EndOf(heap, a), P.binned, bins.binned)
      ensures Frame(base, l0, ram.log, Handed(heap)) && OnlyWords(l0, ram.log)
    {
      hide SmallOk, TreeBins.TreeOk, Physical, HeapPlaced, BinnedExactly, SegmentsOk, DvOk, TopCached, StoresIn,
        Spared, Inside, Handed, Frame, EndOf, LaidOut, Legible, Mirrored, OnlyWords;
      SpacePhysical(heap, head, foot, base, leastAddr, regions, seg, records, dv, {}, bins.binned);
      SpaceLaidOut(heap, head, foot, base, leastAddr, regions, seg, records, dv, {}, bins.binned);
      ChunkSpared(heap, head, foot, a);
      SameInside(Handed(heap));
      OpFrame(P, Plan(), l0, ram.log, Handed(heap), a, EndOf(heap, a));
    }

    /** mspace_free. */
    method MspaceFree(mem: int)
      requires Valid() && (mem == 0 || IsLive(heap, Mem2Chunk(mem)))
      modifies `head, `foot, `heap, `dv, `dvsize, `top, `topsize, bins, ram
      ensures Valid()
      ensures heap == if mem == 0 then old(heap) else Freed(old(heap), Mem2Chunk(mem))
      ensures Handed(heap) == if mem == 0 then old(Handed(heap)) else old(Handed(heap)) - {Mem2Chunk(mem)}
      ensures mem == 0 ==> unchanged(this) && unchanged(bins) && unchanged(ram)
      ensures mem != 0 ==> DvMerged(heap, Mem2Chunk(mem), old(dv), dv)
      ensures Frame(base, old(ram.log), ram.log, Handed(heap)) && OnlyWords(old(ram.log), ram.log)
    {
      hide SpaceOk, SmallOk, TreeBins.TreeOk, Freed, Handed, StoresIn, Frame, Physical, HeapPlaced, BinnedExactly, DvOk,
        DvMerged, TopCached, Legible, Mirrored, LaidOut, OnlyWords;
      SpaceLaidOut(heap, head, foot, base, leastAddr, regions, seg, records, dv, {}, bins.binned);
      ghost var P, l0 := Plan(), ram.log;
      if mem != 0 {
        ghost var a := GiveBack(mem);
        LessInside(Handed(P.heap), Mem2Chunk(mem));
        FreeFrame(P, l0, a);
      } else {
        NothingStored(base, l0, Handed(heap));
      }
    }

    // ---- realloc ----

    /** The words at both ends of the live chunk p. */
    lemma LiveWords(p: int)
      requires Valid() && IsLive(heap, p)
      ensures 0 < p && leastAddr <= p && p in head && head[p].cinuse && MIN_CHUNK_SIZE <= head[p].size
        && p + head[p].size == EndOf(heap, p)
      ensures EndOf(heap, p) in head && head[EndOf(heap, p)].pinuse
    {
      hide SmallOk, TreeBins.TreeOk, SpaceOk, Physical, HeapPlaced, BinnedExactly;
      SpacePhysical(heap, head, foot, base, leastAddr, regions, seg, records, dv, {}, bins.binned);
      LiveFacts(heap, head, foot, p);
      PrevFound(heap, head, foot, base, leastAddr, dv, top, bins.binned, p);
    }

    /** The words and the blocks once the live chunk p is cut at p + nb. */
    lemma CutReady(p: int, nb: int)
      requires Valid() && IsLive(heap, p) && MIN_CHUNK_SIZE <= nb && nb % 8 == 0
        && MIN_CHUNK_SIZE <= EndOf(heap, p) - p - nb
      ensures p in head && EndOf(heap, p) in head && head[EndOf(heap, p)].pinuse && p + head[p].size == EndOf(heap, p)
      ensures var r, n := p + nb, EndOf(heap, p); var H' := RetileHeap(heap, p, r, n, Live, Live);
        && SpaceOk(H', CutHead(head, p, r, n), foot, base, leastAddr, regions, seg, records, dv, {}, bins.binned)
        && DvOk(H', dv, dvsize) && TopCached(H', top, topsize) && IsLive(H', p) && IsLive(H', r) && EndOf(H', r) == n
        && Handed(H') == Handed(heap)[p := nb][r := n - r] && r !in Handed(heap)
      ensures MayRetile(heap, p, p + nb, EndOf(heap, p), Live, Live, head) && p + W <= EndOf(heap, p)
    {
      hide SpaceOk, SmallOk, TreeBins.TreeOk, Retile, RetileKinds, Physical, HeapPlaced, BinnedExactly, Handed, CutHead,
        RetileHeap, DvOk;
      SpacePhysical(heap, head, foot, base, leastAddr, regions, seg, records, dv, {}, bins.binned);
      LiveWords(p);
      CutStep(heap, head, foot, base, leastAddr, regions, seg, records, dv, dvsize, bins.binned, p, nb);
      HandedCut(heap, head, foot, p, p + nb);
      CachesKept(heap, p, p + nb, EndOf(heap, p), Live, Live, dv, dvsize, top, topsize);
      RetiledHigh(heap, p, p + nb, EndOf(heap, p), Live, Live);
    }

    lemma LiveBounds(p: int)
      requires Valid() && IsLive(heap, p)
      ensures p % 8 == 0 && EndOf(heap, p) <= SIZE_T_RANGE
    {
      hide SmallOk, TreeBins.TreeOk, SpaceOk, Physical, BinnedExactly, DvOk, TopCached;
      SpacePhysical(heap, head, foot, base, leastAddr, regions, seg, records, dv, {}, bins.binned);
      ChunkAligned(heap, head, foot, p);
    }

    /** set_inuse of the low nb bytes of chunk p, then of the rest. */
    method Cut(p: int, nb: int) returns (r: int)
      requires Valid() && IsLive(heap, p) && MIN_CHUNK_SIZE <= nb && nb % 8 == 0
        && MIN_CHUNK_SIZE <= EndOf(heap, p) - p - nb
      modifies `head, `heap, ram
      ensures r == p + nb && Valid() && heap == RetileHeap(old(heap), p, r, old(EndOf(heap, p)), Live, Live)
        && IsLive(heap, p) && IsLive(heap, r)
      ensures Handed(heap) == old(Handed(heap))[p := nb][r := old(EndOf(heap, p)) - r] && r !in old(Handed(heap))
      ensures Frame(base, old(ram.log), ram.log, Handed(heap)) && OnlyWords(old(ram.log), ram.log)
    {
      hide SpaceOk, SmallOk, TreeBins.TreeOk, Handed, CutHead, RetileHeap, DvOk, TopCached, EndOf, IsLive, Legible,
        LaidOut, RetileStores, MayRetile, Mirrored, Frame, OnlyWords, StoresInUse;
      ghost var P, head0, l0, n := Plan(), head, ram.log, EndOf(heap, p);
      SpaceLaidOut(heap, head, foot, base, leastAddr, regions, seg, records, dv, {}, bins.binned);
      CutReady(p, nb);
      var rsize := head[p].size - nb;
      r := p + nb;
      var was := ReadWord(r);
      CutWords(head0, p, nb, rsize, was);
      SetInuse(p, nb, head[p], was);
      SetInuse(r, rsize, head[r], head[r + rsize]);
      heap := RetileHeap(heap, p, r, n, Live, Live);
      CutStored(l0, ram.log, p, r, n, ram.log[|l0|], ram.log[|l0| + 1], ram.log[|l0| + 2], ram.log[|l0| + 3]);
      Retiled(P, head0, l0, p, r, n, Live, Live, {});
    }

    /** set_inuse of all but the low nb bytes of chunk p, then of those. */
    method CutBack(p: int, nb: int) returns (r: int)
      requires Valid() && IsLive(heap, p) && MIN_CHUNK_SIZE <= nb && nb % 8 == 0
        && MIN_CHUNK_SIZE <= EndOf(heap, p) - p - nb
      modifies `head, `heap, ram
      ensures r == p + nb && Valid() && heap == RetileHeap(old(heap), p, r, old(EndOf(heap, p)), Live, Live)
        && IsLive(heap, p) && IsLive(heap, r)
      ensures Handed(heap) == old(Handed(heap))[p := nb][r := old(EndOf(heap, p)) - r] && r !in old(Handed(heap))
      ensures Frame(base, old(ram.log), ram.log, Handed(heap)) && OnlyWords(old(ram.log), ram.log)
    {
      hide SpaceOk, SmallOk, TreeBins.TreeOk, Handed, CutHead, RetileHeap, DvOk, TopCached, EndOf, IsLive, Legible,
        LaidOut, RetileStores, MayRetile, Mirrored, Frame, OnlyWords, StoresInUse;
      ghost var P, head0, l0, n := Plan(), head, ram.log, EndOf(heap, p);
      SpaceLaidOut(heap, head, foot, base, leastAddr, regions, seg, records, dv, {}, bins.binned);
      CutReady(p, nb);
      var newsize := head[p].size - nb;
      r := p + nb;
      var was := ReadWord(r);
      CutWordsBack(head0, p, nb, newsize, was);
      SetInuse(r, newsize, was, head[r + newsize]);
      SetInuse(p, nb, head[p], head[r]);
      heap := RetileHeap(heap, p, r, n, Live, Live);
      CutStored(l0, ram.log, p, r, n, ram.log[|l0|], ram.log[|l0| + 1], ram.log[|l0| + 2], ram.log[|l0| + 3]);
      Retiled(P, head0, l0, p, r, n, Live, Live, {});
    }

    /** Extends chunk p, which top follows, to nb bytes. */
    method Grow(p: int, nb: int)
      requires Valid() && TopAfter(heap, p) && MIN_CHUNK_SIZE <= nb && nb % 8 == 0 && top - p < nb < top - p + topsize
      modifies `head, `heap, `top, `topsize, ram
      ensures Valid() && heap == RetileHeap(old(heap), p, p + nb, old(top + topsize), Live, Free)
      ensures Handed(heap) == old(Handed(heap))[p := nb] && p in old(Handed(heap))
      ensures Frame(base, old(ram.log), ram.log, Handed(heap)) && OnlyWords(old(ram.log), ram.log)
    {
      hide SpaceOk, SmallOk, TreeBins.TreeOk, Handed, GrownHead, RetileHeap, DvOk, TopCached, EndOf, IsLive, TopAfter,
        Legible, LaidOut, RetileStores, MayRetile, Mirrored, Frame, OnlyWords, StoresInUse, IsFooted;
      ghost var P, head0, l0, n := Plan(), head, ram.log, top + topsize;
      SpaceLaidOut(heap, head, foot, base, leastAddr, regions, seg, records, dv, {}, bins.binned);
      GrowDone(heap, head, foot, base, leastAddr, regions, seg, records, dv, dvsize, bins.binned, top, topsize, p, nb);
      var newsize := head[p].size + topsize;
      var newtopsize := newsize - nb;
      var newtop := p + nb;
      var was := ReadWord(newtop);
      GrownWords(head0, p, nb, newtopsize, was);
      SetInuse(p, nb, head[p], was);
      top := newtop;
      topsize := newtopsize;
      SetHead(newtop, Head(newtopsize, true, false));
      heap := RetileHeap(heap, p, p + nb, n, Live, Free);
      GrownStored(l0, ram.log, p, newtop, n, ram.log[|l0|], ram.log[|l0| + 1], ram.log[|l0| + 2]);
      Retiled(P, head0, l0, p, newtop, n, Live, Free, {});
    }

    /** A store made in the block at mem, by the client or for it. */
    method FillBlock(mem: int, lo: int, n: nat, byte: int -> int)
      requires Valid() && IsLive(heap, Mem2Chunk(mem)) && mem <= lo
        && lo + n <= EndOf(heap, Mem2Chunk(mem)) + CHUNK_OVERHEAD
      modifies ram
      ensures Valid() && ram.log == old(ram.log) + [Filled(lo, n, byte)]
      ensures Frame(base, old(ram.log), ram.log, Handed(heap) - {Mem2Chunk(mem)})
    {
      hide SpaceOk, SmallOk, TreeBins.TreeOk, DvOk, TopCached, IsLive, EndOf, Handed, Legible, LaidOut, Mirrored, Frame,
        Physical, HeapPlaced, BinnedExactly;
      SpacePhysical(heap, head, foot, base, leastAddr, regions, seg, records, dv, {}, bins.binned);
      SpaceLaidOut(heap, head, foot, base, leastAddr, regions, seg, records, dv, {}, bins.binned);
      HandedLive(heap);
      FillLegible(Plan(), ram.log, Mem2Chunk(mem), lo, n, byte);
      FillFrame(base, ram.log, heap, head, foot, Mem2Chunk(mem), lo, n, byte);
      FillIn(lo, n, byte);
    }

    /** memcpy of n bytes into the block at mem; its last word is the next chunk's prev_foot. */
    method CopyInto(mem: int, from: int, n: int)
      requires Valid() && IsLive(heap, Mem2Chunk(mem)) && 0 <= n
        && mem + n <= EndOf(heap, Mem2Chunk(mem)) + CHUNK_OVERHEAD
      modifies ram
      ensures Valid() && Copied(old(Data()), Data(), mem, from, n)
      ensures Frame(base, old(ram.log), ram.log, Handed(heap) - {Mem2Chunk(mem)})
    {
      hide SpaceOk, SmallOk, TreeBins.TreeOk, DvOk, TopCached, IsLive, EndOf, Copied, Legible, Mirrored, Frame, Handed;
      var data := Data();
      var data' := CopyBytes(data, mem, from, n);
      FilledBytes(ram.base, ram.start, ram.log, mem, n, data');
      CopyFilled(data, data', BytesOf(ram.base, ram.start, ram.log + [Filled(mem, n, data')]), mem, from, n);
      FillBlock(mem, mem, n, data');
    }

    /** The last resort of internal_realloc: a new block, the old bytes copied, the old block freed. */
    method Move(oldmem: int, bytes: nat) returns (newmem: int)
      requires Valid() && IsLive(heap, Mem2Chunk(oldmem)) && bytes < SIZE_T_RANGE
      modifies `head, `foot, `heap, `dv, `dvsize, `top, `topsize, bins, ram
      ensures Valid()
      ensures newmem == 0 <==>
        bytes >= MAX_REQUEST || (NoneFit(old(heap), Request2Size(bytes)) && old(topsize) <= Request2Size(bytes))
      ensures newmem == 0 ==> unchanged(this) && unchanged(bins) && unchanged(ram)
      ensures newmem != 0 ==> Moved(old(Handed(heap)), Handed(heap), Mem2Chunk(oldmem), Mem2Chunk(newmem), bytes)
      ensures newmem != 0 ==> Mem2Chunk(newmem) !in old(Handed(heap))
      ensures BytesKept(old(heap), old(Data()), Data(), oldmem, newmem, bytes)
      ensures Frame(base, old(ram.log), ram.log, old(Handed(heap)) - {Mem2Chunk(oldmem)})
    {
      hide SpaceOk, SmallOk, TreeBins.TreeOk, DvOk, TopCached, NoneFit, Chosen, Allocated, Freed, RetileHeap,
        Request2Size, Handed, EndOf, BytesKept, Moved, Served, IsLive, Copied, Physical, Frame, Legible, Mirrored,
        OnlyWords, BytesOf;
      ghost var H, l0 := heap, ram.log;
      OneBase();
      LiveWords(Mem2Chunk(oldmem));
      var oldsize := head[Mem2Chunk(oldmem)].size;
      newmem := MspaceMalloc(bytes);
      ghost var data1, l1 := Data(), ram.log;
      if newmem != 0 {
        var oc := oldsize - CHUNK_OVERHEAD;
        var n := if oc < bytes then oc else bytes;
        MoveReady(H, heap, Mem2Chunk(oldmem), Mem2Chunk(newmem), bytes, n);
        SpacePhysical(heap, head, foot, base, leastAddr, regions, seg, records, dv, {}, bins.binned);
        assert Handed(heap) - {Mem2Chunk(newmem)} == Handed(H) by { NewOut(H, heap, Mem2Chunk(newmem), bytes); }
        CopyInto(newmem, oldmem, n);
        ghost var l2 := ram.log;
        MoveKeeps(H, heap, head, foot, data1, Data(), oldmem, newmem, bytes, n);
        MspaceFree(oldmem);
        MoveFrame(base, ram.start, l0, l1, l2, ram.log, H, Handed(heap), oldmem, newmem, bytes);
      } else {
        NothingMoved(H, Data(), oldmem, bytes);
        NothingStored(base, l0, Handed(H) - {Mem2Chunk(oldmem)});
      }
    }

    /** internal_realloc, case of a chunk that is already big enough: the tail goes back. */
    method Shrink(oldmem: int, bytes: nat)
      requires Valid() && IsLive(heap, Mem2Chunk(oldmem))
        && Request2Size(bytes) <= EndOf(heap, Mem2Chunk(oldmem)) - Mem2Chunk(oldmem)
      modifies `head, `foot, `heap, `dv, `dvsize, `top, `topsize, bins, ram
      ensures Valid() && Moved(old(Handed(heap)), Handed(heap), Mem2Chunk(oldmem), Mem2Chunk(oldmem), bytes)
      ensures StaysAs(old(heap), Handed(heap), Mem2Chunk(oldmem), Request2Size(bytes))
      ensures Frame(base, old(ram.log), ram.log, Handed(heap))
    {
      hide SpaceOk, SmallOk, TreeBins.TreeOk, DvOk, Freed, RetileHeap, Handed, Moved, EndOf, TopCached, Frame, IsLive,
        Request2Size, Legible, Mirrored, OnlyWords;
      ghost var H, l0 := heap, ram.log;
      var oldp := Mem2Chunk(oldmem);
      HandedLive(heap);
      LiveWords(oldp);
      var nb := Request2Size(bytes);
      var rsize := head[oldp].size - nb;
      if rsize >= MIN_CHUNK_SIZE {
        var remainder := Cut(oldp, nb);
        ghost var l1, blocks1 := ram.log, Handed(heap);
        MspaceFree(Chunk2Mem(remainder));
        CutAndFreed(Handed(H), oldp, nb, remainder, blocks1[remainder]);
        FreedFrame(base, l0, l1, ram.log, blocks1, remainder);
      } else {
        assert Handed(H) == Handed(H)[oldp := Handed(H)[oldp]];
        NothingStored(base, l0, Handed(heap));
      }
      StayMoves(H, Handed(heap), oldp, bytes);
    }

    /** internal_realloc, case of a chunk that top follows. */
    method Extend(oldmem: int, bytes: nat)
      requires Valid() && TopAfter(heap, Mem2Chunk(oldmem))
        && top - Mem2Chunk(oldmem) < Request2Size(bytes) < top - Mem2Chunk(oldmem) + topsize
      modifies `head, `heap, `top, `topsize, ram
      ensures Valid() && Moved(old(Handed(heap)), Handed(heap), Mem2Chunk(oldmem), Mem2Chunk(oldmem), bytes)
      ensures StaysAs(old(heap), Handed(heap), Mem2Chunk(oldmem), Request2Size(bytes))
      ensures Frame(base, old(ram.log), ram.log, Handed(heap))
    {
      hide SpaceOk, SmallOk, TreeBins.TreeOk, DvOk, Freed, RetileHeap, Handed, Moved, EndOf, TopCached, Frame, Legible,
        Mirrored, OnlyWords;
      ghost var H := heap;
      TopNamed(heap, top, topsize);
      Grow(Mem2Chunk(oldmem), Request2Size(bytes));
      StayMoves(H, Handed(heap), Mem2Chunk(oldmem), bytes);
    }

    /** internal_realloc. */
    method InternalRealloc(oldmem: int, bytes: nat) returns (newmem: int)
      requires Valid() && IsLive(heap, Mem2Chunk(oldmem)) && bytes < SIZE_T_RANGE
      modifies `head, `foot, `heap, `dv, `dvsize, `top, `topsize, bins, ram
      ensures Valid()
      ensures newmem == 0 <==> bytes >= MAX_REQUEST || MustFail(old(heap), Mem2Chunk(oldmem), Request2Size(bytes))
      ensures newmem == 0 ==> unchanged(this) && unchanged(bins) && unchanged(ram)
      ensures newmem != 0 ==> Moved(old(Handed(heap)), Handed(heap), Mem2Chunk(oldmem), Mem2Chunk(newmem), bytes)
      ensures newmem != 0 && newmem != oldmem ==> Mem2Chunk(newmem) !in old(Handed(heap))
      ensures newmem != 0 ==> (newmem == oldmem <==> CanStay(old(heap), Mem2Chunk(oldmem), Request2Size(bytes)))
      ensures newmem != 0 && newmem == oldmem ==>
        StaysAs(old(heap), Handed(heap), Mem2Chunk(oldmem), Request2Size(bytes))
      ensures BytesKept(old(heap), old(Data()), Data(), oldmem, newmem, bytes)
      ensures Frame(base, old(ram.log), ram.log, Kept(old(Handed(heap)), Handed(heap)))
    {
      hide SpaceOk, SmallOk, TreeBins.TreeOk, DvOk, Freed, RetileHeap, Handed, Moved, EndOf, TopCached, NoneFit,
        BytesKept, CanStay, Request2Size, Frame, Kept, Inside, Legible, Mirrored, BytesOf, StaysAs;
      ghost var H, l0 := heap, ram.log;
      OneBase();
      NothingStored(base, l0, Kept(Handed(heap), Handed(heap)));
      NothingMoved(heap, Data(), oldmem, bytes);
      if bytes >= MAX_REQUEST {
        newmem := 0;
        return;
      }
      var oldp := Mem2Chunk(oldmem);
      LiveWords(oldp);
      StayCases(heap, top, topsize, oldp, Request2Size(bytes));
      var oldsize := head[oldp].size;
      var next := oldp + oldsize;
      if oldp >= leastAddr && head[oldp].cinuse && oldp < next && head[next].pinuse {
        var nb := Request2Size(bytes);
        if oldsize >= nb {
          Shrink(oldmem, bytes);
          newmem := oldmem;
          StayKeeps(base, ram.start, l0, ram.log, H, Handed(heap), oldmem, bytes);
          KeptInside(Handed(H), Handed(heap));
          FrameFewer(base, l0, ram.log, Handed(heap), Kept(Handed(H), Handed(heap)));
        } else if next == top && oldsize + topsize > nb {
          Extend(oldmem, bytes);
          newmem := oldmem;
          StayKeeps(base, ram.start, l0, ram.log, H, Handed(heap), oldmem, bytes);
          KeptInside(Handed(H), Handed(heap));
          FrameFewer(base, l0, ram.log, Handed(heap), Kept(Handed(H), Handed(heap)));
        } else {
          HandedLive(heap);
          newmem := Move(oldmem, bytes);
          if newmem != 0 {
            KeptMoved(Handed(H), Handed(heap), oldp, Mem2Chunk(newmem), bytes);
            FrameFewer(base, l0, ram.log, Handed(H) - {oldp}, Kept(Handed(H), Handed(heap)));
          }
        }
      } else {
        assert false; // USAGE_ERROR_ACTION
      }
    }

    // ---- calloc ----

    /** A client's store of one byte in the block at mem. */
    method StoreByte(mem: int, off: nat, b: int)
      requires Valid() && IsLive(heap, Mem2Chunk(mem)) && mem + off < EndOf(heap, Mem2Chunk(mem)) + CHUNK_OVERHEAD
      modifies ram
      ensures Valid() && Poked(old(Data()), Data(), mem + off, b)
      ensures Frame(base, old(ram.log), ram.log, Handed(heap) - {Mem2Chunk(mem)})
    {
      hide SpaceOk, SmallOk, TreeBins.TreeOk, DvOk, TopCached, IsLive, EndOf, Handed, Legible, Mirrored, Frame;
      var byte := (_: int) => b;
      FilledBytes(ram.base, ram.start, ram.log, mem + off, 1, byte);
      FillBlock(mem, mem + off, 1, byte);
    }

    /** memset to zero of n bytes of the block at mem. */
    method ClearIn(mem: int, n: int)
      requires Valid() && IsLive(heap, Mem2Chunk(mem)) && 0 <= n
        && mem + n <= EndOf(heap, Mem2Chunk(mem)) + CHUNK_OVERHEAD
      modifies ram
      ensures Valid() && Zeroed(old(Data()), Data(), mem, n)
      ensures Frame(base, old(ram.log), ram.log, Handed(heap) - {Mem2Chunk(mem)})
    {
      hide SpaceOk, SmallOk, TreeBins.TreeOk, DvOk, TopCached, IsLive, EndOf, Handed, Legible, Mirrored, Frame;
      var zero := (_: int) => 0;
      FilledBytes(ram.base, ram.start, ram.log, mem, n, zero);
      FillBlock(mem, mem, n, zero);
    }

    /** mspace_calloc: room for n elements, cleared; a product that wraps around fails. */
    method MspaceCalloc(n: nat, elem: nat) returns (mem: int)
      requires Valid() && n < SIZE_T_RANGE && elem < SIZE_T_RANGE
      modifies `head, `foot, `heap, `dv, `dvsize, `top, `topsize, bins, ram
      ensures Valid()
      ensures mem == 0 <==> Product(n, elem) >= MAX_REQUEST || NoRoom(old(heap), Request2Size(Product(n, elem)))
      ensures mem == 0 ==> unchanged(this) && unchanged(bins) && unchanged(ram)
      ensures mem != 0 ==>
        Served(old(heap), heap, Mem2Chunk(mem), Product(n, elem)) && ZerosAt(Data(), mem, Product(n, elem))
      ensures Frame(base, old(ram.log), ram.log, old(Handed(heap)))
    {
      hide SpaceOk, SmallOk, TreeBins.TreeOk, DvOk, EndOf, NoneFit, Chosen, Allocated, Handed, Request2Size, TopCached,
        Zeroed, ZerosAt, Frame, Legible, Mirrored, OnlyWords, BytesOf;
      ghost var H, l0 := heap, ram.log;
      TopRoomCached(heap, top, topsize);
      var req := 0;
      if n != 0 {
        req := n * elem % SIZE_T_RANGE;
        CallocRequest(n, elem);
        if (n > 0xFFFF || elem > 0xFFFF) && req / n != elem { req := SIZE_T_RANGE - 1; }
      }
      mem := MspaceMalloc(req);
      if mem != 0 {
        HandedLive(heap);
        ghost var data1, l1 := Data(), ram.log;
        assert Handed(heap) - {Mem2Chunk(mem)} == Handed(H);
        ClearIn(mem, req);
        ZerosLeft(data1, Data(), mem, req);
        FrameThen(base, l0, l1, ram.log, Handed(H));
      }
    }

    // ---- memalign ----

    /** internal_memalign, the leading part: a chunk of its own when chunk p0 is misaligned. */
    method CutLeader(p0: int, alignment: nat, ghost nb: int) returns (p: int, leader: int)
      requires Valid() && IsLive(heap, p0) && IsPow2(alignment) && MIN_CHUNK_SIZE <= alignment && MIN_CHUNK_SIZE <= nb
      requires nb + alignment + MIN_CHUNK_SIZE <= EndOf(heap, p0) - p0
      modifies `head, `heap, ram
      ensures Valid() && 0 < p && Chunk2Mem(p) % alignment == 0 && HasRoom(Handed(heap), p, nb)
      ensures p0 in old(Handed(heap)) && p0 in Handed(heap)
      ensures leader == 0 ==> p == p0 && heap == old(heap)
      ensures leader != 0 ==>
        leader == Chunk2Mem(p0) && p !in old(Handed(heap))
        && Replaced(old(Handed(heap)), Handed(heap) - {p0}, p0, p)
      ensures AtSpot(p0, p, alignment) && HasSize(Handed(heap), p, EndOf(old(heap), p0) - p)
      ensures Frame(base, old(ram.log), ram.log, Handed(heap)) && (leader == 0 ==> unchanged(this))
    {
      hide SpaceOk, SmallOk, TreeBins.TreeOk, Handed, DvOk, TopCached, EndOf, IsLive, RetileHeap, Spot, IsPow2,
        Frame, Legible, Mirrored, OnlyWords;
      ghost var blocks := Handed(heap);
      HandedLive(heap);
      LiveWords(p0);
      LiveBounds(p0);
      p := p0;
      leader := 0;
      if Chunk2Mem(p) % alignment != 0 {
        SpotFits(p, head[p].size, alignment, nb);
        var newp := CutBack(p, Spot(p, alignment) - p);
        leader := Chunk2Mem(p);
        p := newp;
        HandedLive(heap);
        CutFront(blocks, p0, newp - p0, newp, Handed(heap)[newp]);
      } else {
        NothingStored(base, ram.log, Handed(heap));
      }
    }

    /** internal_memalign, the trailing part: a chunk of its own when it is worth one. */
    method CutTrailer(p: int, nb: int) returns (trailer: int)
      requires Valid() && HasRoom(Handed(heap), p, nb) && MIN_CHUNK_SIZE <= nb && nb % 8 == 0
      modifies `head, `heap, ram
      ensures Valid() && p in Handed(heap) && Frame(base, old(ram.log), ram.log, Handed(heap))
      ensures trailer == 0 ==> unchanged(this) && Between(nb, Handed(heap), p, nb + MIN_CHUNK_SIZE)
      ensures trailer != 0 ==> Split(old(Handed(heap)), Handed(heap), p, Mem2Chunk(trailer), nb)
      ensures trailer == 0 <==> p in old(Handed(heap)) && old(Handed(heap))[p] <= nb + MIN_CHUNK_SIZE
    {
      hide SpaceOk, SmallOk, TreeBins.TreeOk, Handed, DvOk, TopCached, EndOf, IsLive, RetileHeap, Frame, Legible,
        Mirrored, OnlyWords;
      ghost var blocks := Handed(heap);
      HandedLive(heap);
      LiveWords(p);
      trailer := 0;
      var size := head[p].size;
      if size > nb + MIN_CHUNK_SIZE {
        var remainder := Cut(p, nb);
        trailer := Chunk2Mem(remainder);
        CutAndFreed(blocks, p, nb, remainder, Handed(heap)[remainder]);
      } else {
        NothingStored(base, ram.log, Handed(heap));
      }
    }

    /** Frees a part of the over-sized chunk, if there is one. */
    method FreePart(mem: int)
      requires Valid() && (mem != 0 ==> Mem2Chunk(mem) in Handed(heap))
      modifies `head, `foot, `heap, `dv, `dvsize, `top, `topsize, bins, ram
      ensures Valid() && Handed(heap) == if mem == 0 then old(Handed(heap)) else old(Handed(heap)) - {Mem2Chunk(mem)}
      ensures Frame(base, old(ram.log), ram.log, Handed(heap))
    {
      hide SpaceOk, SmallOk, TreeBins.TreeOk, Handed, DvOk, TopCached, EndOf, IsLive, Freed, Frame, Legible,
        Mirrored, OnlyWords;
      if mem != 0 {
        HandedLive(heap);
        MspaceFree(mem);
      } else {
        NothingStored(base, ram.log, Handed(heap));
      }
    }

    /** The part of internal_memalign after the over-sized chunk p0 is there: gives back what lies
        before the aligned spot and what is left behind nb bytes. */
    method AlignWithin(p0: int, alignment: nat, nb: int) returns (p: int)
      requires Valid() && IsLive(heap, p0) && IsPow2(alignment) && MIN_CHUNK_SIZE <= alignment && MIN_CHUNK_SIZE <= nb
        && nb % 8 == 0
      requires nb + alignment + MIN_CHUNK_SIZE <= EndOf(heap, p0) - p0
      modifies `head, `foot, `heap, `dv, `dvsize, `top, `topsize, bins, ram
      ensures Valid() && 0 < p && Chunk2Mem(p) % alignment == 0 && (p == p0 || p !in old(Handed(heap)))
      ensures Replaced(old(Handed(heap)), Handed(heap), p0, p) && Between(nb, Handed(heap), p, nb + MIN_CHUNK_SIZE)
      ensures AtSpot(p0, p, alignment) && HasSize(Handed(heap), p, TrimmedSize(EndOf(old(heap), p0) - p, nb))
      ensures Frame(base, old(ram.log), ram.log, old(Handed(heap)) - {p0})
    {
      hide SpaceOk, SmallOk, TreeBins.TreeOk, Handed, DvOk, TopCached, EndOf, IsLive, RetileHeap, Freed, Replaced,
        Between, IsPow2, Frame, Split, Inside, HasRoom, Legible, Mirrored, AtSpot;
      ghost var blocks0, l0 := Handed(heap), ram.log;
      var leader, trailer;
      p, leader := CutLeader(p0, alignment, nb);
      ghost var blocks1, l1 := Handed(heap), ram.log;
      trailer := CutTrailer(p, nb);
      ghost var blocks2, l2 := Handed(heap), ram.log;
      KeptEnds(blocks1, blocks2, p0, p, trailer, nb);
      FreePart(leader);
      ghost var blocks3, l3 := Handed(heap), ram.log;
      FreePart(trailer);
      KeptMiddle(blocks0, blocks1, blocks2, Handed(heap), p0, p, leader, trailer, nb);
      AlignKeeps(blocks0, blocks1, blocks2, blocks3, Handed(heap), p0, p, leader, trailer);
      FramesAll(base, l0, l1, l2, l3, ram.log, blocks1, blocks2, blocks3, Handed(heap), blocks0 - {p0});
    }

    /** internal_memalign once the alignment a is a power of two: more than enough, then the ends given back. */
    method OverAligned(a: nat, bytes: nat) returns (mem: int)
      requires Valid() && IsPow2(a) && MIN_CHUNK_SIZE <= a <= SIZE_T_RANGE / 2 && bytes < SIZE_T_RANGE
      modifies `head, `foot, `heap, `dv, `dvsize, `top, `topsize, bins, ram
      ensures Valid() && MultipleOf(mem, a)
      ensures mem == 0 <==> TooMuch(old(heap), a, bytes)
      ensures mem == 0 ==> unchanged(this) && unchanged(bins) && unchanged(ram)
      ensures mem != 0 ==>
        Added(old(Handed(heap)), Handed(heap), Mem2Chunk(mem), Request2Size(bytes),
        Request2Size(bytes) + MIN_CHUNK_SIZE)
      ensures Frame(base, old(ram.log), ram.log, old(Handed(heap)))
    {
      hide SpaceOk, SmallOk, TreeBins.TreeOk, Handed, DvOk, TopCached, EndOf, IsLive, Freed, Replaced, Between, IsPow2,
        NoneFit, Chosen, Allocated, Request2Size, Added, Frame, Legible, Mirrored, OnlyWords;
      ghost var H, l0 := heap, ram.log;
      TopRoomCached(heap, top, topsize);
      if bytes >= MAX_REQUEST - a {
        NothingStored(base, l0, Handed(H));
        mem := 0;
      } else {
        var nb := Request2Size(bytes);
        var req := nb + a + MIN_CHUNK_SIZE - CHUNK_OVERHEAD;
        AlignRequestFits(bytes, a);
        mem := MspaceMalloc(req);
        if mem != 0 {
          ghost var H1, l1 := heap, ram.log;
          OverServed(H, heap, Mem2Chunk(mem), bytes, a);
          var p := AlignWithin(Mem2Chunk(mem), a, nb);
          AddedAround(Handed(H), Handed(H1), Handed(heap), Mem2Chunk(mem), p, nb);
          MemalignFrame(base, l0, l1, ram.log, Handed(H), Handed(H1), Mem2Chunk(mem));
          mem := Chunk2Mem(p);
        }
      }
    }

    /** internal_memalign. */
    method InternalMemalign(alignment: nat, bytes: nat) returns (mem: int)
      requires Valid() && alignment <= SIZE_T_RANGE / 2 && bytes < SIZE_T_RANGE
      modifies `head, `foot, `heap, `dv, `dvsize, `top, `topsize, bins, ram
      ensures Valid()
      ensures mem == 0 <==> MemalignFails(old(heap), alignment, bytes)
      ensures mem == 0 ==> unchanged(this) && unchanged(bins) && unchanged(ram)
      ensures mem != 0 ==>
        Added(old(Handed(heap)), Handed(heap), Mem2Chunk(mem), Request2Size(bytes),
        Request2Size(bytes) + MIN_CHUNK_SIZE)
      ensures mem != 0 ==> AlignedFor(mem, alignment)
      ensures Frame(base, old(ram.log), ram.log, old(Handed(heap)))
    {
      hide SpaceOk, SmallOk, TreeBins.TreeOk, Handed, DvOk, EndOf, IsLive, Freed, Replaced, Between, IsPow2, NoneFit,
        Chosen, Allocated, Request2Size, AlignedFor, Added, Frame, Legible, Mirrored, OnlyWords;
      ghost var H := heap;
      TopRoomCached(heap, top, topsize);
      if alignment <= ALIGNMENT {
        mem := MspaceMalloc(bytes);
        if mem != 0 {
          ServedAdds(H, heap, Mem2Chunk(mem), bytes);
          EightServes(mem, alignment);
        }
        return;
      }
      var a := RoundAlignment(alignment);
      MemalignFailsWhen(heap, alignment, bytes, a);
      mem := OverAligned(a, bytes);
      if mem != 0 { RoundedServes(mem, alignment, a); }
    }

    // ---- segments ----

    /** The fenceposts of a retired segment, from p0 up to its end. */
    method Fenceposts(p0: int, end: int) returns (nfences: nat)
      requires Mirrored() && p0 + 2 * W < end
      modifies `head, ram
      ensures Mirrored() && nfences >= 2 && FencedUpTo(head, p0, end)
      ensures PostsOnly(old(ram.log), ram.log, p0, end) && PostsWritten(old(ram.log), ram.log, p0, end)
      ensures forall x {:trigger x in head} {:trigger head[x]} ::
        x in old(head) && (x < p0 || end <= x) ==> x in head && head[x] == old(head)[x]
    {
      hide Fenced, Mirrored, PostsOnly, PostsUpTo, PostsWritten;
      var p := p0;
      nfences := 0;
      NoFences(head, p0);
      NoPosts(ram.log, p0, end);
      while true
        invariant Mirrored() && p0 <= p == Fencepost(p0, nfences) && p + W < end && Fenced(head, p0, nfences)
        invariant nfences == 1 ==> p == p0 + W
        invariant PostsOnly(old(ram.log), ram.log, p0, end) && PostsUpTo(old(ram.log), ram.log, p0, nfences)
        invariant forall x {:trigger x in head} {:trigger head[x]} ::
          x in old(head) && (x < p0 || end <= x) ==> x in head && head[x] == old(head)[x]
        decreases end - p
      {
        var nextp := p + W;
        OneMoreFence(head, p0, nfences);
        OneMorePost(old(ram.log), ram.log, p0, nfences, end, Head(W, true, true));
        SetHead(p, Head(W, true, true));
        nfences := nfences + 1;
        if nextp + W < end { p := nextp; } else { break; }
      }
      LastFence(head, p0, nfences, end);
      LastPost(old(ram.log), ram.log, p0, nfences, end);
    }

    /** What add_segment starts from. */
    lemma AddReady(tbase: int, tsize: int)
      requires Valid() && Apart(regions, tbase, tsize) && AlignedRegion(tbase, tsize)
      ensures Listed(regions, seg, records) && RecordsReal(regions) && Physical(heap, head, foot)
        && TopHeld(regions, top, topsize)
      ensures (top + topsize) % 8 == 0 && heap.top == top && EndOf(heap, top) == top + topsize && IsFree(heap, top)
      ensures MayExtend(heap, RecordSpot(top, top + topsize), tbase, tsize - TOP_FOOT_SIZE)
      ensures HeadIs(head, top, Head(topsize, true, false)) && top % 8 == 0
      ensures Handed(Extended(heap, RecordSpot(top, top + topsize), tbase, tsize - TOP_FOOT_SIZE)) == Handed(heap)
    {
      hide SmallOk, TreeBins.TreeOk, Physical, HeapPlaced, BinnedExactly, Marked, Covered, DvOk, Apart, AlignedRegion,
        MayExtend, MetasOk, RegionsOk, Handed, Extended;
      SpacePhysical(heap, head, foot, base, leastAddr, regions, seg, records, dv, {}, bins.binned);
      RecordsAreReal(heap, regions, base, leastAddr);
      TopFacts(heap, head, foot);
      ChunksPositive(heap, head, foot);
      SegmentFits(heap, regions, seg, records, base, tbase, tsize);
      forall k: nat {:trigger regions[k]} | k < |regions| && regions[k].base <= top < regions[k].base + regions[k].size
        ensures k == 0 {
        TopHolder(heap, regions, seg, records, base, k);
      }
      HandedExtended(heap, RecordSpot(top, top + topsize), tbase, tsize - TOP_FOOT_SIZE);
    }

    /** The words and fields add_segment writes for the record csp of the old segment and the new top. */
    method WriteSegment(csp: int, old_end: int, tbase: int, tsize: int)
      requires Mirrored() && MayExtend(heap, csp, tbase, tsize - TOP_FOOT_SIZE) && heap.top == top
        && EndOf(heap, top) + TOP_FOOT_SIZE == old_end
      requires HeadIs(head, top, Head(EndOf(heap, top) - top, true, false))
      modifies `head, `foot, `top, `topsize, `seg, `records, ram
      ensures Mirrored() && ExtendedWords(heap, csp, tbase, tsize - TOP_FOOT_SIZE, old(head), old(foot), head, foot)
      ensures SegmentStores(old(ram.log), ram.log, old(top), csp, old_end, tbase, tsize - TOP_FOOT_SIZE)
      ensures FencedUpTo(head, csp + SEGMENT_CHUNK, old_end)
      ensures top == tbase && topsize == tsize - TOP_FOOT_SIZE
      ensures seg == Segment(tbase, tsize, Chunk2Mem(csp)) && records == old(records)[Chunk2Mem(csp) := old(seg)]
    {
      hide ExtendedWords, ZoneClear, NewClear, Mirrored, PostsOnly, PostsWritten, SegmentStores;
      ghost var l0 := ram.log;
      var old_top := top;
      var ss := Chunk2Mem(csp);
      var tnext := csp + SEGMENT_CHUNK;
      var psize := tsize - TOP_FOOT_SIZE;
      InitTop(tbase, psize);
      SetHead(csp, Head(SEGMENT_CHUNK, true, true));
      SetRecord(ss, seg);
      seg := Segment(tbase, tsize, ss);
      ghost var head1, l1 := head, ram.log;
      var nfences := Fenceposts(tnext, old_end);
      assert nfences >= 2;
      ghost var head2, l2 := head, ram.log;
      assert csp in head1;
      FirstFence(head2, tnext, old_end);
      if csp != old_top {
        var psize := csp - old_top;
        SetFree(old_top, psize, csp);
      }
      WordsExtended(heap, csp, tbase, psize, old(head), old(foot), head1, head2, head, foot);
      SegmentStored(l0, l1, l2, ram.log, old_top, csp, old_end, tbase, psize, Tag(Head(psize, true, false)),
        Tag(Head(TOP_FOOT_SIZE, false, false)), Tag(Head(SEGMENT_CHUNK, true, true)), Record(old(seg)),
        Tag(head2[csp].(pinuse := false)), Tag(Head(csp - old_top, true, false)), Number(csp - old_top));
      FencesStay(head2, head, tnext, old_end);
    }

    /** The old top, in hand unless the record took its place. */
    function Rest(csp: int, oldTop: int): set<int> {
      if csp == oldTop then {} else {oldTop}
    }

    /** The new segment's words and the heap with it; what is left of the old top is in hand. */
    method PushSegment(tbase: int, tsize: int) returns (csp: int)
      requires Valid() && Apart(regions, tbase, tsize) && AlignedRegion(tbase, tsize) && leastAddr <= tbase
      modifies `head, `foot, `heap, `top, `topsize, `seg, `records, `regions, ram
      ensures csp == RecordSpot(old(top), old(top + topsize)) && |old(regions)| > 0
      ensures heap == Extended(old(heap), csp, tbase, tsize - TOP_FOOT_SIZE)
        && regions == ExtendedRegions(old(regions), csp, tbase, tsize)
        && FencedUpTo(head, csp + SEGMENT_CHUNK, old(top + topsize) + TOP_FOOT_SIZE)
      ensures Handed(heap) == old(Handed(heap)) && top == tbase && topsize == tsize - TOP_FOOT_SIZE
      ensures Frame(base, old(ram.log), ram.log, Handed(heap)) && OnlyWords(old(ram.log), ram.log)
      ensures Core(Rest(csp, old(top)))
      ensures csp != old(top) ==> InHandFree(heap, old(top), csp - old(top), top, dv)
    {
      hide SmallOk, TreeBins.TreeOk, SpaceOk, Extended, ExtendedRegions, ExtendedWords, Handed, Apart, MayExtend, DvOk,
        TopCached, Listed, Physical, RecordsReal, FencedUpTo, Legible, LaidOut, Mirrored, SegmentStores, Frame,
        OnlyWords, StoresInUse, AlignedRegion;
      ghost var P, H, head0, foot0, l0 := Plan(), heap, head, foot, ram.log;
      AddReady(tbase, tsize);
      SpaceLaidOut(heap, head, foot, base, leastAddr, regions, seg, records, dv, {}, bins.binned);
      var old_top := top;
      var found, oldsp, k := SegmentHolding(seg, records, old_top, regions);
      assert TopHeld(regions, old_top, topsize);
      var old_end := oldsp.base + oldsp.size;
      csp := PlaceRecord(old_top, old_end);
      WriteSegment(csp, old_end, tbase, tsize);
      ExtendSpace(H, head0, foot0, base, leastAddr, regions, old(seg), old(records), dv, dvsize, bins.binned, csp,
        tbase, tsize, head, foot);
      heap := Extended(H, csp, tbase, tsize - TOP_FOOT_SIZE);
      regions := ExtendedRegions(regions, csp, tbase, tsize);
      SpaceLaidOut(heap, head, foot, base, leastAddr, regions, seg, records, dv, Rest(csp, old_top), bins.binned);
      ExtendLegible(P, csp, tbase, tsize, l0, ram.log);
      StoresSpare(Plan(), l0, ram.log);
      if csp != old_top { OldTopInHand(H, head0, foot0, csp, tbase, tsize - TOP_FOOT_SIZE, dv, dvsize); }
    }

    /** add_segment. */
    method AddSegment(tbase: int, tsize: int)
      requires Valid() && Apart(regions, tbase, tsize) && AlignedRegion(tbase, tsize) && leastAddr <= tbase
      modifies `head, `foot, `heap, `top, `topsize, `seg, `records, `regions, bins, ram
      ensures Valid() && |old(regions)| > 0
      ensures var c := RecordSpot(old(top), old(top + topsize));
        && heap == Extended(old(heap), c, tbase, tsize - TOP_FOOT_SIZE)
           && regions == ExtendedRegions(old(regions), c, tbase, tsize)
        && FencedUpTo(head, c + SEGMENT_CHUNK, old(top + topsize) + TOP_FOOT_SIZE)
      ensures Handed(heap) == old(Handed(heap)) && top == tbase && topsize == tsize - TOP_FOOT_SIZE
      ensures Frame(base, old(ram.log), ram.log, Handed(heap)) && OnlyWords(old(ram.log), ram.log)
    {
      hide SmallOk, TreeBins.TreeOk, SpaceOk, Extended, ExtendedRegions, Handed, Apart, DvOk, TopCached, FencedUpTo,
        LinksIn, Frame, OnlyWords, Legible, LaidOut, Mirrored;
      var old_top := top;
      ghost var l0 := ram.log;
      var csp := PushSegment(tbase, tsize);
      ghost var l1 := ram.log;
      if csp != old_top {
        BinChunk(old_top, csp - old_top, {old_top});
        assert {old_top} - {old_top} == {};
        SpaceLaidOut(heap, head, foot, base, leastAddr, regions, seg, records, dv, {}, bins.binned);
        LinksSpare(Plan(), l1, ram.log);
        FrameThen(base, l0, l1, ram.log, Handed(heap));
        WordsThen(l0, l1, ram.log);
      }
    }

    /** mspace_add_segment: the aligned part of [start, start + size) becomes the new top's segment. */
    method MspaceAddSegment(start: int, size: int)
      requires Valid() && 0 < start && AlignedRegion(AlignUp(start), AlignedSize(start, size))
        && Apart(regions, AlignUp(start), AlignedSize(start, size))
      modifies `head, `foot, `heap, `top, `topsize, `seg, `records, `regions, `leastAddr, bins, ram
      ensures Valid() && |old(regions)| > 0
      ensures var c := RecordSpot(old(top), old(top + topsize));
        var aligned, tsize := AlignUp(start), AlignedSize(start, size);
        heap == Extended(old(heap), c, aligned, tsize - TOP_FOOT_SIZE)
          && regions == ExtendedRegions(old(regions), c, aligned, tsize)
      ensures Handed(heap) == old(Handed(heap)) && top == AlignUp(start)
        && topsize == AlignedSize(start, size) - TOP_FOOT_SIZE
      ensures Frame(base, old(ram.log), ram.log, Handed(heap)) && OnlyWords(old(ram.log), ram.log)
    {
      hide SmallOk, TreeBins.TreeOk, Extended, ExtendedRegions, Handed, Apart, DvOk, TopCached, Physical, HeapPlaced,
        SegmentsOk, BinnedExactly, AlignUp, AlignedSize, Frame, FencedUpTo, Legible, Mirrored, OnlyWords;
      AlignFacts(start, size);
      var aligned := AlignUp(start);
      if aligned < leastAddr {
        LowerLeast(heap, base, leastAddr, aligned);
        leastAddr := aligned;
      }
      AddSegment(aligned, AlignedSize(start, size));
    }

    // ---- what holds at every point between calls ----

    /** Word w holds item i, as the fields have it. */
    ghost predicate Keeps(w: Word, i: Item)
      reads this, bins
    {
      match w
      case HeadOf(x) => x in head && i == Tag(head[x])
      case FootOf(x) => x in foot && i == Number(foot[x])
      case FdOf(x) => x in bins.fd && i == Number(bins.fd[x])
      case BkOf(x) => x in bins.bk && i == Number(bins.bk[x])
      case SlotOf(c) => c in bins.slots && i == Number(bins.slots[c])
      case ParentOf(x) => x in bins.par && i == Number(bins.par[x])
      case IndexOf(x) => x in bins.idx && i == Number(bins.idx[x])
      case RecordOf(ss) => ss in records && i == Record(records[ss])
    }

    lemma ToldKept(w: Word)
      requires Mirrored() && w in Told(ram.log)
      ensures Keeps(w, Told(ram.log)[w])
    {
      hide Told;
    }

    /** Every word in use is what the bytes at its place say. */
    lemma MemorySays(w: Word) returns (i: Item)
      requires Valid() && InUse(Plan(), w)
      ensures Keeps(w, i)
      ensures forall b {:trigger Data()(b)} :: Addr(base, w) <= b < Addr(base, w) + Width(w) ==>
        Data()(b) == ItemByte(i, Width(w), b - Addr(base, w))
    {
      hide InOrder, InUse, Intact, Addr, Width, ItemByte, Told, Keeps, ByteAt, TagsTold, LinksTold;
      IntactSays(base, ram.start, ram.log, w);
      ToldKept(w);
      i := Told(ram.log)[w];
    }

    /** What is in use is laid out soundly and legible. */
    lemma PlanSound()
      requires Valid()
      ensures LaidOut(Plan()) && Legible(Plan(), ram.log) && Plan().base == base
    {
      hide SpaceOk, SmallOk, TreeBins.TreeOk, DvOk, TopCached, Legible, Mirrored, LaidOut;
      SpaceLaidOut(heap, head, foot, base, leastAddr, regions, seg, records, dv, {}, bins.binned);
    }

    /** No two words in use share a byte. */
    lemma WordsMeetNot(u: Word, v: Word)
      requires Valid() && InUse(Plan(), u) && InUse(Plan(), v) && u != v
      ensures WordsClear(base, u, v)
    {
      hide SpaceOk, SmallOk, TreeBins.TreeOk, DvOk, TopCached, Legible, Mirrored, InUse, WordsClear, LaidOut;
      SpaceLaidOut(heap, head, foot, base, leastAddr, regions, seg, records, dv, {}, bins.binned);
      WordsApart(Plan(), u, v);
    }

    /** No word in use lies in a block. */
    lemma WordsOffBlocks(w: Word)
      requires Valid() && InUse(Plan(), w)
      ensures Spared(Handed(heap), Addr(base, w), Addr(base, w) + Width(w))
    {
      hide SpaceOk, SmallOk, TreeBins.TreeOk, DvOk, TopCached, Legible, Mirrored, InUse, LaidOut, Spared, Handed, Addr,
        Width;
      SpaceLaidOut(heap, head, foot, base, leastAddr, regions, seg, records, dv, {}, bins.binned);
      WordSpared(Plan(), w);
    }

    /** chunksize, pinuse and cinuse of any chunk, read from memory. */
    lemma HeadsRead(x: int)
      requires Valid() && x in heap.size
      ensures HeadReads(Data(), head, x)
    {
      hide InOrder, Legible, Mirrored, ItemByte, ByteAt, TagsTold, LinksTold, BytesOf, InUse;
      assert InUse(Plan(), HeadOf(x)) && Addr(base, HeadOf(x)) == x + W && Width(HeadOf(x)) == W by { ChunkHead(x); }
      var i := MemorySays(HeadOf(x));
      HeadBounds(x);
      hide Addr, Width;
      WordReads(Data(), x + W, i);
      HeadRoundTrip(head[x]);
    }

    lemma ChunkHead(x: int)
      requires x in heap.size
      ensures InUse(Plan(), HeadOf(x)) && Addr(base, HeadOf(x)) == x + W && Width(HeadOf(x)) == W
    {
    }

    lemma HeadBounds(x: int)
      requires Valid() && x in heap.size
      ensures x in head && head[x].size % 4 == 0 && 0 <= HeadWord(head[x]) < SIZE_T_RANGE
    {
      hide SmallOk, TreeBins.TreeOk, DvOk, TopCached, Legible, Mirrored, BinnedExactly, SegmentsOk, Closed, EndsClear,
        StartsClear, NoOverlap, NoAdjacentFree, LiveInside, PinusesMatch, FeetMatch, PrevsMatch, StartsPinuse;
      SpacePhysical(heap, head, foot, base, leastAddr, regions, seg, records, dv, {}, bins.binned);
      var _ := heap.kind[x];
      assert 0 < heap.size[x];
    }

    /** Any pointer, prev_foot or index in use, read from memory, as far as its width goes. */
    lemma NumbersRead(w: Word) returns (n: int)
      requires Valid() && InUse(Plan(), w) && !w.HeadOf? && !w.RecordOf?
      ensures Keeps(w, Number(n)) && ReadsAs(Data(), Addr(base, w), Width(w), n)
    {
      hide InOrder, Legible, Mirrored, ByteAt, TagsTold, LinksTold, BytesOf, InUse, Addr, Width, Pow2;
      var i := MemorySays(w);
      n := i.n;
      forall k {:trigger NumberByte(n, Width(w), k)} | 0 <= k < Width(w)
        ensures Data()(Addr(base, w) + k) == NumberByte(n, Width(w), k) { }
      NumberReads(Data(), Addr(base, w), n, Width(w));
    }

    /** Two blocks handed out lie apart. */
    lemma BlocksApart(p: int, q: int)
      requires Valid() && p in Handed(heap) && q in Handed(heap) && p != q
      ensures p + Handed(heap)[p] <= q || q + Handed(heap)[q] <= p
    {
      hide SmallOk, TreeBins.TreeOk, HeapPlaced, BinnedExactly, SegmentsOk, DvOk, TopCached, Closed, StartsClear,
        EndsClear, Tagged, Sized, NoAdjacentFree, LiveInside, TopPlaced;
      SpacePhysical(heap, head, foot, base, leastAddr, regions, seg, records, dv, {}, bins.binned);
      assert heap.size[p] > 0 && heap.size[q] > 0;
    }

    /** No block reaches the tail of a segment, where the foot of top or the fenceposts are. */
    lemma TailsClear(k: nat, p: int, a: int)
      requires Valid() && k < |regions| && p in Handed(heap) && InPayload(p, Handed(heap)[p], a)
      ensures !(regions[k].end + W <= a < regions[k].base + regions[k].size)
    {
      hide SmallOk, TreeBins.TreeOk, HeapPlaced, BinnedExactly, DvOk, TopCached, Physical, RegionsOk, Listed, Marked,
        MetasOk, Covered;
      SpacePhysical(heap, head, foot, base, leastAddr, regions, seg, records, dv, {}, bins.binned);
      TailClear(heap, head, foot, regions, k, p, a);
    }

    /** Once every block is freed each segment has at most one free chunk, top included. */
    lemma AllFreedOneLeft(k: nat, p: int, q: int)
      requires Valid() && Handed(heap) == map[] && k < |regions|
      requires IsFree(heap, p) && regions[k].base <= p < regions[k].end && IsFree(heap, q)
        && regions[k].base <= q < regions[k].end
      ensures p == q
    {
      hide SmallOk, TreeBins.TreeOk, Physical, HeapPlaced, BinnedExactly, Marked, Covered, DvOk, MetasOk, RegionsOk,
        Listed;
      SpacePhysical(heap, head, foot, base, leastAddr, regions, seg, records, dv, {}, bins.binned);
      Conservation.NothingHanded(heap, regions[k]);
      Conservation.OneFreeLeft(heap, head, foot, regions, base, leastAddr, k, p, q);
    }

    /** Once every block of a one-segment space is freed, top is as init_user_mstate left it. */
    lemma AllFreedTop()
      requires Valid() && Handed(heap) == map[] && |regions| == 1
      ensures top == base + STATE_CHUNK && topsize == regions[0].end - (base + STATE_CHUNK)
    {
      hide SmallOk, TreeBins.TreeOk, Physical, HeapPlaced, BinnedExactly, Marked, Covered, DvOk, MetasOk, RegionsOk,
        Listed;
      SpacePhysical(heap, head, foot, base, leastAddr, regions, seg, records, dv, {}, bins.binned);
      Conservation.NothingHanded(heap, regions[0]);
      TopFacts(heap, head, foot);
      Conservation.AllFreed(heap, head, foot, regions, base, leastAddr);
    }

    /** Blocks, free chunks, the allocator's own chunks and the overhead add up to each segment's size. */
    lemma BytesConserved(k: nat)
      requires Valid() && k < |regions|
      ensures var r := regions[k];
        Conservation.Bytes(heap, r.base, r.end, Live) + Conservation.Bytes(heap, r.base, r.end,
          Free) + Conservation.Bytes(heap, r.base, r.end, Meta)
          + (r.base + r.size - r.end) == r.size
    {
      hide SmallOk, TreeBins.TreeOk, Physical, HeapPlaced, BinnedExactly, DvOk, SegmentsOk, TopCached;
      SpacePhysical(heap, head, foot, base, leastAddr, regions, seg, records, dv, {}, bins.binned);
      Conservation.SegmentBytes(heap, head, foot, regions, seg, records, base, k);
    }
  }
}
