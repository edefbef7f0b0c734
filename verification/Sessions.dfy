/** Whole runs: any sequence of calls and stores a client may make on a malloc space, against the simplest
    picture of one, blocks that each hold what was last stored in them. */
module Sessions {
  import opened ChunkLayout
  import opened BoundaryTags
  import opened Segments
  import opened Creation
  import opened Coalesce
  import opened Blocks
  import opened Alignments
  import opened HeapSteps
  import opened SmallBins
  import opened NewSegment
  import opened Storage
  import opened WordsInUse
  import opened Stores
  import opened Mspace

  datatype Call =
    | Malloc(bytes: nat)
    | Calloc(n: nat, elem: nat)
    | Memalign(alignment: nat, bytes: nat)
    | Realloc(mem: int, bytes: nat)
    | Release(mem: int)
    | Store(mem: int, off: nat, value: int)
    | AddSegment(start: int, size: int)

  /** What a client may count on: its pointers, and the bytes it asked for behind each. */
  type View = map<int, seq<int>>

  /** Where a client knows the space to have memory. */
  datatype Area = Area(base: int, size: int)

  ghost predicate Knows(areas: seq<Area>, regions: seq<Region>) {
    |areas| == |regions| && forall k {:trigger areas[k]} {:trigger regions[k]} ::
      0 <= k < |areas| ==> areas[k] == Area(regions[k].base, regions[k].size)
  }

  predicate Separate(areas: seq<Area>, tbase: int, tsize: int) {
    forall k | 0 <= k < |areas| :: areas[k].base + areas[k].size <= tbase || tbase + tsize <= areas[k].base
  }

  // ---- what a call does to a view ----

  /** Arguments the library demands: sizes of a size_t, and blocks handed out and not yet given back. */
  predicate Proper(c: Call, view: View) {
    match c
    case Malloc(bytes) => bytes < SIZE_T_RANGE
    case Calloc(n, elem) => n < SIZE_T_RANGE && elem < SIZE_T_RANGE
    case Memalign(alignment, bytes) => alignment <= SIZE_T_RANGE / 2 && bytes < SIZE_T_RANGE
    case Realloc(mem, bytes) => mem in view && bytes < SIZE_T_RANGE
    case Release(mem) => mem == 0 || mem in view
    case Store(mem, off, value) => mem in view && off < |view[mem]|
    case AddSegment(start, size) => 0 < start && AlignedRegion(AlignUp(start), AlignedSize(start, size))
  }

  /** And, for a new segment, memory that the space does not have already. */
  predicate Allowed(c: Call, view: View, areas: seq<Area>) {
    Proper(c, view) && (c.AddSegment? ==> Separate(areas, AlignUp(c.start), AlignedSize(c.start, c.size)))
  }

  /** A block of n bytes, at mem, is new. */
  ghost predicate Gained(view: View, view': View, mem: int, n: nat) {
    && 0 < mem && mem % 8 == 0 && mem !in view && mem in view'
    && |view'[mem]| == n && view' == view[mem := view'[mem]]
  }

  ghost predicate AllZero(s: seq<int>) {
    forall k {:trigger s[k]} :: 0 <= k < |s| ==> s[k] == 0
  }

  /** The block at before gives way to one of n bytes at mem that begins as it did. */
  ghost predicate Resized(view: View, view': View, before: int, mem: int, n: nat) {
    && before in view && (mem == before || mem !in view) && mem in view'
    && |view'[mem]| == n && view' == (view - {before})[mem := view'[mem]]
    && forall k {:trigger view'[mem][k]} :: 0 <= k < n && k < |view[before]| ==> view'[mem][k] == view[before][k]
  }

  /** The calls that fail in heap H, and no other does. */
  ghost predicate Fails(c: Call, H: Heap) {
    match c
    case Malloc(bytes) => bytes >= MAX_REQUEST || NoRoom(H, Request2Size(bytes))
    case Calloc(n, elem) => Product(n, elem) >= MAX_REQUEST || NoRoom(H, Request2Size(Product(n, elem)))
    case Memalign(alignment, bytes) => MemalignFails(H, alignment, bytes)
    case Realloc(mem, bytes) => bytes >= MAX_REQUEST || MustFail(H, Mem2Chunk(mem), Request2Size(bytes))
    case _ => false
  }

  /** What a call does to its client's view.  One that fails, and one that is not proper, leaves it alone. */
  ghost predicate Effect(c: Call, H: Heap, view: View, view': View) {
    if !Proper(c, view) || Fails(c, H) then view' == view
    else
      match c
      case Malloc(bytes) => exists mem :: Gained(view, view', mem, bytes)
      case Calloc(n, elem) => exists mem :: Gained(view, view', mem, Product(n, elem)) && AllZero(view'[mem])
      case Memalign(alignment, bytes) => exists mem :: Gained(view, view', mem, bytes) && AlignedFor(mem, alignment)
      case Realloc(mem, bytes) => exists mem' :: Resized(view, view', mem, mem', bytes)
      case Release(mem) => view' == view - {mem}
      case Store(mem, off, value) => view' == view[mem := view[mem][off := value]]
      case AddSegment(start, size) => view' == view
  }

  // ---- the view is what the space holds ----

  ghost predicate SamePointers(view: View, blocks: map<int, int>) {
    forall mem {:trigger mem in view} {:trigger Mem2Chunk(mem) in blocks} :: mem in view <==> Mem2Chunk(mem) in blocks
  }

  /** The chunk of every block has room for it. */
  ghost predicate Roomy(view: View, blocks: map<int, int>) {
    forall mem {:trigger view[mem]} ::
      mem in view && Mem2Chunk(mem) in blocks ==> |view[mem]| + CHUNK_OVERHEAD <= blocks[Mem2Chunk(mem)]
  }

  ghost predicate Says(data: int -> int, mem: int, s: seq<int>) {
    forall k {:trigger s[k]} :: 0 <= k < |s| ==> data(mem + k) == s[k]
  }

  ghost predicate SaysAll(view: View, data: int -> int) {
    forall mem {:trigger view[mem]} :: mem in view ==> Says(data, mem, view[mem])
  }

  ghost predicate Holds(view: View, blocks: map<int, int>, data: int -> int) {
    SamePointers(view, blocks) && Roomy(view, blocks) && SaysAll(view, data)
  }

  /** The n bytes at mem. */
  function BytesAt(data: int -> int, mem: int, n: nat): (s: seq<int>)
    ensures |s| == n && Says(data, mem, s)
  {
    seq(n, k => data(mem + k))
  }

  lemma HoldsLess(view: View, blocks: map<int, int>, data: int -> int, mem: int)
    requires Holds(view, blocks, data)
    ensures Holds(view - {mem}, blocks - {Mem2Chunk(mem)}, data)
  {
    hide Says;
    var v, b := view - {mem}, blocks - {Mem2Chunk(mem)};
    forall m {:trigger v[m]} | m in v ensures Says(data, m, v[m]) { assert v[m] == view[m]; }
    forall m {:trigger v[m]} | m in v && Mem2Chunk(m) in b ensures |v[m]| + CHUNK_OVERHEAD <= b[Mem2Chunk(m)] {
      assert v[m] == view[m];
    }
  }

  lemma SaysStill(data: int -> int, data': int -> int, mem: int, s: seq<int>, blocks: map<int, int>)
    requires Says(data, mem, s) && Mem2Chunk(mem) in blocks && |s| + CHUNK_OVERHEAD <= blocks[Mem2Chunk(mem)]
    requires Untouched(blocks, data, data')
    ensures Says(data', mem, s)
  {
    forall k {:trigger s[k]} | 0 <= k < |s| ensures data'(mem + k) == s[k] {
      assert InPayload(Mem2Chunk(mem), blocks[Mem2Chunk(mem)], mem + k);
    }
  }

  lemma HoldsStill(view: View, blocks: map<int, int>, data: int -> int, data': int -> int)
    requires Holds(view, blocks, data) && Untouched(blocks, data, data')
    ensures Holds(view, blocks, data')
  {
    hide Says, Untouched;
    forall mem {:trigger view[mem]} | mem in view ensures Says(data', mem, view[mem]) {
      SaysStill(data, data', mem, view[mem], blocks);
    }
  }

  lemma HoldsMore(view: View, blocks: map<int, int>, data: int -> int, mem: int, size: int, s: seq<int>)
    requires Holds(view, blocks, data) && Says(data, mem, s) && |s| + CHUNK_OVERHEAD <= size
    ensures Holds(view[mem := s], blocks[Mem2Chunk(mem) := size], data)
  {
    hide Says;
    var v, b := view[mem := s], blocks[Mem2Chunk(mem) := size];
    forall m {:trigger v[m]} | m in v ensures Says(data, m, v[m]) { if m != mem { assert v[m] == view[m]; } }
    forall m {:trigger v[m]} | m in v && Mem2Chunk(m) in b ensures |v[m]| + CHUNK_OVERHEAD <= b[Mem2Chunk(m)] {
      if m != mem { assert v[m] == view[m]; }
    }
  }

  /** Blocks of a view never share a byte. */
  ghost predicate Disjoint(view: View) {
    forall a, b {:trigger view[a], view[b]} ::
      a in view && b in view && a != b ==> a + |view[a]| <= b || b + |view[b]| <= a
  }

  lemma KnowsMore(areas: seq<Area>, regions: seq<Region>, c: int, tbase: int, tsize: int)
    requires Knows(areas, regions) && |regions| > 0
    ensures Knows([Area(tbase, tsize)] + areas, ExtendedRegions(regions, c, tbase, tsize))
  {
    RegionAt(regions, c, tbase, tsize);
    var r' := ExtendedRegions(regions, c, tbase, tsize);
    var areas' := [Area(tbase, tsize)] + areas;
    hide ExtendedRegions;
    assert areas[0] == Area(regions[0].base, regions[0].size);
    forall k | 0 <= k < |areas'| ensures areas'[k] == Area(r'[k].base, r'[k].size) {
      if k > 1 { assert areas'[k] == areas[k - 1]; }
    }
  }

  lemma SeparateIsApart(areas: seq<Area>, regions: seq<Region>, tbase: int, tsize: int)
    requires Knows(areas, regions) && Separate(areas, tbase, tsize)
    ensures Apart(regions, tbase, tsize)
  {
    forall k {:trigger regions[k]} | 0 <= k < |regions|
      ensures regions[k].base + regions[k].size <= tbase || tbase + tsize <= regions[k].base
    {
      var _ := areas[k];
    }
  }

  /** A new chunk, with room for the n bytes s that are behind mem. */
  lemma HoldsGained(view: View, blocks: map<int, int>, data: int -> int, data': int -> int, mem: int, size: int,
                    s: seq<int>)
    requires Holds(view, blocks, data) && Untouched(blocks, data, data') && Says(data', mem, s)
    requires Mem2Chunk(mem) !in blocks && 0 < mem && mem % 8 == 0 && |s| + CHUNK_OVERHEAD <= size
    ensures Holds(view[mem := s], blocks[Mem2Chunk(mem) := size], data') && Gained(view, view[mem := s], mem, |s|)
  {
    assert mem !in view;
    hide Says, Untouched, Holds;
    HoldsStill(view, blocks, data, data');
    HoldsMore(view, blocks, data', mem, size, s);
  }

  /** The stores made on the way from one heap to another spare what both have handed out. */
  ghost predicate FrameKept(base: int, H: Heap, l0: seq<Event>, H': Heap, l1: seq<Event>) {
    Frame(base, l0, l1, Kept(Handed(H), Handed(H')))
  }

  lemma KeptBefore(base: int, start: int -> int, l0: seq<Event>, l1: seq<Event>, H: Heap, H': Heap)
    requires Frame(base, l0, l1, Handed(H))
    ensures FrameKept(base, H, l0, H', l1)
    ensures Untouched(Handed(H), BytesOf(base, start, l0), BytesOf(base, start, l1))
  {
    hide Frame, Handed, Kept, Inside, BytesOf;
    KeptInside(Handed(H), Handed(H'));
    FrameFewer(base, l0, l1, Handed(H), Kept(Handed(H), Handed(H')));
    FrameKeeps(base, start, l0, l1, Handed(H));
  }

  lemma KeptAfter(base: int, start: int -> int, l0: seq<Event>, l1: seq<Event>, H: Heap, H': Heap)
    requires Frame(base, l0, l1, Handed(H'))
    ensures FrameKept(base, H, l0, H', l1)
    ensures Untouched(Handed(H'), BytesOf(base, start, l0), BytesOf(base, start, l1))
  {
    hide Frame, Handed, Kept, Inside, BytesOf;
    KeptInside(Handed(H), Handed(H'));
    FrameFewer(base, l0, l1, Handed(H'), Kept(Handed(H), Handed(H')));
    FrameKeeps(base, start, l0, l1, Handed(H'));
  }

  method CallMalloc(m: MallocState, bytes: nat, view: View) returns (view': View)
    requires m.Valid() && Holds(view, Handed(m.heap), m.Data()) && bytes < SIZE_T_RANGE
    modifies m, m.bins, m.ram
    ensures m.Valid() && Holds(view', Handed(m.heap), m.Data()) && Effect(Malloc(bytes), old(m.heap), view, view')
      && m.regions == old(m.regions)
    ensures FrameKept(m.base, old(m.heap), old(m.ram.log), m.heap, m.ram.log)
  {
    hide Holds, Handed, NoneFit, Chosen, Allocated, MallocState.Valid, Request2Size, Gained, Says,
      Untouched, FrameKept, EndOf, Frame, OnlyWords;
    ghost var H, l0, data := m.heap, m.ram.log, m.Data();
    m.OneBase();
    TopOfValid(m);
    var mem := m.MspaceMalloc(bytes);
    KeptBefore(m.base, m.ram.start, l0, m.ram.log, H, m.heap);
    view' := view;
    if mem != 0 {
      view' := view[mem := BytesAt(m.Data(), mem, bytes)];
      HoldsGained(view, Handed(H), data, m.Data(), mem, Handed(m.heap)[Mem2Chunk(mem)], BytesAt(m.Data(), mem, bytes));
    }
  }

  lemma TopOfValid(m: MallocState)
    requires m.Valid()
    ensures EndOf(m.heap, m.heap.top) - m.heap.top == m.topsize
  {
    hide SpaceOk;
    TopRoomCached(m.heap, m.top, m.topsize);
  }

  lemma ZeroedSays(data: int -> int, mem: int, n: nat)
    requires ZerosAt(data, mem, n)
    ensures AllZero(BytesAt(data, mem, n))
  {
    var s := BytesAt(data, mem, n);
    forall k {:trigger s[k]} | 0 <= k < n ensures s[k] == 0 { assert data(mem + k) == 0; }
  }

  method CallCalloc(m: MallocState, n: nat, elem: nat, view: View) returns (view': View)
    requires m.Valid() && Holds(view, Handed(m.heap), m.Data()) && n < SIZE_T_RANGE && elem < SIZE_T_RANGE
    modifies m, m.bins, m.ram
    ensures m.Valid() && Holds(view', Handed(m.heap), m.Data()) && Effect(Calloc(n, elem), old(m.heap), view, view')
      && m.regions == old(m.regions)
    ensures FrameKept(m.base, old(m.heap), old(m.ram.log), m.heap, m.ram.log)
  {
    hide Holds, Handed, NoRoom, MallocState.Valid, Request2Size, Gained, Says, Untouched, ZerosAt,
      AllZero, Product, FrameKept, Frame;
    ghost var H, l0, data := m.heap, m.ram.log, m.Data();
    m.OneBase();
    var mem := m.MspaceCalloc(n, elem);
    KeptBefore(m.base, m.ram.start, l0, m.ram.log, H, m.heap);
    view' := view;
    if mem != 0 {
      var s := BytesAt(m.Data(), mem, Product(n, elem));
      view' := view[mem := s];
      ZeroedSays(m.Data(), mem, Product(n, elem));
      HoldsGained(view, Handed(H), data, m.Data(), mem, Handed(m.heap)[Mem2Chunk(mem)], s);
    }
  }

  method CallMemalign(m: MallocState, alignment: nat, bytes: nat, view: View) returns (view': View)
    requires m.Valid() && Holds(view, Handed(m.heap), m.Data()) && alignment <= SIZE_T_RANGE / 2 && bytes < SIZE_T_RANGE
    modifies m, m.bins, m.ram
    ensures m.Valid() && Holds(view', Handed(m.heap), m.Data())
      && Effect(Memalign(alignment, bytes), old(m.heap), view, view') && m.regions == old(m.regions)
    ensures FrameKept(m.base, old(m.heap), old(m.ram.log), m.heap, m.ram.log)
  {
    hide Holds, Handed, MemalignFails, AlignedFor, MallocState.Valid, Gained, Says, Untouched,
      IsLive, FrameKept, Frame;
    ghost var H, l0, data := m.heap, m.ram.log, m.Data();
    m.OneBase();
    ghost var blocks := Handed(H);
    var mem := m.InternalMemalign(alignment, bytes);
    KeptBefore(m.base, m.ram.start, l0, m.ram.log, H, m.heap);
    view' := view;
    if mem != 0 {
      var s := BytesAt(m.Data(), mem, bytes);
      view' := view[mem := s];
      HandedLive(m.heap);
      m.LiveBounds(Mem2Chunk(mem));
      m.LiveWords(Mem2Chunk(mem));
      assert blocks - {Mem2Chunk(mem)} == blocks;
      HoldsGained(view, blocks, data, m.Data(), mem, Handed(m.heap)[Mem2Chunk(mem)], s);
    }
  }

  lemma ResizedSays(H: Heap, data: int -> int, data': int -> int, before: int, mem: int, bytes: nat, s: seq<int>)
    requires BytesKept(H, data, data', before, mem, bytes) && mem != 0 && Says(data, before, s)
    requires |s| + CHUNK_OVERHEAD <= Handed(H)[Mem2Chunk(before)]
    ensures forall k {:trigger BytesAt(data', mem, bytes)[k]} ::
      0 <= k < bytes && k < |s| ==> BytesAt(data', mem, bytes)[k] == s[k]
  {
    hide Handed;
    var t := BytesAt(data', mem, bytes);
    forall k {:trigger t[k]} | 0 <= k < bytes && k < |s| ensures t[k] == s[k] {
      assert InPayload(Mem2Chunk(before), Handed(H)[Mem2Chunk(before)], before + k);
      assert data'(mem + k) == data(mem + k - mem + before);
      assert data(before + k) == s[k];
    }
  }

  lemma OthersStay(H: Heap, data: int -> int, data': int -> int, before: int, mem: int, bytes: nat)
    requires BytesKept(H, data, data', before, mem, bytes)
    ensures Untouched(Handed(H) - {Mem2Chunk(before)}, data, data')
  {
    hide Handed;
  }

  method CallRealloc(m: MallocState, before: int, bytes: nat, view: View) returns (view': View)
    requires m.Valid() && Holds(view, Handed(m.heap), m.Data()) && before in view && bytes < SIZE_T_RANGE
    modifies m, m.bins, m.ram
    ensures m.Valid() && Holds(view', Handed(m.heap), m.Data())
      && Effect(Realloc(before, bytes), old(m.heap), view, view') && m.regions == old(m.regions)
    ensures FrameKept(m.base, old(m.heap), old(m.ram.log), m.heap, m.ram.log)
  {
    hide Handed, MustFail, CanStay, MallocState.Valid, BytesKept, Request2Size, Says, Untouched, IsLive, Frame, Kept;
    ghost var H, blocks, data, l0 := m.heap, Handed(m.heap), m.Data(), m.ram.log;
    HandedLive(m.heap);
    assert Mem2Chunk(before) in blocks;
    var mem := m.InternalRealloc(before, bytes);
    view' := view;
    if mem != 0 {
      var s := BytesAt(m.Data(), mem, bytes);
      view' := (view - {before})[mem := s];
      ghost var b, v := blocks - {Mem2Chunk(before)}, view - {before};
      ResizedSays(H, data, m.Data(), before, mem, bytes, view[before]);
      OthersStay(H, data, m.Data(), before, mem, bytes);
      HoldsLess(view, blocks, data, before);
      HoldsStill(v, b, data, m.Data());
      HoldsMore(v, b, m.Data(), mem, Handed(m.heap)[Mem2Chunk(mem)], s);
      assert Resized(view, view', before, mem, bytes);
    } else {
      OthersStay(H, data, m.Data(), before, mem, bytes);
    }
  }

  method CallRelease(m: MallocState, mem: int, view: View) returns (view': View)
    requires m.Valid() && Holds(view, Handed(m.heap), m.Data()) && (mem == 0 || mem in view)
    modifies m, m.bins, m.ram
    ensures m.Valid() && Holds(view', Handed(m.heap), m.Data()) && Effect(Release(mem), old(m.heap), view, view')
      && m.regions == old(m.regions)
    ensures FrameKept(m.base, old(m.heap), old(m.ram.log), m.heap, m.ram.log)
  {
    hide Handed, MallocState.Valid, Freed, IsLive, FrameKept, Frame, OnlyWords, Untouched, SaysAll, Roomy;
    ghost var H, l0, data := m.heap, m.ram.log, m.Data();
    m.OneBase();
    HandedLive(m.heap);
    view' := view - {mem};
    HoldsLess(view, Handed(m.heap), m.Data(), mem);
    if mem == 0 { NullNotHeld(m, view); }
    m.MspaceFree(mem);
    KeptAfter(m.base, m.ram.start, l0, m.ram.log, H, m.heap);
    HoldsStill(view', Handed(m.heap), data, m.Data());
  }

  lemma NullNotHeld(m: MallocState, view: View)
    requires m.Valid() && Holds(view, Handed(m.heap), m.Data())
    ensures 0 !in view && view - {0} == view
  {
    hide Handed, MallocState.Valid, IsLive;
    HandedLive(m.heap);
    if 0 in view {
      assert Mem2Chunk(0) in Handed(m.heap);
      m.LiveWords(Mem2Chunk(0));
      assert false;
    }
  }

  method CallStore(m: MallocState, mem: int, off: nat, value: int, view: View) returns (view': View)
    requires m.Valid() && Holds(view, Handed(m.heap), m.Data()) && mem in view && off < |view[mem]|
    modifies m, m.bins, m.ram
    ensures m.Valid() && Holds(view', Handed(m.heap), m.Data())
      && Effect(Store(mem, off, value), old(m.heap), view, view') && m.regions == old(m.regions)
    ensures m.heap == old(m.heap) && Frame(m.base, old(m.ram.log), m.ram.log, Handed(m.heap) - {Mem2Chunk(mem)})
  {
    hide Handed, MallocState.Valid, Untouched, IsLive, Frame, BytesOf;
    HandedLive(m.heap);
    m.OneBase();
    ghost var blocks, data, l0 := Handed(m.heap), m.Data(), m.ram.log;
    var p := Mem2Chunk(mem);
    assert p in blocks && |view[mem]| + CHUNK_OVERHEAD <= blocks[p];
    m.StoreByte(mem, off, value);
    FrameKeeps(m.base, m.ram.start, l0, m.ram.log, blocks - {p});
    var s := view[mem][off := value];
    view' := view[mem := s];
    SaysStored(data, m.Data(), mem, view[mem], off, value);
    HoldsLess(view, blocks, data, mem);
    HoldsStill(view - {mem}, blocks - {p}, data, m.Data());
    HoldsMore(view - {mem}, blocks - {p}, m.Data(), mem, blocks[p], s);
    assert (view - {mem})[mem := s] == view';
    assert (blocks - {p})[p := blocks[p]] == blocks;
  }

  lemma SaysStored(data: int -> int, data': int -> int, mem: int, s: seq<int>, off: nat, value: int)
    requires Says(data, mem, s) && off < |s| && Poked(data, data', mem + off, value)
    ensures Says(data', mem, s[off := value])
  {
  }

  /** mspace_add_segment. */
  method CallAddSegment(m: MallocState, start: int, size: int, areas: seq<Area>, view: View) returns (areas': seq<Area>)
    requires m.Valid() && Holds(view, Handed(m.heap), m.Data()) && Knows(areas, m.regions)
      && Allowed(AddSegment(start, size), view, areas)
    modifies m, m.bins, m.ram
    ensures m.Valid() && Holds(view, Handed(m.heap), m.Data()) && Knows(areas', m.regions)
    ensures FrameKept(m.base, old(m.heap), old(m.ram.log), m.heap, m.ram.log)
  {
    hide Holds, Knows, Handed, MallocState.Valid, Apart, AlignedRegion, AlignUp, AlignedSize,
      ExtendedRegions, Separate, FrameKept, Frame, OnlyWords, Untouched;
    var tbase, tsize := AlignUp(start), AlignedSize(start, size);
    SeparateIsApart(areas, m.regions, tbase, tsize);
    ghost var H, l0, data := m.heap, m.ram.log, m.Data();
    m.OneBase();
    ghost var regions, c := m.regions, RecordSpot(m.top, m.top + m.topsize);
    m.MspaceAddSegment(start, size);
    KeptAfter(m.base, m.ram.start, l0, m.ram.log, H, m.heap);
    HoldsStill(view, Handed(m.heap), data, m.Data());
    KnowsMore(areas, regions, c, tbase, tsize);
    areas' := [Area(tbase, tsize)] + areas;
  }

  /** The block a client's own store lies in. */
  function Own(c: Call): set<int> {
    if c.Store? then {Mem2Chunk(c.mem)} else {}
  }

  /** The stores of a call spare every block that stays, but for the one a client stores into itself. */
  ghost predicate CallSpares(base: int, c: Call, H: Heap, l0: seq<Event>, H': Heap, l1: seq<Event>) {
    Frame(base, l0, l1, Kept(Handed(H), Handed(H')) - Own(c))
  }

  lemma SparesOthers(base: int, c: Call, H: Heap, l0: seq<Event>, H': Heap, l1: seq<Event>)
    requires !c.Store? ==> FrameKept(base, H, l0, H', l1)
    requires c.Store? ==> H' == H && Frame(base, l0, l1, Handed(H) - {Mem2Chunk(c.mem)})
    ensures CallSpares(base, c, H, l0, H', l1)
  {
    hide Frame, Handed;
    if c.Store? {
      assert Kept(Handed(H), Handed(H)) == Handed(H);
    } else {
      assert Kept(Handed(H), Handed(H')) - {} == Kept(Handed(H), Handed(H'));
    }
  }

  /** Any allowed call but a new segment. */
  method CallAny(m: MallocState, c: Call, view: View) returns (view': View)
    requires m.Valid() && Holds(view, Handed(m.heap), m.Data()) && Proper(c, view) && !c.AddSegment?
    modifies m, m.bins, m.ram
    ensures m.Valid() && Holds(view', Handed(m.heap), m.Data()) && Effect(c, old(m.heap), view, view')
      && m.regions == old(m.regions)
    ensures CallSpares(m.base, c, old(m.heap), old(m.ram.log), m.heap, m.ram.log)
  {
    hide Holds, Handed, MallocState.Valid, Effect, FrameKept, Frame, CallSpares;
    ghost var H, l0 := m.heap, m.ram.log;
    match c {
      case Malloc(bytes) => view' := CallMalloc(m, bytes, view);
      case Calloc(n, elem) => view' := CallCalloc(m, n, elem, view);
      case Memalign(alignment, bytes) => view' := CallMemalign(m, alignment, bytes, view);
      case Realloc(mem, bytes) => view' := CallRealloc(m, mem, bytes, view);
      case Release(mem) => view' := CallRelease(m, mem, view);
      case Store(mem, off, value) => view' := CallStore(m, mem, off, value, view);
    }
    SparesOthers(m.base, c, H, l0, m.heap, m.ram.log);
  }

  lemma ViewDisjoint(m: MallocState, view: View)
    requires m.Valid() && Holds(view, Handed(m.heap), m.Data())
    ensures Disjoint(view)
  {
    hide MallocState.Valid, Handed, Says;
    forall a, b {:trigger view[a], view[b]} | a in view && b in view && a != b
      ensures a + |view[a]| <= b || b + |view[b]| <= a
    {
      m.BlocksApart(Mem2Chunk(a), Mem2Chunk(b));
    }
  }

  predicate OneSegment(calls: seq<Call>) {
    forall k | 0 <= k < |calls| :: !calls[k].AddSegment?
  }

  /** A space between two calls: what decides which words are in use, and all stores made so far. */
  datatype Moment = Moment(plan: Layout, log: seq<Event>)

  /** Memory at that moment: start, with the stores made. */
  function Bytes(base: int, start: int -> int, now: Moment): int -> int {
    BytesOf(base, start, now.log)
  }

  /** The client's view is what memory holds, in blocks that do not meet; and every word the allocator has in use
      is in memory as it was last stored, in a layout in which no two of them share a byte and none lies in a
      block. */
  ghost predicate Sound(base: int, start: int -> int, view: View, now: Moment) {
    && Holds(view, Handed(now.plan.heap), Bytes(base, start, now)) && Disjoint(view)
    && now.plan.base == base && LaidOut(now.plan) && Legible(now.plan, now.log)
  }

  /** What call c does: to the view just what it must, and to memory nothing inside a block that stays. */
  ghost predicate Passes(base: int, c: Call, view: View, now: Moment, view': View, now': Moment) {
    Effect(c, now.plan.heap, view, view') && CallSpares(base, c, now.plan.heap, now.log, now'.plan.heap, now'.log)
  }

  /** The moments between the calls and the views at them, each what the call before makes of the one before. */
  ghost predicate Follows(base: int, start: int -> int, calls: seq<Call>, views: seq<View>, moments: seq<Moment>) {
    && |views| == |calls| + 1 == |moments| && views[0] == map[]
    && (forall i {:trigger views[i]} :: 0 <= i <= |calls| ==> Sound(base, start, views[i], moments[i]))
    && forall i {:trigger calls[i]} ::
       0 <= i < |calls| ==> Passes(base, calls[i], views[i], moments[i], views[i + 1], moments[i + 1])
  }

  lemma FollowsMore(base: int, start: int -> int, calls: seq<Call>, views: seq<View>, moments: seq<Moment>, i: nat,
                    view: View, now: Moment)
    requires i < |calls| && Follows(base, start, calls[..i], views, moments)
      && Passes(base, calls[i], views[i], moments[i], view, now) && Sound(base, start, view, now)
    ensures Follows(base, start, calls[..i + 1], views + [view], moments + [now])
  {
    hide Passes, Sound;
    var c, v, t := calls[..i + 1], views + [view], moments + [now];
    forall j {:trigger c[j]} | 0 <= j < |c| ensures Passes(base, c[j], v[j], t[j], v[j + 1], t[j + 1]) {
      if j < i { assert calls[..i][j] == c[j]; }
    }
    forall j {:trigger v[j]} | 0 <= j <= |c| ensures Sound(base, start, v[j], t[j]) {
      if j <= i { assert v[j] == views[j]; }
    }
  }

  /** A space in order is a sound moment. */
  lemma SoundNow(m: MallocState, view: View)
    requires m.Valid() && Holds(view, Handed(m.heap), m.Data())
    ensures Sound(m.base, m.ram.start, view, Moment(m.Plan(), m.ram.log))
  {
    hide Handed, Holds, Disjoint, LaidOut, Legible;
    ViewDisjoint(m, view);
    m.OneBase();
    m.PlanSound();
  }

  /** Any run.  What a client sees of the space is what blocks that each hold what was last stored in them
      would show: whatever the calls, the views follow one another, each is what memory holds at that moment, in
      blocks that do not meet, and no call stores a byte in a block that stays, but for a client's own store.  At
      each moment memory says what every word the allocator has in use holds.  A call fails only where Fails says
      there is no room, the space is in order at the end and no error action is reached.  Calls that ask for
      memory the space has already are not made.  With every block freed, a space of one segment is back where
      it began. */
  method Run(tbase: int, tsize: int, memory: int -> int, calls: seq<Call>)
    returns (m: MallocState, views: seq<View>, ghost moments: seq<Moment>)
    requires 0 < tbase && 0 <= tsize && tbase + tsize <= SIZE_T_RANGE && TopRoom(tbase, tsize) >= 8
    ensures Follows(m.base, memory, calls, views, moments) && moments[|calls|] == Moment(m.Plan(), m.ram.log)
    ensures fresh(m) && m.Valid()
    ensures OneSegment(calls) && views[|calls|] == map[] ==> m.topsize == TopRoom(tbase, tsize)
  {
    hide Holds, Handed, Knows, MallocState.Valid, AlignUp, AlignedSize, TopRoom, Separate, AlignedRegion, Follows,
      Effect, Disjoint, FrameKept, CallSpares, Sound, MallocState.Plan;
    m := new MallocState(tbase, tsize, memory);
    var view: View := map[];
    views := [view];
    moments := [Moment(m.Plan(), m.ram.log)];
    NothingHeld(m.base, TopRoom(tbase, tsize), m.Data());
    SoundNow(m, view);
    assert Follows(m.base, memory, calls[..0], views, moments) by {
      NoCalls(m.base, memory, calls[..0], views, moments);
    }
    var areas := [Area(AlignUp(tbase), AlignedSize(tbase, tsize))];
    ghost var regions := m.regions;
    KnowsOne(areas, regions);
    ghost var added := false;
    for i := 0 to |calls|
      invariant fresh(m) && fresh(m.bins) && fresh(m.ram) && m.ram.start == memory
      invariant m.Valid() && Holds(view, Handed(m.heap), m.Data()) && Knows(areas, m.regions)
      invariant !added ==> m.regions == regions
      invariant added ==> !OneSegment(calls)
      invariant |views| == i + 1 == |moments| && views[i] == view && moments[i] == Moment(m.Plan(), m.ram.log)
      invariant Follows(m.base, memory, calls[..i], views, moments)
    {
      var c := calls[i];
      ghost var H, view0, l0 := m.heap, view, m.ram.log;
      PlanHeap(m);
      if !Allowed(c, view, areas) {
        NotSeen(m.base, c, view, moments[i]);
      } else if c.AddSegment? {
        areas := CallAddSegment(m, c.start, c.size, areas, view);
        added := true;
        SparesOthers(m.base, c, H, l0, m.heap, m.ram.log);
        SegmentUnseen(c, H, view);
      } else {
        view := CallAny(m, c, view);
      }
      PlanHeap(m);
      SoundNow(m, view);
      FollowsMore(m.base, memory, calls, views, moments, i, view, Moment(m.Plan(), m.ram.log));
      views := views + [view];
      moments := moments + [Moment(m.Plan(), m.ram.log)];
    }
    assert calls[..|calls|] == calls;
    if view == map[] && !added {
      NothingLeft(Handed(m.heap), m.Data());
      m.AllFreedTop();
    }
  }

  lemma PlanHeap(m: MallocState)
    ensures m.Plan().heap == m.heap
  {
  }

  lemma SegmentUnseen(c: Call, H: Heap, view: View)
    requires c.AddSegment?
    ensures Effect(c, H, view, view)
  {
  }

  lemma NotSeen(base: int, c: Call, view: View, now: Moment)
    requires !Proper(c, view) || c.AddSegment?
    ensures Passes(base, c, view, now, view, now)
  {
    hide Frame, Kept, Handed, MemalignFails, NoRoom, MustFail, Proper;
    NothingStored(base, now.log, Kept(Handed(now.plan.heap), Handed(now.plan.heap)) - Own(c));
  }

  lemma NoCalls(base: int, start: int -> int, calls: seq<Call>, views: seq<View>, moments: seq<Moment>)
    requires calls == [] && views == [map[]] && |moments| == 1 && Sound(base, start, map[], moments[0])
    ensures Follows(base, start, calls, views, moments)
  {
    hide Sound;
  }

  lemma NothingHeld(base: int, topsize: int, data: int -> int)
    ensures Holds(map[], Handed(InitialHeap(base, topsize)), data)
  {
    HandedLive(InitialHeap(base, topsize));
    InitialFacts(base, topsize);
  }

  lemma NothingLeft(blocks: map<int, int>, data: int -> int)
    requires Holds(map[], blocks, data)
    ensures blocks == map[]
  {
    var none: View := map[];
    forall p ensures p !in blocks { assert Chunk2Mem(p) !in none && Mem2Chunk(Chunk2Mem(p)) == p; }
  }

  lemma KnowsOne(areas: seq<Area>, regions: seq<Region>)
    requires |areas| == 1 == |regions| && areas[0] == Area(regions[0].base, regions[0].size)
    ensures Knows(areas, regions)
  {
  }
}
