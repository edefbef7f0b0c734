/** The bins of a malloc_state: smallbins, treebins, their two maps, and the link words of the free
    chunks they hold.  head is the memory's head words, least the least_addr of the RTCHECKs. */
module BinStore {
  import opened ChunkLayout
  import opened BoundaryTags
  import opened BinMaps
  import opened BinIndex
  import opened Tries
  import opened TreeLinks
  import opened Rings
  import opened SmallBins
  import opened TreeBins
  import opened TreeSearch
  import opened Storage
  import opened LinkStores

  /** The head words of binned chunks hold the sizes they are binned under. */
  ghost predicate SizesMatch(head: map<int, Head>, binned: map<int, int>) {
    forall x {:trigger binned[x]} {:trigger head[x]} :: x in binned ==> x in head && head[x].size == binned[x]
  }

  /** Every binned chunk, and the malloc_state itself, passes ok_address. */
  ghost predicate AddressesOk(base: int, least: int, binned: map<int, int>) {
    least <= base && 0 < base && forall x {:trigger binned[x]} :: x in binned ==> least <= x && 0 < x
  }

  class Bins {
    /** Address of the chunk that holds the malloc_state. */
    const base: int
    /** The memory the links are kept in. */
    const ram: Memory

    var smallmap: nat
    var treemap: nat
    /** fd and bk of free chunks, and of the small bin headers. */
    var fd: map<int, int>
    var bk: map<int, int>
    /** The treebins, and child[0] and child[1] of free chunks. */
    var slots: map<Slot, int>
    var par: map<int, int>
    var idx: map<int, int>

    ghost var bins: seq<seq<int>>
    ghost var forest: Forest
    /** The chunks in the bins, with their sizes. */
    ghost var binned: map<int, int>

    /** init_bins, in a malloc_state that memset has cleared: every header is its bin's only link, every root null. */
    constructor (b: int, m: Memory)
      requires m.base == b && LinksTold(Told(m.log), NO_LINKS)
      modifies m
      ensures base == b && ram == m && Valid() && Mirrors() && binned == map[]
      ensures LinksIn(b, old(m.log), m.log, map[]) && StateWritten(b, old(m.log), m.log, 32)
    {
      hide BinWritten, LinksTold, Told, LinksIn, StateWritten, ZeroRoots, Header, SmallOk, TreeOk;
      base := b;
      ram := m;
      smallmap := 0;
      treemap := 0;
      fd := map[];
      bk := map[];
      slots := map[];
      par := map[];
      idx := map[];
      bins := seq(32, i => [Header(b, i)]);
      forest := Forest(map[], map[], map[]);
      binned := map[];
      new;
      NoRoots();
      NoState(b, m.log);
      var i := 0;
      NoneStored(base, m.log, map[]);
      while i < 32
        invariant 0 <= i <= 32 && smallmap == 0 && treemap == 0 && binned == map[]
        invariant slots == ZeroRoots(i) && bins == seq(32, i => [Header(b, i)])
        invariant forest == Forest(map[], map[], map[]) && Mirrors()
        invariant LinksIn(b, old(m.log), m.log, map[])
        invariant StateWritten(b, old(m.log), m.log, i)
      {
        ghost var l := m.log;
        InitBin(i);
        ZeroRootsMore(i);
        LinksThen(base, old(m.log), l, m.log, map[]);
        StateMore(base, old(m.log), l, m.log, i);
        i := i + 1;
      }
      EmptyBins(base, bins, fd, bk);
      EmptyForest(base, slots, par, idx, fd, bk);
    }

    /** The link words are those last stored in memory. */
    ghost predicate Mirrors()
      reads this, ram
    {
      ram.base == base && LinksTold(Told(ram.log), TreeWords())
    }

    /** x->fd = v. */
    method SetFd(x: int, v: int)
      requires Mirrors()
      modifies `fd, ram
      ensures Mirrors() && fd == old(fd)[x := v] && StoredNext(base, old(ram.log), ram.log, FdOf(x))
    {
      hide LinksTold, StoredNext, Told;
      LinkTold(ram.log, TreeWords(), FdOf(x), v);
      OneStored(base, ram.log, FdOf(x), Number(v));
      fd := fd[x := v];
      ram.Store(FdOf(x), Number(v));
    }

    /** x->bk = v. */
    method SetBk(x: int, v: int)
      requires Mirrors()
      modifies `bk, ram
      ensures Mirrors() && bk == old(bk)[x := v] && StoredNext(base, old(ram.log), ram.log, BkOf(x))
    {
      hide LinksTold, StoredNext, Told;
      LinkTold(ram.log, TreeWords(), BkOf(x), v);
      OneStored(base, ram.log, BkOf(x), Number(v));
      bk := bk[x := v];
      ram.Store(BkOf(x), Number(v));
    }

    /** A treebin, or x->child[side], = v. */
    method SetSlot(c: Slot, v: int)
      requires Mirrors()
      modifies `slots, ram
      ensures Mirrors() && slots == old(slots)[c := v] && StoredNext(base, old(ram.log), ram.log, SlotOf(c))
    {
      hide LinksTold, StoredNext, Told;
      LinkTold(ram.log, TreeWords(), SlotOf(c), v);
      OneStored(base, ram.log, SlotOf(c), Number(v));
      slots := slots[c := v];
      ram.Store(SlotOf(c), Number(v));
    }

    /** x->parent = v. */
    method SetParent(x: int, v: int)
      requires Mirrors()
      modifies `par, ram
      ensures Mirrors() && par == old(par)[x := v] && StoredNext(base, old(ram.log), ram.log, ParentOf(x))
    {
      hide LinksTold, StoredNext, Told;
      LinkTold(ram.log, TreeWords(), ParentOf(x), v);
      OneStored(base, ram.log, ParentOf(x), Number(v));
      par := par[x := v];
      ram.Store(ParentOf(x), Number(v));
    }

    /** x->index = v. */
    method SetIndex(x: int, v: int)
      requires Mirrors()
      modifies `idx, ram
      ensures Mirrors() && idx == old(idx)[x := v] && StoredNext(base, old(ram.log), ram.log, IndexOf(x))
    {
      hide LinksTold, StoredNext, Told;
      LinkTold(ram.log, TreeWords(), IndexOf(x), v);
      OneStored(base, ram.log, IndexOf(x), Number(v));
      idx := idx[x := v];
      ram.Store(IndexOf(x), Number(v));
    }

    function TreeWords(): Words
      reads this
    {
      Words(slots, par, idx, fd, bk)
    }

    ghost predicate Valid()
      reads this
    {
      && SmallOk(base, bins, smallmap, fd, bk, binned)
      && TreeOk(base, forest, TreeWords(), treemap, binned)
    }

    /** One bin of init_bins, and the null that memset left in one treebin. */
    method InitBin(i: nat)
      requires Mirrors() && i < 32
      modifies `fd, `bk, `slots, ram
      ensures Mirrors() && fd == old(fd)[Header(base, i) := Header(base, i)]
        && bk == old(bk)[Header(base, i) := Header(base, i)] && slots == old(slots)[BinRoot(i) := 0]
      ensures LinksIn(base, old(ram.log), ram.log, map[]) && BinWritten(base, old(ram.log), ram.log, i)
    {
      hide LinkWord, LinksTold, Told, LinksIn, WroteIn, Since;
      StateWords(base, map[], i);
      NoneStored(base, ram.log, map[]);
      SetSlot(BinRoot(i), 0);
      var bin := Header(base, i);
      SetBk(bin, bin);
      SetFd(bin, bin);
    }

    /** B->fd = P, F->bk = P, P->fd = F, P->bk = B. */
    method LinkSecond(b: int, f: int, p: int, ghost binned1: map<int, int>)
      requires Mirrors() && LinkWord(base, binned1, FdOf(b)) && LinkWord(base, binned1, BkOf(f))
      requires LinkWord(base, binned1, FdOf(p)) && LinkWord(base, binned1, BkOf(p))
      modifies `fd, `bk, ram
      ensures Mirrors() && fd == old(fd)[b := p][p := f] && bk == old(bk)[f := p][p := b]
      ensures LinksIn(base, old(ram.log), ram.log, binned1) && Since(old(ram.log), ram.log)
      ensures WroteIn(old(ram.log), ram.log, FdOf(p)) && WroteIn(old(ram.log), ram.log, BkOf(p))
    {
      hide LinkWord, LinksTold, Told, LinksIn, WroteIn, Since;
      NoneStored(base, ram.log, binned1);
      SetFd(b, p);
      SetBk(f, p);
      SetFd(p, f);
      SetBk(p, b);
    }

    /** X->index = I, X->child[0] = X->child[1] = 0. */
    method StartNode(x: int, i: int, ghost binned1: map<int, int>)
      requires Mirrors() && TreeKey(binned1, x)
      modifies `slots, `idx, ram
      ensures Mirrors() && slots == old(slots)[ChildOf(x, 0) := 0][ChildOf(x, 1) := 0] && idx == old(idx)[x := i]
      ensures LinksIn(base, old(ram.log), ram.log, binned1) && NodeStarted(old(ram.log), ram.log, x)
    {
      hide LinkWord, LinksTold, Told, LinksIn, WroteIn, Since;
      NodeWords(base, binned1, x);
      NoneStored(base, ram.log, binned1);
      ghost var slots0 := slots;
      SetIndex(x, i);
      SetSlot(ChildOf(x, 1), 0);
      SetSlot(ChildOf(x, 0), 0);
      assert slots == slots0[ChildOf(x, 0) := 0][ChildOf(x, 1) := 0];
    }

    /** *C = X, X->parent = P, X->fd = X->bk = X. */
    method LinkNode(x: int, slot: Slot, parent: int, ghost binned1: map<int, int>)
      requires Mirrors() && TreeKey(binned1, x) && SlotKey(binned1, slot)
      modifies `fd, `bk, `slots, `par, ram
      ensures Mirrors() && fd == old(fd)[x := x] && bk == old(bk)[x := x] && slots == old(slots)[slot := x]
        && par == old(par)[x := parent]
      ensures LinksIn(base, old(ram.log), ram.log, binned1) && NodeLinked(old(ram.log), ram.log, x)
    {
      hide LinkWord, LinksTold, Told, LinksIn, WroteIn, Since;
      NodeWords(base, binned1, x);
      SlotIsLink(base, binned1, slot);
      NoneStored(base, ram.log, binned1);
      SetSlot(slot, x);
      SetParent(x, parent);
      SetBk(x, x);
      SetFd(x, x);
    }

    /** T->fd = F->bk = X, X->fd = F, X->bk = T, X->parent = 0. */
    method ChainNode(x: int, t: int, f: int, ghost binned1: map<int, int>)
      requires Mirrors() && TreeKey(binned1, x) && TreeKey(binned1, t) && TreeKey(binned1, f)
      modifies `fd, `bk, `par, ram
      ensures Mirrors() && fd == old(fd)[t := x][x := f] && bk == old(bk)[f := x][x := t] && par == old(par)[x := 0]
      ensures LinksIn(base, old(ram.log), ram.log, binned1) && NodeLinked(old(ram.log), ram.log, x)
    {
      hide LinkWord, LinksTold, Told, LinksIn, WroteIn, Since;
      NodeWords(base, binned1, x);
      NodeWords(base, binned1, t);
      NodeWords(base, binned1, f);
      NoneStored(base, ram.log, binned1);
      SetBk(f, x);
      SetFd(t, x);
      SetFd(x, f);
      SetBk(x, t);
      SetParent(x, 0);
    }

    /** insert_small_chunk. */
    method InsertSmallChunk(p: int, s: int, least: int)
      requires Valid() && Mirrors() && AddressesOk(base, least, binned)
      requires Fresh(p, binned) && OutsideState(base, p) && MIN_CHUNK_SIZE <= s < 256 && s % 8 == 0
      modifies `smallmap, `fd, `bk, `bins, `binned, ram
      ensures Valid() && binned == old(binned)[p := s]
      ensures Mirrors() && LinksIn(base, old(ram.log), ram.log, binned)
      ensures NodeWritten(old(ram.log), ram.log, p, s)
    {
      hide LinksTold, Told, LinksIn, LinkWord, WroteIn, Since, BinsOk, AllSmallBinned, AllOutside, ForestOk, MapMarks,
        Has, Or, Bit, And, Pow2;
      var i := s / 8;
      ghost var w, binned0 := TreeWords(), binned;
      InsertSmall(base, bins, smallmap, fd, bk, binned, p, i);
      MarkedMeans(smallmap, i);
      ghost var bins' := bins[i := InsertSecond(bins[i], p)];
      var b := Header(base, i);
      var f := b;
      if !IsMarked(smallmap, i) {
        smallmap := Or(32, smallmap, Bit(i));
      } else if fd[b] >= least {
        f := fd[b];
      } else {
        assert false; // CORRUPTION_ERROR_ACTION
      }
      InsertWords(base, binned[p := s], i, f, p);
      LinkSecond(b, f, p, binned[p := s]);
      bins := bins';
      binned := binned[p := s];
      InsertSmallFrame(w, binned0, fd, bk, p, s, b, f);
      ForestFrame(base, forest, w, binned0, fd, bk, binned);
    }

    /** unlink_small_chunk. */
    method UnlinkSmallChunk(p: int, s: int, least: int)
      requires Valid() && Mirrors() && AddressesOk(base, least, binned)
      requires p in binned && binned[p] == s < 256
      modifies `smallmap, `fd, `bk, `bins, `binned, ram
      ensures Valid() && binned == old(binned) - {p}
      ensures Mirrors() && LinksIn(base, old(ram.log), ram.log, old(binned))
    {
      hide LinksTold, Told, LinksIn, LinkWord, WroteIn, Since, BinsOk, AllSmallBinned, AllOutside, ForestOk, MapMarks,
        Has, Or, Bit, And, Not,
        Pow2, BinOk;
      ghost var j, k := FindSmall(base, bins, smallmap, fd, bk, binned, p);
      RemoveSmall(base, bins, smallmap, fd, bk, binned, p, j, k);
      ghost var w, binned0 := TreeWords(), binned;
      var f, b, i := fd[p], bk[p], s / 8;
      SpliceWords(base, binned, i, f, b);
      NoneStored(base, ram.log, binned);
      if f == b {
        smallmap := And(32, smallmap, Not(32, Bit(i)));
      } else if (f == Header(base, i) || f >= least) && (b == Header(base, i) || b >= least) {
        SetBk(f, b);
        SetFd(b, f);
      } else {
        assert false; // CORRUPTION_ERROR_ACTION
      }
      bins := bins[j := RemoveAt(bins[j], k)];
      binned := binned - {p};
      RemoveSmallFrame(w, binned0, fd, bk, p, f, b);
      ForestFrame(base, forest, w, binned0, fd, bk, binned);
    }

    /** unlink_first_small_chunk, for the first chunk of a marked bin. */
    method UnlinkFirstSmallChunk(i: nat, least: int) returns (p: int)
      requires Valid() && Mirrors() && AddressesOk(base, least, binned) && i < 32 && Has(smallmap, i)
      modifies `smallmap, `fd, `bk, `bins, `binned, ram
      ensures Valid() && p in old(binned) && old(binned)[p] == 8 * i && binned == old(binned) - {p}
      ensures Mirrors() && LinksIn(base, old(ram.log), ram.log, old(binned))
    {
      hide LinksTold, Told, LinksIn, LinkWord, WroteIn, Since, BinsOk, AllSmallBinned, AllOutside, ForestOk, MapMarks,
        Has, Or, Bit, And, Not,
        Pow2, BinOk;
      FirstSmall(base, bins, smallmap, fd, bk, binned, i);
      RemoveSmall(base, bins, smallmap, fd, bk, binned, bins[i][1], i, 1);
      ghost var w, binned0 := TreeWords(), binned;
      var b := Header(base, i);
      p := fd[b];
      var f := fd[p];
      SpliceWords(base, binned, i, f, b);
      NoneStored(base, ram.log, binned);
      if b == f {
        smallmap := And(32, smallmap, Not(32, Bit(i)));
      } else if f >= least {
        SetFd(b, f);
        SetBk(f, b);
      } else {
        assert false; // CORRUPTION_ERROR_ACTION
      }
      bins := bins[i := RemoveAt(bins[i], 1)];
      binned := binned - {p};
      RemoveSmallFrame(w, binned0, fd, bk, p, f, b);
      ForestFrame(base, forest, w, binned0, fd, bk, binned);
    }

    /** The descent of insert_large_chunk: to the node of size s, or to the empty slot on s's path. */
    method FindPlace(s: int, head: map<int, Head>) returns (t: int, side: int, same: bool, ghost d: nat)
      requires Valid() && SizesMatch(head, binned) && LargeSize(s) && TreeIndex(s) < 32 && Has(treemap, TreeIndex(s))
      ensures PosAt(s, d) in forest.at && t == Look(forest.at, Heads(forest.rings), PosAt(s, d))
      ensures same ==> s in forest.rings && |forest.rings[s]| > 0 && t == forest.rings[s][0]
      ensures !same ==> s !in forest.depth && d <= FirstBit(TreeIndex(s)) && side == Prefix(s, TreeIndex(s), d + 1) % 2
      ensures !same ==> PosAt(s, d + 1) !in forest.at
    {
      hide SmallOk, ForestOk, Has, Pow2, Look, Heads, Prefix, TreeIndex, Key, ShiftKey, TopBit;
      var i := TreeIndex(s);
      PosAtRoot(s);
      RootAt(base, forest, TreeWords(), binned, i);
      t := slots[BinRoot(i)];
      var k := Key(s, i, 0);
      d := 0;
      side := 0;
      assert Root(i) in forest.at;
      NodeAt(base, forest, TreeWords(), binned, Root(i));
      while head[t].size != s
        invariant PosAt(s, d) in forest.at && t == Look(forest.at, Heads(forest.rings), PosAt(s, d))
        invariant t in binned && binned[t] == forest.at[PosAt(s, d)] && t in head && head[t].size == binned[t]
        invariant k == Key(s, i, d)
        invariant s in forest.depth ==> d <= forest.depth[s]
        invariant d <= FirstBit(i) + 1
        decreases FirstBit(i) + 1 - d
      {
        DescentStep(forest.at, forest.depth, s, d);
        KeyBit(s, i, d);
        KeyStep(s, i, d);
        side := TopBit(k);
        k := ShiftKey(k);
        NodeAt(base, forest, TreeWords(), binned, PosAt(s, d));
        LookNull(base, forest, TreeWords(), binned, PosAt(s, d + 1));
        if slots[ChildOf(t, side)] != 0 {
          t := slots[ChildOf(t, side)];
          d := d + 1;
          NodeAt(base, forest, TreeWords(), binned, PosAt(s, d));
        } else {
          return t, side, false, d;
        }
      }
      same := true;
      NodeAt(base, forest, TreeWords(), binned, PosAt(s, d));
    }

    /** insert_large_chunk, case of an empty bin: x becomes its root. */
    method PlantRoot(x: int, s: int)
      requires Valid() && Mirrors() && Fresh(x, binned) && OutsideState(base, x) && LargeSize(s) && TreeIndex(s) < 32
        && !Has(treemap, TreeIndex(s))
      modifies `treemap, `fd, `bk, `slots, `par, `idx, `forest, `binned, ram
      ensures Valid() && binned == old(binned)[x := s]
      ensures Mirrors() && LinksIn(base, old(ram.log), ram.log, binned)
      ensures NodeWritten(old(ram.log), ram.log, x, s)
    {
      hide LinksTold, Told, LinksIn, LinkWord, WroteIn, Since, SlotAddr, SmallOk, ForestOk, Has, Pow2, Look, Heads,
        Prefix, TreeIndex, MapMarks, Or, Bit, PosAt,
        Trie, SlotTo, ParentPtr, AttachedWords;
      var i := TreeIndex(s);
      ghost var F, w := forest, TreeWords();
      ghost var slot, parent := AttachHere(base, F, w, binned, treemap, s, 0, x);
      treemap := Or(32, treemap, Bit(i));
      StartNode(x, i, binned[x := s]);
      ghost var l1 := ram.log;
      LinkNode(x, BinRoot(i), RootAddr(base, i), binned[x := s]);
      NodeDone(base, old(ram.log), l1, ram.log, x, s, binned[x := s]);
      IsAttached(w, TreeWords(), BinRoot(i), RootAddr(base, i), x, i);
      InsertAloneFrame(base, bins, smallmap, w.fd, w.bk, binned, x, s);
      forest := Forest(F.at[PosAt(s, 0) := s], F.depth[s := 0], F.rings[s := [x]]);
      binned := binned[x := s];
    }

    /** insert_large_chunk, case of a null child slot: x becomes a child of t. */
    method HangChild(x: int, s: int, t: int, side: int, least: int, ghost d: nat)
      requires Valid() && Mirrors() && AddressesOk(base, least, binned) && Fresh(x, binned) && OutsideState(base, x)
        && LargeSize(s)
        && TreeIndex(s) < 32
      requires PosAt(s, d) in forest.at && t == Look(forest.at, Heads(forest.rings), PosAt(s, d))
      requires s !in forest.depth && d <= FirstBit(TreeIndex(s)) && side == Prefix(s, TreeIndex(s), d + 1) % 2
      requires PosAt(s, d + 1) !in forest.at
      modifies `treemap, `fd, `bk, `slots, `par, `idx, `forest, `binned, ram
      ensures Valid() && binned == old(binned)[x := s]
      ensures Mirrors() && LinksIn(base, old(ram.log), ram.log, binned)
      ensures NodeWritten(old(ram.log), ram.log, x, s)
    {
      hide LinksTold, Told, LinksIn, LinkWord, WroteIn, Since, SlotAddr, SmallOk, ForestOk, Has, Pow2, Look, Heads,
        Prefix, TreeIndex, MapMarks, Or, Bit, PosAt,
        Trie, SlotTo, ParentPtr, AttachedWords;
      ghost var F, w := forest, TreeWords();
      ghost var slot, parent := AttachHere(base, F, w, binned, treemap, s, d + 1, x);
      NodeIsLarge(base, F, w, binned, PosAt(s, d));
      KeyPasses(base, binned, least, ChildOf(t, side));
      StartNode(x, TreeIndex(s), binned[x := s]);
      ghost var l1 := ram.log;
      if SlotAddr(base, ChildOf(t, side)) >= least {
        LinkNode(x, ChildOf(t, side), t, binned[x := s]);
      } else {
        assert false; // CORRUPTION_ERROR_ACTION
      }
      NodeDone(base, old(ram.log), l1, ram.log, x, s, binned[x := s]);
      IsAttached(w, TreeWords(), ChildOf(t, side), t, x, TreeIndex(s));
      InsertAloneFrame(base, bins, smallmap, w.fd, w.bk, binned, x, s);
      forest := Forest(F.at[PosAt(s, d + 1) := s], F.depth[s := d + 1], F.rings[s := [x]]);
      binned := binned[x := s];
    }

    /** insert_large_chunk, case of a node of the same size: x is linked off it. */
    method ChainBehind(x: int, s: int, t: int, least: int)
      requires Valid() && Mirrors() && AddressesOk(base, least, binned) && Fresh(x, binned) && OutsideState(base, x)
        && LargeSize(s)
      requires s in forest.rings && |forest.rings[s]| > 0 && t == forest.rings[s][0]
      modifies `treemap, `fd, `bk, `slots, `par, `idx, `forest, `binned, ram
      ensures Valid() && binned == old(binned)[x := s]
      ensures Mirrors() && LinksIn(base, old(ram.log), ram.log, binned)
      ensures NodeWritten(old(ram.log), ram.log, x, s)
    {
      hide LinksTold, Told, LinksIn, LinkWord, WroteIn, Since, SmallOk, ForestOk, Has, Pow2, TreeIndex, MapMarks,
        InsertSecond, Linked, RingsOk;
      ghost var F, w := forest, TreeWords();
      ChainForest(base, F, w, binned, s, x);
      RingNeighbours(base, F, w, binned, s);
      StartNode(x, TreeIndex(s), binned[x := s]);
      ghost var l1 := ram.log;
      var f := fd[t];
      if t >= least && f >= least {
        ChainNode(x, t, f, binned[x := s]);
      } else {
        assert false; // CORRUPTION_ERROR_ACTION
      }
      NodeDone(base, old(ram.log), l1, ram.log, x, s, binned[x := s]);
      InsertChainedFrame(base, bins, smallmap, w.fd, w.bk, binned, x, s, t, f);
      assert TreeWords() == ChainedWords(w, t, f, x, TreeIndex(s));
      forest := F.(rings := F.rings[s := InsertSecond(F.rings[s], x)]);
      binned := binned[x := s];
    }

    /** insert_large_chunk. */
    method InsertLargeChunk(x: int, s: int, head: map<int, Head>, least: int)
      requires Valid() && Mirrors() && AddressesOk(base, least, binned) && SizesMatch(head, binned)
      requires Fresh(x, binned) && OutsideState(base, x) && LargeSize(s)
      modifies `treemap, `fd, `bk, `slots, `par, `idx, `forest, `binned, ram
      ensures Valid() && binned == old(binned)[x := s]
      ensures Mirrors() && LinksIn(base, old(ram.log), ram.log, binned)
      ensures NodeWritten(old(ram.log), ram.log, x, s)
    {
      hide LinksTold, Told, LinksIn, LinkWord, WroteIn, Since, SlotKey, SlotAddr, NodesBinned, SmallOk, ForestOk, Has,
        Pow2, Look, Heads, Prefix,
        TreeIndex, MapMarks, PosAt, And, Bit;
      PosAtRoot(s);
      MarkedMeans(treemap, TreeIndex(s));
      if !IsMarked(treemap, TreeIndex(s)) {
        PlantRoot(x, s);
      } else {
        var t, side, same, d := FindPlace(s, head);
        if !same {
          HangChild(x, s, t, side, least, d);
        } else {
          ChainBehind(x, s, t, least);
        }
      }
    }

    /** The walk of unlink_large_chunk to the rightmost descendant of x, preferring right children. */
    method FindLeaf(x: int, ghost s: int) returns (r: int, rp: Slot, ghost u: int)
      requires Valid() && s in forest.rings && s in forest.depth && 0 <= s && PosAt(s, forest.depth[s]) in forest.at
        && forest.at[PosAt(s, forest.depth[s])] == s
      requires x == Look(forest.at, Heads(forest.rings), PosAt(s, forest.depth[s]))
      ensures r == 0 <==> Leaf(forest.at, PosAt(s, forest.depth[s]))
      ensures r != 0 ==>
        u in forest.rings && u in forest.depth && 0 <= u && |forest.rings[u]| > 0 && r == forest.rings[u][0]
      ensures r != 0 ==> forest.depth[s] < forest.depth[u] && PosAt(u, forest.depth[s]) == PosAt(s, forest.depth[s])
      ensures r != 0 ==>
        Leaf(forest.at, PosAt(u, forest.depth[u]))
        && rp == SlotTo(forest.at, Heads(forest.rings), PosAt(u, forest.depth[u]))
    {
      hide SmallOk, ForestOk, Pow2, Look, Heads, Prefix, TreeIndex, PosAt, MapMarks;
      ghost var F, w := forest, TreeWords();
      ghost var p := PosAt(s, F.depth[s]);
      NodeAt(base, F, w, binned, p);
      LookNull(base, F, w, binned, Child(p, 0));
      LookNull(base, F, w, binned, Child(p, 1));
      u := s;
      rp := ChildOf(x, 1);
      r := slots[rp];
      if r == 0 {
        rp := ChildOf(x, 0);
        r := slots[rp];
      }
      if r != 0 {
        ghost var q := Child(p, if rp.side == 1 then 1 else 0);
        u := LeafStep(base, F, w, binned, s, s, q);
        var cp := ChildOf(r, 1);
        if slots[cp] == 0 { cp := ChildOf(r, 0); }
        while slots[cp] != 0
          invariant u in F.rings && u in F.depth && 0 <= u && q in F.at && F.at[q] == u && q == PosAt(u, F.depth[u])
            && |F.rings[u]| > 0
          invariant r == Look(F.at, Heads(F.rings), q) && r == F.rings[u][0]
          invariant F.depth[s] < F.depth[u] <= FirstBit(q.bin) + 1 && q.bin == p.bin && PosAt(u, F.depth[s]) == p
          invariant rp == SlotTo(F.at, Heads(F.rings), q)
          invariant cp == ChildOf(r, 0) || cp == ChildOf(r, 1)
          invariant ChildOf(r, 0) in slots && ChildOf(r, 1) in slots
          invariant cp == ChildOf(r, 0) <==> slots[ChildOf(r, 1)] == 0
          decreases FirstBit(p.bin) + 1 - F.depth[u]
        {
          NodeAt(base, F, w, binned, q);
          ghost var q' := Child(q, cp.side);
          LookNull(base, F, w, binned, q');
          u := LeafStep(base, F, w, binned, s, u, q');
          r := slots[cp];
          rp := cp;
          q := q';
          cp := ChildOf(r, 1);
          if slots[cp] == 0 { cp := ChildOf(r, 0); }
        }
        NodeAt(base, F, w, binned, q);
        LookNull(base, F, w, binned, Child(q, 0));
        LookNull(base, F, w, binned, Child(q, 1));
      }
    }

    /** R->child[side] = C, C->parent = R, unless C is null. */
    method AdoptChild(r: int, c: int, side: int, least: int, ghost l0: seq<Event>)
      requires Mirrors() && LinksIn(base, l0, ram.log, binned) && 0 <= side < 2
      requires ChildOf(r, side) in slots && slots[ChildOf(r, side)] == 0 && (c != 0 ==> least <= c)
      requires c != 0 ==> LinkWord(base, binned, SlotOf(ChildOf(r, side))) && LinkWord(base, binned, ParentOf(c))
      modifies `slots, `par, ram
      ensures Mirrors() && LinksIn(base, l0, ram.log, binned)
      ensures slots == old(slots)[ChildOf(r, side) := c] && par == if c != 0 then old(par)[c := r] else old(par)
    {
      hide LinksTold, Told, LinksIn, LinkWord, WroteIn, Since;
      if c != 0 {
        if c >= least {
          SetSlot(ChildOf(r, side), c);
          SetParent(c, r);
        } else {
          assert false; // CORRUPTION_ERROR_ACTION
        }
      }
      assert slots == old(slots)[ChildOf(r, side) := c];
    }

    /** The slot that leads to x gets r, in a treebin or in the child of xp that x is. */
    method SetPlace(x: int, xp: int, r: int, least: int, ghost at: map<Pos, int>, ghost depth: map<int, nat>,
                    ghost node: map<int, int>, ghost s: int, ghost l0: seq<Event>)
      requires Mirrors() && LinksIn(base, l0, ram.log, binned)
      requires Linked(at, depth, node, base, slots, par) && 0 < base
      requires s in depth && 0 <= s && s in node && node[s] == x && x in par && par[x] == xp && x in idx
        && idx[x] == TreeIndex(s) < 32
      requires forall t {:trigger node[t]} :: t in node ==> least <= node[t]
      requires LinkWord(base, binned, SlotOf(SlotTo(at, node, PosAt(s, depth[s]))))
      modifies `slots, `treemap, ram
      ensures Mirrors() && LinksIn(base, l0, ram.log, binned)
      ensures var p := PosAt(s, depth[s]);
        && slots == old(slots)[SlotTo(at, node, p) := r]
        && treemap ==
           (if r == 0 && p.depth == 0 then And(32, old(treemap), Not(32, Bit(TreeIndex(s)))) else old(treemap))
    {
      hide LinksTold, Told, LinksIn, LinkWord, WroteIn, Since, Prefix, TreeIndex, PosAt, And, Not, Bit, Trie, Look;
      var h := BinRoot(idx[x]);
      SlotHolds(at, depth, node, base, slots, par, s);
      if x == slots[h] {
        SetSlot(h, r);
        if r == 0 { treemap := And(32, treemap, Not(32, Bit(idx[x]))); }
      } else if xp >= least {
        if slots[ChildOf(xp, 0)] == x {
          SetSlot(ChildOf(xp, 0), r);
        } else {
          SetSlot(ChildOf(xp, 1), r);
        }
      } else {
        assert false; // CORRUPTION_ERROR_ACTION
      }
    }

    /** The relinking half of unlink_large_chunk: r (or null) takes x's place under xp.  The ghost
        arguments are the tree as it is once the replacement leaf has been cut off. */
    method Relink(x: int, xp: int, r: int, least: int, ghost at: map<Pos, int>, ghost depth: map<int, nat>,
                  ghost node: map<int, int>, ghost s: int, ghost l0: seq<Event>)
      requires Mirrors() && LinksIn(base, l0, ram.log, binned)
      requires Linked(at, depth, node, base, slots, par) && 0 < base
      requires s in depth && 0 <= s && s in node && node[s] == x && x in par && par[x] == xp && x in idx
        && idx[x] == TreeIndex(s) < 32
      requires r == 0 ==> Leaf(at, PosAt(s, depth[s]))
      requires r != 0 ==>
        ChildOf(r, 0) in slots && slots[ChildOf(r, 0)] == 0 && ChildOf(r, 1) in slots && slots[ChildOf(r, 1)] == 0
      requires r != 0 ==> forall t {:trigger node[t]} :: t in node ==> node[t] != r
      requires least <= r || r == 0
      requires forall t {:trigger node[t]} :: t in node ==> least <= node[t]
      requires NodesBinned(node, binned) && SlotKey(binned, SlotTo(at, node, PosAt(s, depth[s])))
        && (r != 0 ==> TreeKey(binned, r))
      modifies `slots, `par, `treemap, ram
      ensures Mirrors() && LinksIn(base, l0, ram.log, binned)
      ensures var p := PosAt(s, depth[s]);
        && (r != 0 ==>
           slots == ReplacedSlots(at, node, p, r, old(slots)) && par == ReplacedParents(at, node, p, r, xp, old(par)))
        && (r == 0 ==> slots == old(slots)[SlotTo(at, node, p) := 0] && par == old(par))
        && treemap ==
           (if r == 0 && p.depth == 0 then And(32, old(treemap), Not(32, Bit(TreeIndex(s)))) else old(treemap))
    {
      hide LinksTold, Told, LinksIn, LinkWord, WroteIn, Since, NodesBinned, TreeKey, Prefix, TreeIndex, PosAt, And, Not,
        Bit, Trie, Look;
      ghost var p := PosAt(s, depth[s]);
      SlotHolds(at, depth, node, base, slots, par, s);
      LookPasses(at, node, least, Child(p, 0));
      LookPasses(at, node, least, Child(p, 1));
      RelinkWords(base, at, node, binned, p, r);
      SetPlace(x, xp, r, least, at, depth, node, s, l0);
      if r != 0 {
        if r >= least {
          SetParent(r, xp);
          AdoptChild(r, slots[ChildOf(x, 0)], 0, least, l0);
          AdoptChild(r, slots[ChildOf(x, 1)], 1, least, l0);
        } else {
          assert false; // CORRUPTION_ERROR_ACTION
        }
      }
    }

    /** unlink_large_chunk of a chunk that shares its size with others. */
    method UnlinkFromRing(x: int, least: int, ghost s: int, ghost k: nat)
      requires Valid() && Mirrors() && AddressesOk(base, least, binned)
      requires x in binned && s in forest.rings && k < |forest.rings[s]| && forest.rings[s][k] == x
        && 2 <= |forest.rings[s]|
      modifies `treemap, `fd, `bk, `slots, `par, `forest, `binned, ram
      ensures Valid() && binned == old(binned) - {x}
      ensures Mirrors() && LinksIn(base, old(ram.log), ram.log, old(binned))
    {
      hide LinksTold, Told, LinksIn, LinkWord, WroteIn, Since, SlotKey, SlotAddr, NodesBinned, SmallOk, ForestOk, Has,
        Pow2, Look, Heads, Prefix,
        TreeIndex, MapMarks, PosAt, And, Bit, Linked, RingOk, Leaf, SlotTo;
      hide ReplacedSlots, ReplacedParents;
      ghost var F, w := forest, TreeWords();
      RingFacts(base, F, w, binned, s, k);
      var xp := par[x];
      var f := fd[x];
      var r := bk[x];
      SpliceWords(base, binned, 0, f, r);
      NoneStored(base, ram.log, binned);
      ghost var l0 := ram.log;
      if f >= least {
        SetBk(f, r);
        SetFd(r, f);
      } else {
        assert false; // CORRUPTION_ERROR_ACTION
      }
      UnlinkLargeFrame(base, bins, smallmap, w.fd, w.bk, binned, fd, bk, x, f, r);
      ghost var w1 := TreeWords();
      if xp != 0 {
        PromoteForest(base, F, w, binned, s);
        RelinkReady(base, F, w, binned, s, r, least);
        RelinkKeys(base, F, w, binned, s, s);
        Relink(x, xp, r, least, F.at, F.depth, Heads(F.rings), s, l0);
        assert TreeWords() == w1.(slots := slots, par := par);
        forest := F.(rings := F.rings[s := Rotate(RemoveAt(F.rings[s], 0))]);
      } else {
        UnchainForest(base, F, w, binned, s, k);
        forest := F.(rings := F.rings[s := RemoveAt(F.rings[s], k)]);
      }
      binned := binned - {x};
    }

    /** unlink_large_chunk of the only chunk of its size. */
    method UnlinkSingle(x: int, least: int, ghost s: int)
      requires Valid() && Mirrors() && AddressesOk(base, least, binned)
      requires x in binned && s in forest.rings && forest.rings[s] == [x]
      modifies `treemap, `fd, `bk, `slots, `par, `forest, `binned, ram
      ensures Valid() && binned == old(binned) - {x}
      ensures Mirrors() && LinksIn(base, old(ram.log), ram.log, old(binned))
    {
      hide LinksTold, Told, LinksIn, LinkWord, WroteIn, Since, SlotKey, SlotAddr, NodesBinned, SmallOk, ForestOk, Has,
        Pow2, Look, Heads, Prefix,
        TreeIndex, MapMarks, PosAt, And, Bit, Not, Linked, RingOk, Leaf, SlotTo, Trie;
      hide ReplacedSlots, ReplacedParents;
      ghost var F, w := forest, TreeWords();
      RingFacts(base, F, w, binned, s, 0);
      ParentIsNode(F, w, binned, base, s);
      NodeAt(base, F, w, binned, PosAt(s, F.depth[s]));
      var xp := par[x];
      var r, rp, u := FindLeaf(x, s);
      ghost var l0 := ram.log;
      NoneStored(base, l0, binned);
      UnlinkLargeFrame(base, bins, smallmap, w.fd, w.bk, binned, fd, bk, x, x, x);
      if r != 0 {
        CutReady(base, F, w, binned, s, u, least);
        RelinkKeys(base, F, w, binned, s, u);
        KeyPasses(base, binned, least, rp);
        SlotIsLink(base, binned, rp);
        if SlotAddr(base, rp) >= least {
          SetSlot(rp, 0);
        } else {
          assert false; // CORRUPTION_ERROR_ACTION
        }
        ghost var w1 := TreeWords();
        assert w1 == w.(slots := w.slots[rp := 0]);
        Relink(x, xp, r, least, F.at - {PosAt(u, F.depth[u])}, F.depth - {u}, Heads(F.rings) - {u}, s, l0);
        assert TreeWords() == w1.(slots := slots, par := par);
        SubstituteForest(base, F, w, binned, s, u);
        SubstituteMarks(F, treemap, s, u);
        forest := SubstitutedForest(F, s, u);
      } else {
        PruneReady(base, F, w, binned, s, least);
        RelinkKeys(base, F, w, binned, s, s);
        Relink(x, xp, 0, least, F.at, F.depth, Heads(F.rings), s, l0);
        assert TreeWords() == w.(slots := slots);
        PruneForest(base, F, w, binned, s);
        PruneMarks(F.at, old(treemap), s, F.depth[s]);
        forest := Forest(F.at - {PosAt(s, F.depth[s])}, F.depth - {s}, F.rings - {s});
        AndBound(old(treemap), Not(32, Bit(TreeIndex(s))));
      }
      binned := binned - {x};
    }

    /** unlink_large_chunk. */
    method UnlinkLargeChunk(x: int, least: int)
      requires Valid() && Mirrors() && AddressesOk(base, least, binned)
      requires x in binned && 256 <= binned[x]
      modifies `treemap, `fd, `bk, `slots, `par, `forest, `binned, ram
      ensures Valid() && binned == old(binned) - {x}
      ensures Mirrors() && LinksIn(base, old(ram.log), ram.log, old(binned))
    {
      hide LinksTold, Told, LinksIn, LinkWord, WroteIn, Since, SmallOk, Heads, TreeIndex, MapMarks, Linked, RingOk,
        RingsOk, Pow2;
      ghost var s, k := FindLarge(base, forest, TreeWords(), binned, x);
      RingFacts(base, forest, TreeWords(), binned, s, k);
      if bk[x] != x {
        UnlinkFromRing(x, least, s, k);
      } else {
        UnlinkSingle(x, least, s);
      }
    }

    /** insert_chunk. */
    method InsertChunk(p: int, s: int, head: map<int, Head>, least: int)
      requires Valid() && Mirrors() && AddressesOk(base, least, binned) && SizesMatch(head, binned)
      requires Fresh(p, binned) && OutsideState(base, p) && MIN_CHUNK_SIZE <= s < SIZE_T_RANGE && s % 8 == 0
      modifies `smallmap, `treemap, `fd, `bk, `slots, `par, `idx, `bins, `forest, `binned, ram
      ensures Valid() && binned == old(binned)[p := s]
      ensures Mirrors() && LinksIn(base, old(ram.log), ram.log, binned)
      ensures NodeWritten(old(ram.log), ram.log, p, s)
    {
      hide LinksTold, Told, LinksIn, LinkWord, WroteIn, Since, SmallOk, TreeOk;
      if IsSmall(s) {
        InsertSmallChunk(p, s, least);
      } else {
        InsertLargeChunk(p, s, head, least);
      }
    }

    /** unlink_chunk. */
    method UnlinkChunk(p: int, s: int, least: int)
      requires Valid() && Mirrors() && AddressesOk(base, least, binned)
      requires p in binned && binned[p] == s
      modifies `smallmap, `treemap, `fd, `bk, `slots, `par, `bins, `forest, `binned, ram
      ensures Valid() && binned == old(binned) - {p}
      ensures Mirrors() && LinksIn(base, old(ram.log), ram.log, old(binned))
    {
      hide LinksTold, Told, LinksIn, LinkWord, WroteIn, Since, SmallOk, TreeOk;
      if IsSmall(s) {
        UnlinkSmallChunk(p, s, least);
      } else {
        UnlinkLargeChunk(p, least);
      }
    }

    /** v is null and rsize is -nb, or v is a binned chunk rsize bytes larger than nb. */
    ghost predicate BestSoFar(nb: int, v: int, rsize: int)
      reads this
    {
      if v == 0 then rsize == SIZE_T_RANGE - nb
        else v in binned && binned[v] == nb + rsize && 0 <= rsize <= SIZE_T_RANGE - nb
    }

    /** The last loop of tmalloc_large: the smallest chunk of the tree or subtree at t. */
    method WalkLeft(t0: int, nb: int, v0: int, rsize0: int, head: map<int, Head>, ghost bin: nat, ghost p0: Pos)
      returns (v: int, rsize: int)
      requires Valid() && SizesMatch(head, binned) && 0 < nb < SIZE_T_RANGE && BestSoFar(nb, v0, rsize0)
      requires t0 != 0 ==> p0 in forest.at && t0 == Look(forest.at, Heads(forest.rings), p0)
      requires Pending(forest.depth, nb, rsize0, bin, t0 != 0, p0)
      ensures BestSoFar(nb, v, rsize) && BestInBin(forest.depth, nb, rsize, bin) && rsize <= rsize0
      ensures v == v0 || (v in binned && 256 <= binned[v])
    {
      hide SmallOk, ForestOk, Pow2, Look, Heads, TreeIndex, MapMarks, Pending;
      v, rsize := v0, rsize0;
      var t := t0;
      ghost var p := p0;
      if t != 0 { NodeAt(base, forest, TreeWords(), binned, p); }
      while t != 0
        invariant t != 0 ==>
          p in forest.at && t == Look(forest.at, Heads(forest.rings), p) && p.depth <= FirstBit(p.bin) + 1
        invariant t != 0 ==> p.bin == p0.bin
        invariant t != 0 ==> t in binned && binned[t] == forest.at[p] && 256 <= binned[t] < SIZE_T_RANGE
        invariant BestSoFar(nb, v, rsize) && rsize <= rsize0 && (v == v0 || (v in binned && 256 <= binned[v]))
        invariant Pending(forest.depth, nb, rsize, bin, t != 0, p)
        decreases t != 0, FirstBit(p0.bin) + 1 - p.depth
      {
        var trem := (head[t].size - nb) % SIZE_T_RANGE;
        TremMeans(head[t].size, nb);
        ghost var best := rsize;
        if trem < rsize {
          rsize := trem;
          v := t;
        }
        BestMono(forest.depth, nb, best, rsize, bin, true, p);
        NodeAt(base, forest, TreeWords(), binned, p);
        StepWalk(forest.at, forest.depth, nb, rsize, bin, p);
        LookNull(base, forest, TreeWords(), binned, Child(p, 0));
        LookNull(base, forest, TreeWords(), binned, Child(p, 1));
        p := LeftChild(forest.at, p);
        t := if slots[ChildOf(t, 0)] != 0 then slots[ChildOf(t, 0)] else slots[ChildOf(t, 1)];
        if t != 0 { NodeAt(base, forest, TreeWords(), binned, p); }
      }
      WalkDone(forest.depth, nb, rsize, bin, p);
    }

    /** The first loop of tmalloc_large: along nb's bits, remembering the deepest untaken right subtree. */
    method FollowPath(nb: int, head: map<int, Head>) returns (v: int, rsize: int, t: int, ghost p: Pos)
      requires Valid() && SizesMatch(head, binned) && LargeSize(nb) && TreeIndex(nb) < 32
      ensures BestSoFar(nb, v, rsize) && (v != 0 ==> LargeSize(nb + rsize) && TreeIndex(nb + rsize) == TreeIndex(nb))
      ensures t != 0 ==> p in forest.at && t == Look(forest.at, Heads(forest.rings), p) && p.bin == TreeIndex(nb)
      ensures t != 0 && v == 0 ==> nb <= forest.at[p]
      ensures Pending(forest.depth, nb, rsize, TreeIndex(nb), t != 0, p)
    {
      hide SmallOk, ForestOk, Pow2, Look, Heads, Prefix, TreeIndex, MapMarks, Key, ShiftKey, TopBit, Ahead, OnPath,
        AllFit, PosAt, Trie;
      var i := TreeIndex(nb);
      v := 0;
      rsize := (0 - nb) % SIZE_T_RANGE;
      NegMeans(nb);
      PosAtRoot(nb);
      RootAt(base, forest, TreeWords(), binned, i);
      LookNull(base, forest, TreeWords(), binned, Root(i));
      t := slots[BinRoot(i)];
      p := Root(i);
      TrieOf(base, forest, TreeWords(), binned);
      if t == 0 {
        EmptyBin(forest.at, forest.depth, nb, rsize, i);
      } else {
        var sizebits := Key(nb, i, 0);
        var rst := 0;
        ghost var d, q := 0, p;
        PathStart(forest.at, forest.depth, nb, rsize, q);
        while true
          invariant p == PosAt(nb, d) && p.bin == i && p in forest.at && t == Look(forest.at, Heads(forest.rings), p)
          invariant d <= FirstBit(i) + 1 && sizebits == Key(nb, i, d)
          invariant BestSoFar(nb, v, rsize) && rsize > 0
            && (v != 0 ==> LargeSize(nb + rsize) && TreeIndex(nb + rsize) == TreeIndex(nb))
          invariant rst != 0 ==> Passed(forest.at, nb, d, q) && rst == Look(forest.at, Heads(forest.rings), q)
          invariant OnPath(forest.depth, nb, rsize, p, rst != 0, q)
          decreases FirstBit(i) + 1 - d
        {
          NodeAt(base, forest, TreeWords(), binned, p);
          var trem := (head[t].size - nb) % SIZE_T_RANGE;
          TremMeans(head[t].size, nb);
          ghost var best := rsize;
          if trem < rsize {
            v := t;
            rsize := trem;
            if rsize == 0 {
              BestIsZero(forest.depth, nb, i);
              return;
            }
          }
          assert v != 0 ==> LargeSize(nb + rsize) && TreeIndex(nb + rsize) == i;
          PathMono(forest.depth, nb, best, rsize, p, rst != 0, q);
          if forest.at[p] != nb { FullDepth(forest.at, forest.depth, nb, d); }
          ghost var some', q' := PathStep(forest.at, forest.depth, nb, rsize, d, rst != 0, q);
          KeyBit(nb, i, d);
          KeyStep(nb, i, d);
          LookNull(base, forest, TreeWords(), binned, Child(p, 0));
          LookNull(base, forest, TreeWords(), binned, Child(p, 1));
          LookDiffer(base, forest, TreeWords(), binned, p);
          var rt := slots[ChildOf(t, 1)];
          t := slots[ChildOf(t, TopBit(sizebits))];
          if rt != 0 && rt != t {
            rst := rt;
          }
          q := q';
          p := PosAt(nb, d + 1);
          d := d + 1;
          if t == 0 {
            t := rst;
            if t != 0 {
              PassedFits(forest.at, forest.depth, nb, d, q);
              OccupantFits(forest.at, forest.depth, nb, q);
            }
            p := q;
            return;
          }
          NodeAt(base, forest, TreeWords(), binned, p);
          sizebits := ShiftKey(sizebits);
        }
      }
    }

    /** The search of tmalloc_large: the smallest tree chunk of at least nb bytes, or null. */
    method SearchLarge(nb: int, head: map<int, Head>) returns (v: int, rsize: int)
      requires Valid() && SizesMatch(head, binned) && LargeSize(nb)
      ensures BestSoFar(nb, v, rsize) && (v != 0 ==> 256 <= binned[v])
      ensures forall x {:trigger binned[x]} ::
        x in binned && nb <= binned[x] ==> v != 0 && nb + rsize <= binned[x] < SIZE_T_RANGE
    {
      hide SmallOk, ForestOk, Pow2, Look, Heads, TreeIndex, Pending, BestInBin, Has, And, Bit, LeastBit, LeftBits, Trie,
        Prefix, PosAt;
      PosAtRoot(nb);
      TrieOf(base, forest, TreeWords(), binned);
      var idx := TreeIndex(nb);
      var t;
      ghost var p;
      v, rsize, t, p := FollowPath(nb, head);
      ghost var bin, s := idx, 0;
      if t == 0 && v == 0 {
        WalkDone(forest.depth, nb, rsize, idx, p);
        var leftbits := And(32, LeftBits(Bit(idx)), treemap);
        if leftbits != 0 {
          var i := Bit2Idx(LeastBit(leftbits));
          NextMarked(treemap, idx, i);
          RootAt(base, forest, TreeWords(), binned, i);
          NodeAt(base, forest, TreeWords(), binned, Root(i));
          t := slots[BinRoot(i)];
          p := Root(i);
          bin := i;
          AheadOfRoot(forest.at, forest.depth, nb, rsize, i);
          HigherFits(forest.at, forest.depth, nb, i);
          AheadIsPending(forest.depth, nb, rsize, p);
        } else {
          NoneAfter(forest.at, treemap, idx);
          AllBest(base, forest, TreeWords(), binned, nb, rsize, idx, 0);
          return;
        }
      } else {
        s := nb + rsize;
      }
      if v == 0 {
        NodeAt(base, forest, TreeWords(), binned, p);
        s := forest.at[p];
        if bin != idx { OccupantFits(forest.at, forest.depth, nb, p); }
      }
      ghost var best := rsize;
      v, rsize := WalkLeft(t, nb, v, rsize, head, bin, p);
      if bin != idx { BestLess(forest.depth, nb, best, rsize, idx); }
      BestOf(forest.depth, nb, rsize, bin, s);
      AllBest(base, forest, TreeWords(), binned, nb, rsize, bin, s);
    }

    /** The search of tmalloc_small: the smallest tree chunk, for a request smaller than all of them. */
    method SearchSmall(nb: int, head: map<int, Head>) returns (v: int, rsize: int)
      requires Valid() && SizesMatch(head, binned) && 0 < nb < 256 && treemap != 0
      ensures v in binned && binned[v] == nb + rsize && 256 <= binned[v]
      ensures forall x {:trigger binned[x]} :: x in binned && 256 <= binned[x] ==> binned[v] <= binned[x]
    {
      hide SmallOk, ForestOk, Pow2, Look, Heads, TreeIndex, Pending, BestInBin, Has, And, Bit, LeastBit, Trie, Prefix,
        PosAt;
      TrieOf(base, forest, TreeWords(), binned);
      var i := Bit2Idx(LeastBit(treemap));
      LeastMarked(treemap, i);
      RootAt(base, forest, TreeWords(), binned, i);
      ghost var p := Root(i);
      NodeAt(base, forest, TreeWords(), binned, p);
      var t := slots[BinRoot(i)];
      v := t;
      rsize := head[t].size - nb;
      ghost var s := forest.at[p];
      AheadOfRoot(forest.at, forest.depth, nb, rsize, i);
      HigherFits(forest.at, forest.depth, nb, i);
      AheadIsPending(forest.depth, nb, rsize, p);
      StepWalk(forest.at, forest.depth, nb, rsize, i, p);
      LookNull(base, forest, TreeWords(), binned, Child(p, 0));
      LookNull(base, forest, TreeWords(), binned, Child(p, 1));
      p := LeftChild(forest.at, p);
      t := if slots[ChildOf(t, 0)] != 0 then slots[ChildOf(t, 0)] else slots[ChildOf(t, 1)];
      v, rsize := WalkLeft(t, nb, v, rsize, head, i, p);
      AllBestSmall(base, forest, TreeWords(), binned, nb, rsize, i, s);
    }

    lemma SmallBelow(idx: nat, i: nat)
      requires Valid() && And(32, Shr(smallmap, idx), 3) != 0 && i == idx + And(32, Not(32, Shr(smallmap, idx)), 1)
      ensures i < 32 && Has(smallmap, i) && idx <= i <= idx + 1 && SmallFrom(binned, idx, i)
    {
      hide And, Not, Shr, Has, Pow2, TreeOk, BinsOk, AllSmallBinned, AllOutside;
      WindowHit(smallmap, idx);
      UnmarkedBins(base, bins, smallmap, fd, bk, binned, idx, i);
    }

    lemma SmallMissed(idx: nat)
      requires Valid() && And(32, Shr(smallmap, idx), 3) == 0
      ensures NoneNearBinned(binned, 8 * idx)
    {
      hide And, Not, Shr, Has, Pow2, TreeOk, BinsOk, AllSmallBinned, AllOutside;
      Window(smallmap, idx);
      UnmarkedBins(base, bins, smallmap, fd, bk, binned, idx, idx + 2);
    }

    lemma SmallNext(idx: nat, i: nat)
      requires Valid() && idx < 32 && And(32, Shr(smallmap, idx), 3) == 0 && Shr(smallmap, idx) != 0
      requires i == Bit2Idx(LeastBit(And(32, Shl(32, Shr(smallmap, idx), idx), LeftBits(Bit(idx)))))
      ensures idx + 2 <= i < 32 && Has(smallmap, i) && SmallFrom(binned, idx, i)
    {
      hide And, Not, Shr, Shl, Has, Pow2, LeftBits, Bit, LeastBit, TreeOk, BinsOk, AllSmallBinned, AllOutside;
      WindowNext(smallmap, idx);
      UnmarkedBins(base, bins, smallmap, fd, bk, binned, idx, i);
    }

    lemma SmallNone(idx: nat)
      requires Valid() && Shr(smallmap, idx) == 0
      ensures SmallFrom(binned, idx, 32)
    {
      hide Shr, Has, Pow2, TreeOk, BinsOk, AllSmallBinned, AllOutside;
      WindowEmpty(smallmap, idx);
      UnmarkedBins(base, bins, smallmap, fd, bk, binned, idx, 32);
    }

    lemma NoneLarge()
      requires Valid() && treemap == 0
      ensures NoneBinned(binned, 256)
    {
      hide TreeOk, SmallOk;
      NoTrees(base, forest, TreeWords(), treemap, binned);
    }
  }

  ghost predicate BinnedAs(binned: map<int, int>, p: int, s: int) {
    p in binned && binned[p] == s
  }

  /** No binned chunk has at least low and less than high bytes. */
  ghost predicate NoneBetween(binned: map<int, int>, low: int, high: int) {
    forall x {:trigger binned[x]} :: x in binned && low <= binned[x] ==> high <= binned[x]
  }

  /** No chunk of a small bin has nb bytes or the next size up. */
  ghost predicate NoneNearBinned(binned: map<int, int>, nb: int) {
    forall x {:trigger binned[x]} :: x in binned && nb <= binned[x] < 256 ==> nb + 8 < binned[x]
  }

  /** Chunk p is the smallest of those in the bins that have room for nb bytes. */
  ghost predicate SmallestBinned(binned: map<int, int>, p: int, nb: int) {
    p in binned && nb <= binned[p] && forall x {:trigger binned[x]} ::
      x in binned && nb <= binned[x] ==> binned[p] <= binned[x]
  }

  ghost predicate NoneBinned(binned: map<int, int>, nb: int) {
    forall x {:trigger binned[x]} :: x in binned ==> binned[x] < nb
  }

  /** No small chunk has its size in bins idx to i - 1. */
  ghost predicate SmallFrom(binned: map<int, int>, idx: nat, i: nat) {
    forall x {:trigger binned[x]} :: x in binned && 8 * idx <= binned[x] < 256 ==> 8 * i <= binned[x]
  }

  lemma UnmarkedBins(base: int, bins: seq<seq<int>>, smallmap: nat, fd: map<int, int>, bk: map<int, int>,
                     binned: map<int, int>, idx: nat, i: nat)
    requires SmallOk(base, bins, smallmap, fd, bk, binned) && forall j: nat :: idx <= j < i ==> !Has(smallmap, j)
    ensures SmallFrom(binned, idx, i)
  {
    hide SmallOk, BinOk, Has;
    forall x {:trigger binned[x]} | x in binned && 8 * idx <= binned[x] < 256 ensures 8 * i <= binned[x] {
      var j, k := FindSmall(base, bins, smallmap, fd, bk, binned, x);
    }
  }

  lemma NoTrees(base: int, F: Forest, w: Words, treemap: nat, binned: map<int, int>)
    requires TreeOk(base, F, w, treemap, binned) && treemap == 0
    ensures NoneBinned(binned, 256)
  {
    hide ForestOk, TreeIndex, Has;
    forall x {:trigger binned[x]} | x in binned ensures binned[x] < 256 {
      if 256 <= binned[x] {
        var s, k := FindLarge(base, F, w, binned, x);
        RingKeys(base, F, w, binned);
        RootOfSize(base, F, w, binned, s);
        PosAtRoot(s);
        ZeroBits(TreeIndex(s));
      }
    }
  }

  lemma RingKeys(base: int, F: Forest, w: Words, binned: map<int, int>)
    requires ForestOk(base, F, w, binned)
    ensures F.rings.Keys == F.depth.Keys
  {
  }

  /** trem, the unsigned chunksize(t) - nb, is the surplus or wraps past every surplus. */
  lemma TremMeans(size: int, nb: int)
    requires 0 < nb < SIZE_T_RANGE && 0 <= size < SIZE_T_RANGE
    ensures var trem := (size - nb) % SIZE_T_RANGE;
      trem == if nb <= size then size - nb else SIZE_T_RANGE + size - nb
  {
  }

  /** The bin that left_bits, least_bit and compute_bit2idx lead to: the first marked one after idx. */
  lemma NextMarked(m: nat, idx: nat, i: nat)
    requires idx < 32 && And(32, LeftBits(Bit(idx)), m) != 0 && i == Bit2Idx(LeastBit(And(32, LeftBits(Bit(idx)), m)))
    ensures idx < i < 32 && Has(m, i) && forall j: nat :: idx < j < i ==> !Has(m, j)
  {
    hide And, Bit, LeastBit, LeftBits, Has, Pow2;
    var l := And(32, LeftBits(Bit(idx)), m);
    AndBound(LeftBits(Bit(idx)), m);
    var k := SomeMarked(l);
    FirstMarked(l, k);
    LeftMarked(m, idx, i);
    forall j: nat | idx < j < i ensures !Has(m, j) { LeftMarked(m, idx, j); }
  }

  lemma NoneAfter(at: map<Pos, int>, m: nat, idx: nat)
    requires idx < 32 && MapMarks(at, m) && And(32, LeftBits(Bit(idx)), m) == 0
    ensures forall j: nat {:trigger Root(j)} :: idx < j < 32 ==> Root(j) !in at
  {
    hide And, Bit, LeftBits, Has;
    forall j: nat | idx < j < 32 ensures Root(j) !in at {
      LeftMarked(m, idx, j);
      ZeroBits(j);
    }
  }

  /** Best in nb's bin and in the bin searched is best of all. */
  lemma AllBest(base: int, F: Forest, w: Words, binned: map<int, int>, nb: int, best: int, bin: nat, s: int)
    requires ForestOk(base, F, w, binned) && LargeSize(nb) && TreeIndex(nb) <= bin < 32
    requires BestInBin(F.depth, nb, best, TreeIndex(nb)) && BestInBin(F.depth, nb, best, bin)
    requires forall j: nat {:trigger Root(j)} :: TreeIndex(nb) < j < bin ==> Root(j) !in F.at
    requires if s == 0 then forall j: nat {:trigger Root(j)} :: bin < j < 32 ==> Root(j) !in F.at
             else LargeSize(s) && TreeIndex(s) <= bin && best <= s - nb
    ensures forall x {:trigger binned[x]} ::
      x in binned && nb <= binned[x] ==> LargeSize(binned[x]) && best <= binned[x] - nb
  {
    hide TreeIndex, RingsOk, Heads, ChildSlots, RootSlots, ParentLinks, Placed, Occupied, Rooted;
    forall x {:trigger binned[x]} | x in binned && nb <= binned[x]
      ensures LargeSize(binned[x]) && best <= binned[x] - nb {
      var u := binned[x];
      RootAgrees(F.at, F.depth, u);
      PosAtRoot(u);
      var j := TreeIndex(u);
      if j < TreeIndex(nb) {
        LowerBin(F.at, F.depth, nb, best, j);
      } else if TreeIndex(nb) < j < bin || (s == 0 && bin < j) {
        EmptyBin(F.at, F.depth, nb, best, j);
      } else if bin < j {
        HigherBin(F.at, F.depth, nb, best, s, j);
      }
      var _ := F.depth[u];
    }
  }

  lemma LeastMarked(m: nat, i: nat)
    requires 0 < m < Pow2(32) && i == Bit2Idx(LeastBit(m))
    ensures i < 32 && Has(m, i) && forall j: nat :: j < i ==> !Has(m, j)
  {
    hide LeastBit, Has, Pow2;
    var k := SomeMarked(m);
    FirstMarked(m, k);
  }

  /** Best in the first non-empty bin is best of all. */
  lemma AllBestSmall(base: int, F: Forest, w: Words, binned: map<int, int>, nb: int, best: int, bin: nat, s: int)
    requires ForestOk(base, F, w, binned) && nb < 256 && bin < 32 && BestInBin(F.depth, nb, best, bin)
    requires forall j: nat {:trigger Root(j)} :: j < bin ==> Root(j) !in F.at
    requires LargeSize(s) && TreeIndex(s) == bin && best <= s - nb
    ensures forall x {:trigger binned[x]} :: x in binned && 256 <= binned[x] ==> best <= binned[x] - nb
  {
    hide TreeIndex, RingsOk, Heads, ChildSlots, RootSlots, ParentLinks, Placed, Occupied, Rooted;
    forall x {:trigger binned[x]} | x in binned && 256 <= binned[x] ensures best <= binned[x] - nb {
      var u := binned[x];
      RootAgrees(F.at, F.depth, u);
      PosAtRoot(u);
      var j := TreeIndex(u);
      if j < bin {
        EmptyBin(F.at, F.depth, nb, best, j);
      } else if bin < j {
        HigherBin(F.at, F.depth, nb, best, s, j);
      }
      var _ := F.depth[u];
    }
  }

  lemma BestLess(depth: map<int, nat>, nb: int, best: int, best': int, bin: nat)
    requires BestInBin(depth, nb, best, bin) && best' <= best
    ensures BestInBin(depth, nb, best', bin)
  {
  }

  lemma BestOf(depth: map<int, nat>, nb: int, best: int, bin: nat, s: int)
    requires BestInBin(depth, nb, best, bin)
    ensures s in depth && 0 <= s && TreeIndex(s) == bin && nb <= s ==> best <= s - nb
  {
  }

  lemma NegMeans(nb: int)
    requires 0 < nb < SIZE_T_RANGE
    ensures (0 - nb) % SIZE_T_RANGE == SIZE_T_RANGE - nb
  {
  }

  lemma TrieOf(base: int, F: Forest, w: Words, binned: map<int, int>)
    requires ForestOk(base, F, w, binned)
    ensures Trie(F.at, F.depth)
  {
  }

  /** Two children of a node are not the same chunk. */
  lemma LookDiffer(base: int, F: Forest, w: Words, binned: map<int, int>, p: Pos)
    requires ForestOk(base, F, w, binned)
    ensures var node := Heads(F.rings);
      Child(p, 0) in F.at && Child(p, 1) in F.at ==> Look(F.at, node, Child(p, 0)) != Look(F.at, node, Child(p, 1))
  {
    hide ForestOk, Heads, Look, PosAt;
    if Child(p, 0) in F.at && Child(p, 1) in F.at {
      NodeAt(base, F, w, binned, Child(p, 0));
      NodeAt(base, F, w, binned, Child(p, 1));
    }
  }

  lemma AndBound(a: nat, b: nat)
    ensures And(32, a, b) < Pow2(32)
  {
  }

  /** Which ring a large chunk is in, and where. */
  lemma FindLarge(base: int, F: Forest, w: Words, binned: map<int, int>, x: int) returns (s: int, k: nat)
    requires ForestOk(base, F, w, binned) && x in binned && 256 <= binned[x]
    ensures s == binned[x] && s in F.rings && k < |F.rings[s]| && F.rings[s][k] == x
  {
    hide Linked, RingsOk;
    s := binned[x];
    k :| 0 <= k < |F.rings[s]| && F.rings[s][k] == x;
  }

  lemma LookPasses(at: map<Pos, int>, node: map<int, int>, least: int, p: Pos)
    requires forall t {:trigger node[t]} :: t in node ==> least <= node[t]
    ensures Look(at, node, p) != 0 ==> least <= Look(at, node, p)
  {
    if p in at && at[p] in node {
      var t := at[p];
      assert least <= node[t];
    }
  }

  /** Tree nodes are large binned chunks. */
  lemma HeadsBinned(base: int, F: Forest, w: Words, binned: map<int, int>)
    requires ForestOk(base, F, w, binned)
    ensures NodesBinned(Heads(F.rings), binned)
  {
    hide ChildSlots, RootSlots, ParentLinks, NodesDistinct, AllLargeBinned, Ring, Chained, Occupied, Rooted, PosAt;
    HeadsKeys(F.rings, w, binned);
    var node := Heads(F.rings);
    forall t {:trigger node[t]} | t in node ensures node[t] in binned && 256 <= binned[node[t]] {
      assert RingOk(t, F.rings[t], w.fd, w.bk, w.slots, w.par, w.idx, binned);
      var _ := F.depth[t];
    }
  }

  lemma NodeIsLarge(base: int, F: Forest, w: Words, binned: map<int, int>, p: Pos)
    requires ForestOk(base, F, w, binned) && p in F.at
    ensures var t := Look(F.at, Heads(F.rings), p); t in binned && 256 <= binned[t]
  {
    hide ForestOk, Heads, Look, PosAt, TreeIndex;
    NodeAt(base, F, w, binned, p);
  }

  /** The slot that leads to size s is one of the tree's words. */
  lemma SlotIsKey(at: map<Pos, int>, depth: map<int, nat>, node: map<int, int>, base: int, slots: map<Slot, int>,
                  par: map<int, int>,
                  binned: map<int, int>, s: int)
    requires Linked(at, depth, node, base, slots, par) && s in depth && 0 <= s && s in node && 0 < base
      && NodesBinned(node, binned)
    ensures SlotKey(binned, SlotTo(at, node, PosAt(s, depth[s])))
  {
    hide Linked, SlotTo, Prefix, PosAt;
    SlotHolds(at, depth, node, base, slots, par, s);
  }

  /** What Relink asks of the nodes and slots of s, and of the replacement leaf u. */
  lemma RelinkKeys(base: int, F: Forest, w: Words, binned: map<int, int>, s: int, u: int)
    requires ForestOk(base, F, w, binned) && s in F.rings && u in F.rings && 0 < base
    ensures s in F.depth && 0 <= s && u in F.depth && 0 <= u
    ensures NodesBinned(Heads(F.rings), binned) && NodesBinned(Heads(F.rings) - {u}, binned)
    ensures |F.rings[u]| > 0 && F.rings[u][0] in binned && 256 <= binned[F.rings[u][0]]
    ensures SlotKey(binned, SlotTo(F.at, Heads(F.rings), PosAt(s, F.depth[s])))
    ensures SlotKey(binned, SlotTo(F.at, Heads(F.rings), PosAt(u, F.depth[u])))
    ensures MaySubstitute(F, s, u) ==>
      SlotKey(binned, SlotTo(F.at - {PosAt(u, F.depth[u])}, Heads(F.rings) - {u}, PosAt(s, F.depth[s])))
  {
    hide Linked, SlotTo, PosAt, SlotKey, RingsOk, AllLargeBinned, Heads, NodesBinned, TreeIndex, Look;
    HeadsBinned(base, F, w, binned);
    HeadsFacts(base, F, w, binned, s);
    HeadsFacts(base, F, w, binned, u);
    var node := Heads(F.rings);
    FewerNodes(node, binned, u);
    SlotIsKey(F.at, F.depth, node, base, w.slots, w.par, binned, s);
    SlotIsKey(F.at, F.depth, node, base, w.slots, w.par, binned, u);
    if MaySubstitute(F, s, u) {
      CutLinked(F.at, F.depth, node, base, w.slots, w.par, u);
      SlotIsKey(F.at - {PosAt(u, F.depth[u])}, F.depth - {u}, node - {u}, base, CutSlots(F, w, u), w.par, binned, s);
    }
  }

  lemma HeadsFacts(base: int, F: Forest, w: Words, binned: map<int, int>, s: int)
    requires ForestOk(base, F, w, binned) && s in F.rings && NodesBinned(Heads(F.rings), binned)
    ensures s in F.depth && 0 <= s && |F.rings[s]| > 0 && s in Heads(F.rings) && Heads(F.rings)[s] == F.rings[s][0]
    ensures F.rings[s][0] in binned && 256 <= binned[F.rings[s][0]]
  {
    hide Linked, AllLargeBinned, Ring, Chained;
    HeadsKeys(F.rings, w, binned);
    assert RingOk(s, F.rings[s], w.fd, w.bk, w.slots, w.par, w.idx, binned);
    var node := Heads(F.rings);
    assert node[s] in binned;
  }

  lemma FewerNodes(node: map<int, int>, binned: map<int, int>, u: int)
    requires NodesBinned(node, binned)
    ensures NodesBinned(node - {u}, binned)
  {
    var node1 := node - {u};
    forall t {:trigger node1[t]} | t in node1
      ensures node1[t] in binned && 256 <= binned[node1[t]] { assert node1[t] == node[t]; }
  }

  /** The tree's slots pass ok_address. */
  lemma KeyPasses(base: int, binned: map<int, int>, least: int, c: Slot)
    requires SlotKey(binned, c) && AddressesOk(base, least, binned)
    ensures SlotAddr(base, c) >= least
  {
    if c.ChildOf? { var _ := binned[c.node]; }
  }

  /** Tree nodes pass ok_address. */
  lemma NodesOk(base: int, F: Forest, w: Words, binned: map<int, int>, least: int)
    requires ForestOk(base, F, w, binned) && AddressesOk(base, least, binned)
    ensures var node := Heads(F.rings); forall t {:trigger node[t]} :: t in node ==> least <= node[t]
    ensures Linked(F.at, F.depth, Heads(F.rings), base, w.slots, w.par)
    ensures forall s {:trigger F.rings[s]} ::
      s in F.rings ==> |F.rings[s]| > 0 && s in Heads(F.rings) && Heads(F.rings)[s] == F.rings[s][0]
  {
    hide Linked, AllLargeBinned, Ring, Chained;
    HeadsKeys(F.rings, w, binned);
    var node := Heads(F.rings);
    forall t | t in node ensures least <= node[t] {
      assert RingOk(t, F.rings[t], w.fd, w.bk, w.slots, w.par, w.idx, binned);
    }
  }

  lemma PruneReady(base: int, F: Forest, w: Words, binned: map<int, int>, s: int, least: int)
    requires ForestOk(base, F, w, binned) && AddressesOk(base, least, binned) && s in F.rings
    ensures var node := Heads(F.rings);
      && Linked(F.at, F.depth, node, base, w.slots, w.par)
      && |F.rings[s]| > 0 && s in node && node[s] == F.rings[s][0]
      && forall t {:trigger node[t]} :: t in node ==> least <= node[t]
  {
    hide Linked, Heads, RingsOk, AllLargeBinned;
    NodesOk(base, F, w, binned, least);
  }

  /** With leaf u cut off, its chunk may be handed to Relink. */
  lemma CutReady(base: int, F: Forest, w: Words, binned: map<int, int>, s: int, u: int, least: int)
    requires ForestOk(base, F, w, binned) && AddressesOk(base, least, binned) && MaySubstitute(F, s, u)
    ensures var node := Heads(F.rings) - {u}; var r := F.rings[u][0]; var slots' := CutSlots(F, w, u);
      && Linked(F.at - {PosAt(u, F.depth[u])}, F.depth - {u}, node, base, slots', w.par)
      && s in node && node[s] == F.rings[s][0] && least <= r && r != 0
      && ChildOf(r, 0) in slots' && slots'[ChildOf(r, 0)] == 0 && ChildOf(r, 1) in slots' && slots'[ChildOf(r, 1)] == 0
      && (forall t {:trigger node[t]} :: t in node ==> least <= node[t] && node[t] != r)
  {
    hide ForestOk, Heads, PosAt, Look, SlotTo, Leaf;
    NodesOk(base, F, w, binned, least);
    var _ := F.rings[s];
    var _ := F.rings[u];
    CutLinked(F.at, F.depth, Heads(F.rings), base, w.slots, w.par, u);
  }

  lemma CutLinked(at: map<Pos, int>, depth: map<int, nat>, node: map<int, int>, base: int, slots: map<Slot, int>,
                  par: map<int, int>, u: int)
    requires Linked(at, depth, node, base, slots, par) && u in depth && 0 <= u && u in node
      && Leaf(at, PosAt(u, depth[u]))
    ensures var slots' := slots[SlotTo(at, node, PosAt(u, depth[u])) := 0]; var r := node[u];
      && Linked(at - {PosAt(u, depth[u])}, depth - {u}, node - {u}, base, slots', par)
      && 0 < r && ChildOf(r, 0) in slots' && slots'[ChildOf(r, 0)] == 0 && ChildOf(r, 1) in slots'
         && slots'[ChildOf(r, 1)] == 0
      && (forall t {:trigger node[t]} :: t in node && t != u ==> node[t] != r)
  {
    hide ChildSlots, RootSlots, ParentLinks, PosAt, Trie, SlotTo;
    ReadNode(at, depth, node, base, slots, par, u);
    DetachLinked(at, depth, node, base, slots, par, u);
    var _ := ChildOf(node[u], 0);
    var _ := ChildOf(node[u], 1);
    var _ := node[u];
  }

  lemma UnlinkLargeFrame(base: int, bins: seq<seq<int>>, smallmap: nat, fd: map<int, int>, bk: map<int, int>,
                         binned: map<int, int>,
                         fd': map<int, int>, bk': map<int, int>, x: int, f: int, r: int)
    requires SmallOk(base, bins, smallmap, fd, bk, binned)
    requires x in binned && 256 <= binned[x] && f in binned && 256 <= binned[f] && r in binned && 256 <= binned[r]
    requires fd' == fd || fd' == fd[r := f]
    requires bk' == bk || bk' == bk[f := r]
    ensures SmallOk(base, bins, smallmap, fd', bk', binned - {x})
  {
    assert OutsideState(base, f) && OutsideState(base, r);
    SmallFrame(base, bins, smallmap, fd, bk, binned, fd', bk', binned - {x});
  }

  /** What unlink_large_chunk can tell about the ring of x. */
  lemma RingFacts(base: int, F: Forest, w: Words, binned: map<int, int>, s: int, k: nat)
    requires ForestOk(base, F, w, binned) && s in F.rings && k < |F.rings[s]| && 0 < base
    ensures s in F.depth && LargeSize(s) && TreeIndex(s) < 32
    ensures var r := F.rings[s]; var x := r[k];
      && x in binned && binned[x] == s && x in w.fd && x in w.bk && x in w.par && x in w.idx && w.idx[x] == TreeIndex(s)
      && w.fd[x] in binned && binned[w.fd[x]] == s && w.bk[x] in binned && binned[w.bk[x]] == s
      && (w.bk[x] == x <==> |r| == 1) && (k > 0 <==> w.par[x] == 0) && (k == 0 ==> w.bk[x] == r[|r| - 1])
  {
    hide Heads, ChildSlots, RootSlots, ParentLinks, AllLargeBinned, PosAt, RingOk, Trie, TreeIndex;
    assert RingOk(s, F.rings[s], w.fd, w.bk, w.slots, w.par, w.idx, binned);
    ParentIsNode(F, w, binned, base, s);
    HeadsKeys(F.rings, w, binned);
    SlotHolds(F.at, F.depth, Heads(F.rings), base, w.slots, w.par, s);
    hide RingsOk, NodesDistinct;
    RingNeighbour(s, F.rings[s], w, binned, k);
  }

  lemma RingNeighbour(s: int, r: seq<int>, w: Words, binned: map<int, int>, k: nat)
    requires RingOk(s, r, w.fd, w.bk, w.slots, w.par, w.idx, binned) && k < |r|
    ensures var x := r[k];
      && x in binned && binned[x] == s && x in w.fd && x in w.bk && x in w.idx && w.idx[x] == TreeIndex(s)
      && w.fd[x] in binned && binned[w.fd[x]] == s && w.bk[x] in binned && binned[w.bk[x]] == s
      && (w.bk[x] == x <==> |r| == 1) && (k > 0 ==> x in w.par && w.par[x] == 0) && (k == 0 ==> w.bk[x] == r[|r| - 1])
  {
    hide TreeIndex;
    assert w.bk[r[k]] == (if k > 0 then r[k - 1] else r[|r| - 1]);
    assert w.fd[r[k]] == (if k + 1 < |r| then r[k + 1] else r[0]);
  }

  /** A chained chunk r may be handed to Relink. */
  lemma RelinkReady(base: int, F: Forest, w: Words, binned: map<int, int>, s: int, r: int, least: int)
    requires ForestOk(base, F, w, binned) && s in F.rings && 2 <= |F.rings[s]| && r == F.rings[s][|F.rings[s]| - 1]
    requires AddressesOk(base, least, binned)
    ensures var node := Heads(F.rings); Linked(F.at, F.depth, node, base, w.slots, w.par)
    ensures var node := Heads(F.rings); s in node && node[s] == F.rings[s][0] && least <= r && r != 0
    ensures ChildOf(r, 0) in w.slots && w.slots[ChildOf(r, 0)] == 0 && ChildOf(r, 1) in w.slots
      && w.slots[ChildOf(r, 1)] == 0
    ensures var node := Heads(F.rings); forall t {:trigger node[t]} :: t in node ==> node[t] != r && least <= node[t]
  {
    hide Linked, AllLargeBinned, Ring;
    HeadsKeys(F.rings, w, binned);
    assert RingOk(s, F.rings[s], w.fd, w.bk, w.slots, w.par, w.idx, binned);
    var node := Heads(F.rings);
    forall t | t in node ensures node[t] != r && least <= node[t] {
      ChainedNotHead(F, w, binned, s, |F.rings[s]| - 1, t);
      assert RingOk(t, F.rings[t], w.fd, w.bk, w.slots, w.par, w.idx, binned);
    }
  }

  /** Which slot holds x, how unlink_large_chunk tells, and what x's child slots hold. */
  lemma SlotHolds(at: map<Pos, int>, depth: map<int, nat>, node: map<int, int>, base: int, slots: map<Slot, int>,
                  par: map<int, int>, s: int)
    requires Linked(at, depth, node, base, slots, par) && s in depth && 0 <= s && s in node && 0 < base
    ensures LargeSize(s) && TreeIndex(s) < 32 && node[s] in par && par[node[s]] != 0 && BinRoot(TreeIndex(s)) in slots
    ensures var p := PosAt(s, depth[s]); var x := node[s]; var xp := par[x];
      && p.depth == depth[s] && (p.depth > 0 ==> xp != x)
      && (slots[BinRoot(TreeIndex(s))] == x <==> p.depth == 0)
      && (p.depth == 0 ==> SlotTo(at, node, p) == BinRoot(TreeIndex(s)))
      && (p.depth > 0 ==>
            && ChildOf(xp, 0) in slots
               && SlotTo(at, node, p) == ChildOf(xp, if slots[ChildOf(xp, 0)] == x then 0 else 1)
            && exists t :: t in node && node[t] == xp)
      && (forall b {:trigger ChildOf(x, b)} :: 0 <= b < 2 ==>
            ChildOf(x, b) in slots && slots[ChildOf(x, b)] == Look(at, node, Child(p, b)))
  {
    hide Prefix, TreeIndex, ChildSlots, RootSlots, ParentLinks, Look, NodesDistinct;
    var p := PosAt(s, depth[s]);
    var x := node[s];
    assert LargeSize(s) && p in at && at[p] == s by { var _ := depth[s]; }
    PosAtRoot(s);
    ReadNode(at, depth, node, base, slots, par, s);
    ReadRoot(at, depth, node, slots, par, base, TreeIndex(s), s);
    if p.depth > 0 {
      var q := Parent(p);
      assert q in at;
      var t := at[q];
      assert t in depth && PosAt(t, depth[t]) == q;
      ReadNode(at, depth, node, base, slots, par, t);
      LookInjective(at, depth, node, Child(q, 0), s);
      LookAt(at, depth, node, q);
      PosAtParent(s, depth[s] - 1);
      LookInjective(at, depth, node, q, s);
    }
  }

  lemma ReadNode(at: map<Pos, int>, depth: map<int, nat>, node: map<int, int>, base: int, slots: map<Slot, int>,
                 par: map<int, int>, s: int)
    requires Linked(at, depth, node, base, slots, par) && s in depth && 0 <= s && s in node
    ensures 0 < node[s] && node[s] in par && par[node[s]] == ParentPtr(at, node, base, s, depth[s])
    ensures forall b {:trigger ChildOf(node[s], b)} :: 0 <= b < 2 ==>
      ChildOf(node[s], b) in slots && slots[ChildOf(node[s], b)] == Look(at, node, Child(PosAt(s, depth[s]), b))
  {
    hide Trie, Look, PosAt, RootSlots;
  }

  lemma ReadRoot(at: map<Pos, int>, depth: map<int, nat>, node: map<int, int>, slots: map<Slot, int>,
                 par: map<int, int>, base: int, i: nat, s: int)
    requires Linked(at, depth, node, base, slots, par) && i < 32 && s in node && s in depth && LargeSize(s)
    ensures BinRoot(i) in slots && (slots[BinRoot(i)] == node[s] <==> Root(i) == PosAt(s, depth[s]))
  {
    hide PosAt, ChildSlots, ParentLinks, Look;
    LookInjective(at, depth, node, Root(i), s);
  }

  lemma LookInjective(at: map<Pos, int>, depth: map<int, nat>, node: map<int, int>, q: Pos, s: int)
    requires Trie(at, depth) && node.Keys == depth.Keys && NodesDistinct(node) && s in depth && 0 <= s
    ensures Look(at, node, q) == node[s] <==> q == PosAt(s, depth[s])
  {
    var _ := depth[s];
    var _ := node[s];
    hide PosAt;
    if q in at { var _ := at[q]; var _ := node[at[q]]; }
  }

  lemma LookAt(at: map<Pos, int>, depth: map<int, nat>, node: map<int, int>, q: Pos)
    requires Trie(at, depth) && node.Keys == depth.Keys && NodesDistinct(node) && q in at
    ensures at[q] in node && Look(at, node, q) == node[at[q]] > 0
  {
    hide PosAt;
    var _ := node[at[q]];
  }

  /** From node v down to its child at q; both stay below s. */
  lemma LeafStep(base: int, F: Forest, w: Words, binned: map<int, int>, s: int, v: int, q: Pos) returns (u: int)
    requires ForestOk(base, F, w, binned) && s in F.depth && v in F.depth && 0 <= s && 0 <= v
      && F.depth[s] <= F.depth[v]
    requires PosAt(v, F.depth[s]) == PosAt(s, F.depth[s])
    requires q in F.at && (q == Child(PosAt(v, F.depth[v]), 0) || q == Child(PosAt(v, F.depth[v]), 1))
    requires v in F.rings && |F.rings[v]| > 0 && PosAt(v, F.depth[v]) in F.at && F.at[PosAt(v, F.depth[v])] == v
    ensures u == F.at[q] && u in F.rings && u in F.depth && 0 <= u && q == PosAt(u, F.depth[u]) && |F.rings[u]| > 0
    ensures F.rings[u][0] == Look(F.at, Heads(F.rings), q) && F.depth[u] == F.depth[v] + 1 <= FirstBit(q.bin) + 1
    ensures q.bin == TreeIndex(s) && PosAt(u, F.depth[s]) == PosAt(s, F.depth[s])
    ensures SlotTo(F.at, Heads(F.rings), q) == ChildOf(F.rings[v][0], q.prefix % 2)
    ensures q == Child(PosAt(v, F.depth[v]), q.prefix % 2)
    ensures ChildOf(F.rings[u][0], 0) in w.slots && ChildOf(F.rings[u][0], 1) in w.slots
  {
    hide ForestOk, Heads, Look, Prefix, TreeIndex;
    NodeAt(base, F, w, binned, q);
    NodeAt(base, F, w, binned, PosAt(v, F.depth[v]));
    u := F.at[q];
    ChildIsOnly(PosAt(v, F.depth[v]), q, 0);
    ChildIsOnly(PosAt(v, F.depth[v]), q, 1);
    PosAtParent(u, F.depth[v]);
    SamePath(u, v, F.depth[s], F.depth[v]);
    var _ := ChildOf(F.rings[u][0], 0);
    var _ := ChildOf(F.rings[u][0], 1);
  }

  /** Two sizes that share a position share the path to it. */
  lemma {:induction false} SamePath(u: int, v: int, e: nat, d: nat)
    requires LargeSize(u) && LargeSize(v) && PosAt(u, d) == PosAt(v, d) && e <= d <= FirstBit(TreeIndex(u)) + 1
    ensures PosAt(u, e) == PosAt(v, e)
    decreases d - e
  {
    hide Prefix, TreeIndex;
    if e < d {
      PosAtParent(u, d - 1);
      PosAtParent(v, d - 1);
      SamePath(u, v, e, d - 1);
    }
  }

  lemma InsertLargeFrame(base: int, bins: seq<seq<int>>, smallmap: nat, fd: map<int, int>, bk: map<int, int>,
                         binned: map<int, int>,
                         fd': map<int, int>, bk': map<int, int>, x: int, s: int)
    requires SmallOk(base, bins, smallmap, fd, bk, binned) && OutsideState(base, x) && x !in binned && 256 <= s
    requires forall y {:trigger fd[y]} ::
      y in fd && y != x && (y !in binned || binned[y] < 256) ==> y in fd' && fd'[y] == fd[y]
    requires forall y {:trigger bk[y]} ::
      y in bk && y != x && (y !in binned || binned[y] < 256) ==> y in bk' && bk'[y] == bk[y]
    ensures SmallOk(base, bins, smallmap, fd', bk', binned[x := s])
  {
    SmallFrame(base, bins, smallmap, fd, bk, binned, fd', bk', binned[x := s]);
  }

  lemma InsertAloneFrame(base: int, bins: seq<seq<int>>, smallmap: nat, fd: map<int, int>, bk: map<int, int>,
                         binned: map<int, int>, x: int, s: int)
    requires SmallOk(base, bins, smallmap, fd, bk, binned) && OutsideState(base, x) && x !in binned && 256 <= s
    ensures SmallOk(base, bins, smallmap, fd[x := x], bk[x := x], binned[x := s])
  {
    hide SmallOk;
    InsertLargeFrame(base, bins, smallmap, fd, bk, binned, fd[x := x], bk[x := x], x, s);
  }

  lemma InsertChainedFrame(base: int, bins: seq<seq<int>>, smallmap: nat, fd: map<int, int>, bk: map<int, int>,
                           binned: map<int, int>,
                           x: int, s: int, t: int, f: int)
    requires SmallOk(base, bins, smallmap, fd, bk, binned) && OutsideState(base, x) && x !in binned && 256 <= s
    requires t in binned && 256 <= binned[t] && f in binned && 256 <= binned[f]
    ensures SmallOk(base, bins, smallmap, fd[t := x][x := f], bk[f := x][x := t], binned[x := s])
  {
    hide SmallOk;
    InsertLargeFrame(base, bins, smallmap, fd, bk, binned, fd[t := x][x := f], bk[f := x][x := t], x, s);
  }

  /** The chunks next to a tree node in its ring are of its size. */
  lemma RingNeighbours(base: int, F: Forest, w: Words, binned: map<int, int>, s: int)
    requires ForestOk(base, F, w, binned) && s in F.rings
    ensures |F.rings[s]| > 0 && F.rings[s][0] in w.fd && F.rings[s][0] in w.bk
    ensures var t := F.rings[s][0];
      && t in binned && binned[t] == s && w.fd[t] in binned && binned[w.fd[t]] == s && w.bk[t] in binned
         && binned[w.bk[t]] == s
  {
    hide Heads, Linked, AllLargeBinned, Chained, NoDuplicates;
    assert RingOk(s, F.rings[s], w.fd, w.bk, w.slots, w.par, w.idx, binned);
  }

  /** The lemma for a new node, with the slot and the parent spelt out. */
  lemma AttachHere(base: int, F: Forest, w: Words, binned: map<int, int>, treemap: nat, s: int, d: nat, x: int)
    returns (slot: Slot, parent: int)
    requires ForestOk(base, F, w, binned) && MapMarks(F.at, treemap) && treemap < Pow2(32)
    requires Fresh(x, binned) && LargeSize(s) && TreeIndex(s) < 32
    requires if d == 0 then !Has(treemap, TreeIndex(s))
      else PosAt(s, d - 1) in F.at && PosAt(s, d) !in F.at && s !in F.depth
    requires d <= FirstBit(TreeIndex(s)) + 1
    ensures d == 0 ==> slot == BinRoot(TreeIndex(s)) && parent == RootAddr(base, TreeIndex(s))
    ensures d > 0 ==> slot == ChildOf(Look(F.at, Heads(F.rings), PosAt(s, d - 1)), Prefix(s, TreeIndex(s), d) % 2)
    ensures d > 0 ==> parent == Look(F.at, Heads(F.rings), PosAt(s, d - 1))
    ensures ForestOk(base, Forest(F.at[PosAt(s, d) := s], F.depth[s := d], F.rings[s := [x]]),
      AttachedWords(w, slot, parent, x, TreeIndex(s)), binned[x := s])
    ensures MapMarks(F.at[PosAt(s, d) := s], if d == 0 then Or(32, treemap, Bit(TreeIndex(s))) else treemap)
  {
    hide ForestOk, Heads, Look, Prefix, TreeIndex, Or, Bit, Pow2, Has;
    PosAtRoot(s);
    slot := SlotTo(F.at, Heads(F.rings), PosAt(s, d));
    parent := ParentPtr(F.at, Heads(F.rings), base, s, d);
    if d == 0 {
      assert Root(TreeIndex(s)) !in F.at;
      if s in F.depth { RootOfSize(base, F, w, binned, s); }
    } else {
      PosAtParent(s, d - 1);
    }
    AttachForest(base, F, w, binned, s, d, x);
    AttachMarks(F.at, treemap, s, d);
  }

  lemma RootOfSize(base: int, F: Forest, w: Words, binned: map<int, int>, s: int)
    requires ForestOk(base, F, w, binned) && s in F.depth
    ensures LargeSize(s) && Root(TreeIndex(s)) in F.at
  {
    var _ := F.depth[s];
    Ancestor(F.at, F.depth, s, 0);
    PosAtRoot(s);
    hide PosAt;
  }

  /** A node of another size on s's path is not at the full depth, and s is not above it. */
  lemma DescentStep(at: map<Pos, int>, depth: map<int, nat>, s: int, d: nat)
    requires Trie(at, depth) && LargeSize(s) && PosAt(s, d) in at && at[PosAt(s, d)] != s
      && (s in depth ==> d <= depth[s])
    ensures d <= FirstBit(TreeIndex(s)) && TreeIndex(s) < 32
    ensures PosAt(s, d + 1) == Child(PosAt(s, d), Prefix(s, TreeIndex(s), d + 1) % 2)
    ensures s in depth ==> d + 1 <= depth[s]
    ensures PosAt(s, d + 1) !in at ==> s !in depth
  {
    Occupant(at, depth, PosAt(s, d));
    FullDepth(at, depth, s, d);
    PosAtParent(s, d);
    if s in depth && d < depth[s] { Ancestor(at, depth, s, d + 1); }
    hide Prefix, TreeIndex;
  }

  lemma FullDepth(at: map<Pos, int>, depth: map<int, nat>, s: int, d: nat)
    requires Trie(at, depth) && LargeSize(s) && PosAt(s, d) in at && at[PosAt(s, d)] != s
    ensures d <= FirstBit(TreeIndex(s))
  {
    Occupant(at, depth, PosAt(s, d));
    hide TreeIndex;
  }

  lemma InsertSmallFrame(w: Words, binned: map<int, int>, fd': map<int, int>, bk': map<int, int>, p: int, s: int,
                         b: int, f: int)
    requires p !in binned && s < 256
    requires b !in binned || binned[b] < 256
    requires f !in binned || binned[f] < 256
    requires fd' == w.fd[b := p][p := f] && bk' == w.bk[f := p][p := b]
    ensures SameLarge(w, binned, fd', bk', binned[p := s])
  {
  }

  lemma RemoveSmallFrame(w: Words, binned: map<int, int>, fd': map<int, int>, bk': map<int, int>, p: int, f: int,
                         b: int)
    requires p in binned && binned[p] < 256
    requires b !in binned || binned[b] < 256
    requires f !in binned || binned[f] < 256
    requires (fd' == w.fd[b := f] && bk' == w.bk[f := b]) || (fd' == w.fd && bk' == w.bk)
    ensures SameLarge(w, binned, fd', bk', binned - {p})
  {
  }

  lemma EmptyBins(base: int, bins: seq<seq<int>>, fd: map<int, int>, bk: map<int, int>)
    requires bins == seq(32, i => [Header(base, i)])
    ensures SmallOk(base, bins, 0, fd, bk, map[])
  {
    forall i: nat | i < 32 ensures BinOk(base, i, bins[i], Has(0, i), fd, bk, map[]) { ZeroBits(i); }
    hide BinOk, Has;
  }

  /** The treebins up to the n-th, all null. */
  function ZeroRoots(n: nat): map<Slot, int> {
    map i: nat | i < n :: BinRoot(i) := 0
  }

  lemma NoRoots()
    ensures ZeroRoots(0) == map[]
  {
  }

  lemma ZeroRootsMore(n: nat)
    ensures ZeroRoots(n)[BinRoot(n) := 0] == ZeroRoots(n + 1)
  {
  }

  lemma EmptyForest(base: int, slots: map<Slot, int>, par: map<int, int>, idx: map<int, int>, fd: map<int, int>,
                    bk: map<int, int>)
    requires slots == ZeroRoots(32)
    ensures TreeOk(base, Forest(map[], map[], map[]), Words(slots, par, idx, fd, bk), 0, map[])
  {
    forall i: nat | i < 32 ensures !Has(0, i) { ZeroBits(i); }
    assert Heads(map[]) == map[];
  }
}
