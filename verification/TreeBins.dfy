/** The 32 tree bins: tries of distinct sizes, whose nodes head rings of same-sized chunks. */
module TreeBins {
  import opened ChunkLayout
  import opened BinMaps
  import opened BinIndex
  import opened Tries
  import opened TreeLinks
  import opened Rings
  import opened SmallBins

  /** The tree nodes: the first chunk of each ring. */
  ghost function Heads(rings: map<int, seq<int>>): map<int, int> {
    map s | s in rings && |rings[s]| > 0 :: rings[s][0]
  }

  /** A chunk chained behind a tree node: no parent, no children. */
  ghost predicate Chained(x: int, slots: map<Slot, int>, par: map<int, int>) {
    && x in par && par[x] == 0
    && ChildOf(x, 0) in slots && slots[ChildOf(x, 0)] == 0 && ChildOf(x, 1) in slots && slots[ChildOf(x, 1)] == 0
  }

  ghost predicate RingOk(s: int, r: seq<int>, fd: map<int, int>, bk: map<int, int>, slots: map<Slot, int>,
                         par: map<int, int>,
                         idx: map<int, int>, binned: map<int, int>)
  {
    && |r| > 0 && 0 <= s && Ring(fd, bk, r) && NoDuplicates(r)
    && (forall k {:trigger r[k]} :: 0 <= k < |r| ==>
          0 < r[k] && r[k] in binned && binned[r[k]] == s && r[k] in idx && idx[r[k]] == TreeIndex(s))
    && (forall k {:trigger r[k]} :: 1 <= k < |r| ==> Chained(r[k], slots, par))
  }

  ghost predicate RingsOk(rings: map<int, seq<int>>, fd: map<int, int>, bk: map<int, int>, slots: map<Slot, int>,
                          par: map<int, int>,
                          idx: map<int, int>, binned: map<int, int>)
  {
    forall s {:trigger rings[s]} :: s in rings ==> RingOk(s, rings[s], fd, bk, slots, par, idx, binned)
  }

  ghost predicate AllLargeBinned(rings: map<int, seq<int>>, binned: map<int, int>) {
    forall x {:trigger binned[x]} :: x in binned && 256 <= binned[x] ==> binned[x] in rings && x in rings[binned[x]]
  }

  /** The ghost side of the tree bins. */
  datatype Forest = Forest(at: map<Pos, int>, depth: map<int, nat>, rings: map<int, seq<int>>)

  /** The words the tree bins keep in memory. */
  datatype Words = Words(slots: map<Slot, int>, par: map<int, int>, idx: map<int, int>, fd: map<int, int>,
    bk: map<int, int>)

  ghost predicate ForestOk(base: int, F: Forest, w: Words, binned: map<int, int>) {
    && Linked(F.at, F.depth, Heads(F.rings), base, w.slots, w.par)
    && F.rings.Keys == F.depth.Keys
    && RingsOk(F.rings, w.fd, w.bk, w.slots, w.par, w.idx, binned)
    && AllLargeBinned(F.rings, binned)
  }

  ghost predicate TreeOk(base: int, F: Forest, w: Words, treemap: nat, binned: map<int, int>) {
    ForestOk(base, F, w, binned) && MapMarks(F.at, treemap) && treemap < Pow2(32)
  }

  // ---- frames ----

  lemma RingOkFrame(s: int, r: seq<int>, w: Words, binned: map<int, int>, w': Words, binned': map<int, int>)
    requires RingOk(s, r, w.fd, w.bk, w.slots, w.par, w.idx, binned)
    requires forall k {:trigger r[k]} :: 0 <= k < |r| ==>
      (r[k] in w.fd ==> r[k] in w'.fd && w'.fd[r[k]] == w.fd[r[k]])
        && (r[k] in w.bk ==> r[k] in w'.bk && w'.bk[r[k]] == w.bk[r[k]])
    requires forall k {:trigger r[k]} :: 0 <= k < |r| ==> r[k] in binned' && binned'[r[k]] == binned[r[k]]
    requires forall k {:trigger r[k]} ::
      0 <= k < |r| ==> r[k] in w'.idx && (r[k] in w.idx ==> w'.idx[r[k]] == w.idx[r[k]])
    requires forall k {:trigger r[k]} ::
      1 <= k < |r| ==> (Chained(r[k], w.slots, w.par) ==> Chained(r[k], w'.slots, w'.par))
    ensures RingOk(s, r, w'.fd, w'.bk, w'.slots, w'.par, w'.idx, binned')
  {
    RingFrame(w.fd, w.bk, w'.fd, w'.bk, r);
    hide Ring, NoDuplicates, Chained;
  }

  /** Words of chunks that are not tree nodes do not matter to the tries. */
  lemma LinkedFrame(at: map<Pos, int>, depth: map<int, nat>, node: map<int, int>, base: int, slots: map<Slot, int>,
                    par: map<int, int>,
                    slots': map<Slot, int>, par': map<int, int>)
    requires Linked(at, depth, node, base, slots, par)
    requires forall s, b {:trigger ChildOf(node[s], b)} :: s in node && 0 <= b < 2 && ChildOf(node[s], b) in slots ==>
      ChildOf(node[s], b) in slots' && slots'[ChildOf(node[s], b)] == slots[ChildOf(node[s], b)]
    requires forall i: nat {:trigger BinRoot(i)} ::
      i < 32 && BinRoot(i) in slots ==> BinRoot(i) in slots' && slots'[BinRoot(i)] == slots[BinRoot(i)]
    requires forall s {:trigger node[s]} ::
      s in node && node[s] in par ==> node[s] in par' && par'[node[s]] == par[node[s]]
    ensures Linked(at, depth, node, base, slots', par')
  {
    hide Trie, Look, PosAt;
  }

  /** A chained chunk is no tree node. */
  lemma ChainedNotHead(F: Forest, w: Words, binned: map<int, int>, s: int, k: int, t: int)
    requires RingsOk(F.rings, w.fd, w.bk, w.slots, w.par, w.idx, binned)
    requires s in F.rings && 1 <= k < |F.rings[s]| && t in Heads(F.rings)
    ensures Heads(F.rings)[t] != F.rings[s][k]
  {
    assert RingOk(t, F.rings[t], w.fd, w.bk, w.slots, w.par, w.idx, binned);
    hide Ring, Chained;
  }

  lemma HeadsKeys(rings: map<int, seq<int>>, w: Words, binned: map<int, int>)
    requires RingsOk(rings, w.fd, w.bk, w.slots, w.par, w.idx, binned)
    ensures Heads(rings).Keys == rings.Keys
    ensures forall s {:trigger rings[s]} :: s in rings ==> |rings[s]| > 0 && Heads(rings)[s] == rings[s][0]
  {
    forall s | s in rings
      ensures |rings[s]| > 0 { assert RingOk(s, rings[s], w.fd, w.bk, w.slots, w.par, w.idx, binned); }
    hide RingOk;
  }

  // ---- a chunk chained behind the node of its size ----

  ghost predicate Fresh(x: int, binned: map<int, int>) { 0 < x && x !in binned }

  ghost function ChainedWords(w: Words, t: int, f: int, x: int, i: int): Words {
    Words(w.slots[ChildOf(x, 0) := 0][ChildOf(x, 1) := 0], w.par[x := 0], w.idx[x := i], w.fd[t := x][x := f],
      w.bk[f := x][x := t])
  }

  lemma ChainRing(s: int, r: seq<int>, w: Words, binned: map<int, int>, x: int)
    requires RingOk(s, r, w.fd, w.bk, w.slots, w.par, w.idx, binned) && Fresh(x, binned)
    ensures r[0] in w.fd
    ensures var w' := ChainedWords(w, r[0], w.fd[r[0]], x, TreeIndex(s));
      RingOk(s, InsertSecond(r, x), w'.fd, w'.bk, w'.slots, w'.par, w'.idx, binned[x := s])
  {
    InsertSecondRing(w.fd, w.bk, r, x);
    assert w.fd[r[0]] == if |r| > 1 then r[1] else r[0];
    var r' := InsertSecond(r, x);
    assert forall k :: 2 <= k < |r'| ==> r'[k] == r[k - 1];
    hide Ring, NoDuplicates;
  }

  lemma ChainOtherRing(s: int, f: int, t: int, q: seq<int>, head: int, w: Words, binned: map<int, int>, x: int, i: int)
    requires RingOk(t, q, w.fd, w.bk, w.slots, w.par, w.idx, binned) && Fresh(x, binned) && t != s
    requires head in binned && binned[head] == s && f in binned && binned[f] == s
    ensures var w' := ChainedWords(w, head, f, x, i);
      RingOk(t, q, w'.fd, w'.bk, w'.slots, w'.par, w'.idx, binned[x := s])
  {
    hide Ring, NoDuplicates;
    var w' := ChainedWords(w, head, f, x, i);
    assert forall k :: 0 <= k < |q| ==> q[k] != x && q[k] != head && q[k] != f;
    RingOkFrame(t, q, w, binned, w', binned[x := s]);
  }

  /** No tree node is outside the bins. */
  lemma FreshNotHead(F: Forest, w: Words, binned: map<int, int>, x: int, t: int)
    requires RingsOk(F.rings, w.fd, w.bk, w.slots, w.par, w.idx, binned) && x !in binned && t in Heads(F.rings)
    ensures Heads(F.rings)[t] != x
  {
    assert RingOk(t, F.rings[t], w.fd, w.bk, w.slots, w.par, w.idx, binned);
    hide Ring, Chained;
  }

  lemma HeadsUpdate(rings: map<int, seq<int>>, s: int, r: seq<int>)
    requires |r| > 0
    ensures Heads(rings[s := r]) == Heads(rings)[s := r[0]]
  {
  }

  lemma HeadsRemove(rings: map<int, seq<int>>, s: int)
    ensures Heads(rings - {s}) == Heads(rings) - {s}
  {
  }

  lemma ChainLinked(base: int, F: Forest, w: Words, binned: map<int, int>, s: int, x: int, f: int)
    requires ForestOk(base, F, w, binned) && s in F.rings && Fresh(x, binned) && |F.rings[s]| > 0
    ensures var w' := ChainedWords(w, F.rings[s][0], f, x, TreeIndex(s));
      0 <= s && Linked(F.at, F.depth, Heads(F.rings[s := InsertSecond(F.rings[s], x)]), base, w'.slots, w'.par)
  {
    assert RingOk(s, F.rings[s], w.fd, w.bk, w.slots, w.par, w.idx, binned);
    HeadsUpdate(F.rings, s, InsertSecond(F.rings[s], x));
    assert Heads(F.rings)[s := F.rings[s][0]] == Heads(F.rings);
    var node := Heads(F.rings);
    forall t | t in node ensures node[t] != x { FreshNotHead(F, w, binned, x, t); }
    var w' := ChainedWords(w, F.rings[s][0], f, x, TreeIndex(s));
    hide Linked, RingOk, Heads, RingsOk;
    LinkedFrame(F.at, F.depth, node, base, w.slots, w.par, w'.slots, w'.par);
  }

  lemma ChainRings(F: Forest, w: Words, binned: map<int, int>, s: int, x: int)
    requires RingsOk(F.rings, w.fd, w.bk, w.slots, w.par, w.idx, binned) && s in F.rings && Fresh(x, binned)
    ensures |F.rings[s]| > 0 && 0 <= s && F.rings[s][0] in w.fd
    ensures var r := F.rings[s]; var w' := ChainedWords(w, r[0], w.fd[r[0]], x, TreeIndex(s));
      RingsOk(F.rings[s := InsertSecond(r, x)], w'.fd, w'.bk, w'.slots, w'.par, w'.idx, binned[x := s])
  {
    var r := F.rings[s];
    assert RingOk(s, r, w.fd, w.bk, w.slots, w.par, w.idx, binned);
    ChainRing(s, r, w, binned, x);
    var f := w.fd[r[0]];
    assert r[0] in binned && binned[r[0]] == s;
    assert f in binned && binned[f] == s by { assert f == if |r| > 1 then r[1] else r[0]; }
    var w' := ChainedWords(w, r[0], f, x, TreeIndex(s));
    var rings' := F.rings[s := InsertSecond(r, x)];
    hide ChainedWords;
    forall t {:trigger rings'[t]} | t in rings'
      ensures RingOk(t, rings'[t], w'.fd, w'.bk, w'.slots, w'.par, w'.idx, binned[x := s]) {
      if t != s {
        assert RingOk(t, F.rings[t], w.fd, w.bk, w.slots, w.par, w.idx, binned);
        hide RingOk;
        ChainOtherRing(s, f, t, F.rings[t], r[0], w, binned, x, TreeIndex(s));
      }
    }
  }

  lemma InsertLargeBinned(rings: map<int, seq<int>>, binned: map<int, int>, s: int, r: seq<int>, x: int)
    requires AllLargeBinned(rings, binned) && x in r && (s in rings ==> forall q :: q in rings[s] ==> q in r)
    ensures AllLargeBinned(rings[s := r], binned[x := s])
  {
  }

  /** insert_large_chunk when a chunk of the same size is already in the tree. */
  lemma ChainForest(base: int, F: Forest, w: Words, binned: map<int, int>, s: int, x: int)
    requires ForestOk(base, F, w, binned) && s in F.rings && Fresh(x, binned)
    ensures |F.rings[s]| > 0 && 0 <= s && F.rings[s][0] in w.fd
    ensures var r := F.rings[s];
      ForestOk(base, F.(rings := F.rings[s := InsertSecond(r, x)]), ChainedWords(w, r[0], w.fd[r[0]], x, TreeIndex(s)),
        binned[x := s])
  {
    var r := F.rings[s];
    ChainRings(F, w, binned, s, x);
    var f := w.fd[r[0]];
    ChainLinked(base, F, w, binned, s, x, f);
    InsertSecondHas(r, x);
    InsertLargeBinned(F.rings, binned, s, InsertSecond(r, x), x);
    hide Linked, Heads, RingsOk, ChainedWords, InsertSecond, AllLargeBinned;
  }

  lemma InsertSecondHas(r: seq<int>, x: int)
    requires |r| > 0
    ensures x in InsertSecond(r, x) && forall q :: q in r ==> q in InsertSecond(r, x)
  {
    var r' := InsertSecond(r, x);
    assert r'[1] == x;
    forall q | q in r ensures q in r' {
      var k :| 0 <= k < |r| && r[k] == q;
      if k > 0 { assert r'[k + 1] == q; } else { assert r'[0] == q; }
    }
  }

  // ---- a chunk that becomes a tree node ----

  ghost function AttachedWords(w: Words, slot: Slot, parent: int, x: int, i: int): Words {
    Words(w.slots[ChildOf(x, 0) := 0][ChildOf(x, 1) := 0][slot := x], w.par[x := parent], w.idx[x := i], w.fd[x := x],
      w.bk[x := x])
  }

  lemma AttachOtherRing(t: int, q: seq<int>, w: Words, binned: map<int, int>, slot: Slot, parent: int, x: int, i: int,
                        s: int)
    requires RingOk(t, q, w.fd, w.bk, w.slots, w.par, w.idx, binned) && Fresh(x, binned)
    requires slot.ChildOf? ==> forall k {:trigger q[k]} :: 1 <= k < |q| ==> slot.node != q[k]
    ensures var w' := AttachedWords(w, slot, parent, x, i);
      RingOk(t, q, w'.fd, w'.bk, w'.slots, w'.par, w'.idx, binned[x := s])
  {
    hide Ring, NoDuplicates;
    var w' := AttachedWords(w, slot, parent, x, i);
    assert forall k :: 0 <= k < |q| ==> q[k] != x;
    RingOkFrame(t, q, w, binned, w', binned[x := s]);
  }

  lemma AttachOwnRing(w: Words, binned: map<int, int>, slot: Slot, parent: int, x: int, s: int)
    requires 0 <= s && 0 < x
    ensures var w' := AttachedWords(w, slot, parent, x, TreeIndex(s));
      RingOk(s, [x], w'.fd, w'.bk, w'.slots, w'.par, w'.idx, binned[x := s])
  {
  }

  lemma AttachRings(F: Forest, w: Words, binned: map<int, int>, s: int, d: nat, x: int, slot: Slot, parent: int)
    requires RingsOk(F.rings, w.fd, w.bk, w.slots, w.par, w.idx, binned) && Fresh(x, binned) && 0 <= s
    requires slot.ChildOf? ==> forall t, k {:trigger F.rings[t][k]} ::
      t in F.rings && 1 <= k < |F.rings[t]| ==> slot.node != F.rings[t][k]
    ensures var w' := AttachedWords(w, slot, parent, x, TreeIndex(s));
      RingsOk(F.rings[s := [x]], w'.fd, w'.bk, w'.slots, w'.par, w'.idx, binned[x := s])
  {
    var w' := AttachedWords(w, slot, parent, x, TreeIndex(s));
    AttachOwnRing(w, binned, slot, parent, x, s);
    hide AttachedWords;
    var rings' := F.rings[s := [x]];
    forall t {:trigger rings'[t]} | t in rings'
      ensures RingOk(t, rings'[t], w'.fd, w'.bk, w'.slots, w'.par, w'.idx, binned[x := s]) {
      if t != s {
        assert RingOk(t, F.rings[t], w.fd, w.bk, w.slots, w.par, w.idx, binned);
        hide RingOk;
        AttachOtherRing(t, F.rings[t], w, binned, slot, parent, x, TreeIndex(s), s);
      }
    }
  }

  lemma AttachForestLinked(base: int, F: Forest, w: Words, binned: map<int, int>, s: int, d: nat, x: int)
    requires ForestOk(base, F, w, binned) && Fresh(x, binned) && LargeSize(s) && s !in F.depth
      && d <= FirstBit(TreeIndex(s)) + 1
    requires PosAt(s, d) !in F.at && (d > 0 ==> PosAt(s, d - 1) in F.at)
    ensures var node := Heads(F.rings);
      var w' := AttachedWords(w, SlotTo(F.at, node, PosAt(s, d)), ParentPtr(F.at, node, base, s, d), x, TreeIndex(s));
      Linked(F.at[PosAt(s, d) := s], F.depth[s := d], Heads(F.rings[s := [x]]), base, w'.slots, w'.par)
  {
    var node := Heads(F.rings);
    forall t | t in node ensures node[t] != x { FreshNotHead(F, w, binned, x, t); }
    HeadsUpdate(F.rings, s, [x]);
    hide Heads, RingsOk, AllLargeBinned;
    AttachLinked(F.at, F.depth, node, base, w.slots, w.par, s, d, x);
    hide Linked, SlotTo, ParentPtr, PosAt;
  }

  /** insert_large_chunk when the descent runs into an empty slot. */
  lemma AttachForest(base: int, F: Forest, w: Words, binned: map<int, int>, s: int, d: nat, x: int)
    requires ForestOk(base, F, w, binned) && Fresh(x, binned) && LargeSize(s) && s !in F.depth
      && d <= FirstBit(TreeIndex(s)) + 1
    requires PosAt(s, d) !in F.at && (d > 0 ==> PosAt(s, d - 1) in F.at)
    ensures var node := Heads(F.rings);
      var w' := AttachedWords(w, SlotTo(F.at, node, PosAt(s, d)), ParentPtr(F.at, node, base, s, d), x, TreeIndex(s));
      ForestOk(base, Forest(F.at[PosAt(s, d) := s], F.depth[s := d], F.rings[s := [x]]), w', binned[x := s])
  {
    hide ChildSlots, RootSlots, ParentLinks, NodesDistinct, Placed, Occupied, Rooted, Heads, RingsOk, AllLargeBinned,
      SlotTo, ParentPtr, Look, PosAt;
    var node := Heads(F.rings);
    AttachForestLinked(base, F, w, binned, s, d, x);
    var slot, parent := SlotTo(F.at, node, PosAt(s, d)), ParentPtr(F.at, node, base, s, d);
    hide AttachedWords, TreeIndex;
    AttachSlotIsHead(F, w, binned, s, d);
    AttachRings(F, w, binned, s, d, x, slot, parent);
    InsertLargeBinned(F.rings, binned, s, [x], x);
  }

  /** The slot a position hangs from belongs to a treebin or to a tree node. */
  lemma AttachSlotIsHead(F: Forest, w: Words, binned: map<int, int>, s: int, d: nat)
    requires RingsOk(F.rings, w.fd, w.bk, w.slots, w.par, w.idx, binned) && Trie(F.at, F.depth)
      && F.rings.Keys == F.depth.Keys
    requires LargeSize(s) && d <= FirstBit(TreeIndex(s)) + 1 && (d > 0 ==> PosAt(s, d - 1) in F.at)
    ensures var slot := SlotTo(F.at, Heads(F.rings), PosAt(s, d));
      slot.ChildOf? ==> forall t, k {:trigger F.rings[t][k]} ::
        t in F.rings && 1 <= k < |F.rings[t]| ==> slot.node != F.rings[t][k]
  {
    if d > 0 {
      PosAtParent(s, d - 1);
      HeadsKeys(F.rings, w, binned);
      var u := F.at[PosAt(s, d - 1)];
      forall t, k | t in F.rings && 1 <= k < |F.rings[t]| ensures Heads(F.rings)[u] != F.rings[t][k] {
        ChainedNotHead(F, w, binned, t, k, u);
      }
    }
    hide Prefix, TreeIndex;
  }

  // ---- unlink_large_chunk ----

  /** F->bk = R; R->fd = F, around x. */
  ghost function Spliced(w: Words, x: int): Words
    requires x in w.fd && x in w.bk
  {
    w.(fd := w.fd[w.bk[x] := w.fd[x]], bk := w.bk[w.fd[x] := w.bk[x]])
  }

  lemma UnchainOwnRing(s: int, r: seq<int>, w: Words, binned: map<int, int>, k: int)
    requires RingOk(s, r, w.fd, w.bk, w.slots, w.par, w.idx, binned) && 1 <= k < |r|
    ensures r[k] in w.fd && r[k] in w.bk
    ensures var f, b := w.fd[r[k]], w.bk[r[k]];
      f in binned && binned[f] == s && b in binned && binned[b] == s && b != r[k]
    ensures var w' := Spliced(w, r[k]);
      RingOk(s, RemoveAt(r, k), w'.fd, w'.bk, w'.slots, w'.par, w'.idx, binned - {r[k]})
  {
    RemoveRing(w.fd, w.bk, r, k);
    var r' := RemoveAt(r, k);
    assert w.fd[r[k]] == (if k + 1 < |r| then r[k + 1] else r[0]) && w.bk[r[k]] == r[k - 1];
    assert forall j :: 0 <= j < |r'| ==> r'[j] == if j < k then r[j] else r[j + 1];
    hide Ring;
  }

  /** The rings of other sizes do not notice. */
  lemma SpliceOtherRing(s: int, t: int, q: seq<int>, w: Words, binned: map<int, int>, x: int, slots': map<Slot, int>,
                        par': map<int, int>)
    requires RingOk(t, q, w.fd, w.bk, w.slots, w.par, w.idx, binned) && t != s && x in binned && binned[x] == s
    requires x in w.fd && x in w.bk && w.fd[x] in binned && binned[w.fd[x]] == s && w.bk[x] in binned
      && binned[w.bk[x]] == s
    requires forall k {:trigger q[k]} :: 1 <= k < |q| ==> Chained(q[k], slots', par')
    ensures var w' := Spliced(w, x).(slots := slots', par := par');
      RingOk(t, q, w'.fd, w'.bk, w'.slots, w'.par, w'.idx, binned - {x})
    ensures RingOk(t, q, w.fd, w.bk, slots', par', w.idx, binned - {x})
  {
    var w' := Spliced(w, x).(slots := slots', par := par');
    assert forall k :: 0 <= k < |q| ==> q[k] != x && q[k] != w.fd[x] && q[k] != w.bk[x];
    RingOkFrame(t, q, w, binned, w', binned - {x});
    RingOkFrame(t, q, w, binned, w.(slots := slots', par := par'), binned - {x});
  }

  lemma RemoveLargeBinned(rings: map<int, seq<int>>, binned: map<int, int>, s: int, r': seq<int>, x: int)
    requires AllLargeBinned(rings, binned) && s in rings && x in binned && binned[x] == s
    requires forall q :: q in rings[s] && q != x ==> q in r'
    ensures AllLargeBinned(rings[s := r'], binned - {x})
    ensures r' == [] ==> AllLargeBinned(rings - {s}, binned - {x})
  {
  }

  lemma RemoveAtHas<T>(r: seq<T>, k: int)
    requires 0 <= k < |r|
    ensures forall q :: q in r && q != r[k] ==> q in r[..k] + r[k + 1..]
  {
    var r' := r[..k] + r[k + 1..];
    forall q | q in r && q != r[k] ensures q in r' {
      var j :| 0 <= j < |r| && r[j] == q;
      if j < k { assert r'[j] == q; } else { assert r'[j - 1] == q; }
    }
  }

  /** Removing a chunk that is chained behind a tree node. */
  lemma UnchainForest(base: int, F: Forest, w: Words, binned: map<int, int>, s: int, k: int)
    requires ForestOk(base, F, w, binned) && s in F.rings && 1 <= k < |F.rings[s]|
    ensures F.rings[s][k] in w.fd && F.rings[s][k] in w.bk
    ensures var x := F.rings[s][k];
      ForestOk(base, F.(rings := F.rings[s := RemoveAt(F.rings[s], k)]), Spliced(w, x), binned - {x})
  {
    hide Linked, Chained;
    var r := F.rings[s];
    var x := r[k];
    assert RingOk(s, r, w.fd, w.bk, w.slots, w.par, w.idx, binned);
    UnchainOwnRing(s, r, w, binned, k);
    var w' := Spliced(w, x);
    var rings' := F.rings[s := RemoveAt(r, k)];
    HeadsUpdate(F.rings, s, RemoveAt(r, k));
    assert Heads(F.rings)[s := r[0]] == Heads(F.rings);
    RemoveAtHas(r, k);
    RemoveLargeBinned(F.rings, binned, s, RemoveAt(r, k), x);
    UnchainRings(F, w, binned, s, k);
    hide RingOk, RingsOk, AllLargeBinned;
  }

  lemma UnchainRings(F: Forest, w: Words, binned: map<int, int>, s: int, k: int)
    requires RingsOk(F.rings, w.fd, w.bk, w.slots, w.par, w.idx, binned) && s in F.rings && 1 <= k < |F.rings[s]|
    ensures F.rings[s][k] in w.fd && F.rings[s][k] in w.bk
    ensures var x := F.rings[s][k]; var w' := Spliced(w, x);
      RingsOk(F.rings[s := RemoveAt(F.rings[s], k)], w'.fd, w'.bk, w'.slots, w'.par, w'.idx, binned - {x})
  {
    hide Chained;
    var r := F.rings[s];
    var x := r[k];
    assert RingOk(s, r, w.fd, w.bk, w.slots, w.par, w.idx, binned);
    UnchainOwnRing(s, r, w, binned, k);
    assert x in binned && binned[x] == s;
    var w' := Spliced(w, x);
    var rings' := F.rings[s := RemoveAt(r, k)];
    forall t {:trigger rings'[t]} | t in rings'
      ensures RingOk(t, rings'[t], w'.fd, w'.bk, w'.slots, w'.par, w'.idx, binned - {x}) {
      if t != s {
        assert RingOk(t, F.rings[t], w.fd, w.bk, w.slots, w.par, w.idx, binned);
        SpliceOtherRing(s, t, F.rings[t], w, binned, x, w.slots, w.par);
      }
    }
  }

  /** Chunks chained behind tree nodes (other than r) keep their null links. */
  ghost predicate KeepsChained(rings: map<int, seq<int>>, slots: map<Slot, int>, par: map<int, int>, r: int) {
    forall t, k {:trigger rings[t][k]} ::
      t in rings && 1 <= k < |rings[t]| && rings[t][k] != r ==> Chained(rings[t][k], slots, par)
  }

  /** node lists tree nodes only. */
  ghost predicate NodesAmong(node: map<int, int>, rings: map<int, seq<int>>) {
    forall t {:trigger node[t]} :: t in node ==> t in Heads(rings) && node[t] == Heads(rings)[t]
  }

  lemma LookIsHead(F: Forest, w: Words, binned: map<int, int>, at: map<Pos, int>, node: map<int, int>, p: Pos, t: int,
                   k: int)
    requires RingsOk(F.rings, w.fd, w.bk, w.slots, w.par, w.idx, binned) && t in F.rings && 1 <= k < |F.rings[t]|
    requires NodesAmong(node, F.rings)
    ensures Look(at, node, p) == F.rings[t][k] ==> F.rings[t][k] == 0
  {
    if p in at && at[p] in node {
      var _ := node[at[p]];
      ChainedNotHead(F, w, binned, t, k, at[p]);
    }
    hide Heads, RingsOk;
  }

  lemma AllChained(F: Forest, w: Words, binned: map<int, int>)
    requires RingsOk(F.rings, w.fd, w.bk, w.slots, w.par, w.idx, binned)
    ensures KeepsChained(F.rings, w.slots, w.par, 0)
  {
    forall t, k {:trigger F.rings[t][k]} | t in F.rings && 1 <= k < |F.rings[t]|
      ensures Chained(F.rings[t][k], w.slots, w.par) {
      assert RingOk(t, F.rings[t], w.fd, w.bk, w.slots, w.par, w.idx, binned);
    }
  }

  lemma ReplaceKeepsChained(F: Forest, w: Words, binned: map<int, int>, at: map<Pos, int>, node: map<int, int>,
                            slots: map<Slot, int>, p: Pos, r: int, xp: int)
    requires RingsOk(F.rings, w.fd, w.bk, w.slots, w.par, w.idx, binned) && NodesAmong(node, F.rings)
    requires KeepsChained(F.rings, slots, w.par, 0)
    requires p.depth > 0 ==> Look(at, node, Parent(p)) != 0
    ensures KeepsChained(F.rings, ReplacedSlots(at, node, p, r, slots), ReplacedParents(at, node, p, r, xp, w.par), r)
  {
    var slots', par' := ReplacedSlots(at, node, p, r, slots), ReplacedParents(at, node, p, r, xp, w.par);
    forall t, k {:trigger F.rings[t][k]} | t in F.rings && 1 <= k < |F.rings[t]| && F.rings[t][k] != r
      ensures Chained(F.rings[t][k], slots', par')
    {
      assert RingOk(t, F.rings[t], w.fd, w.bk, w.slots, w.par, w.idx, binned);
      LookIsHead(F, w, binned, at, node, Child(p, 0), t, k);
      LookIsHead(F, w, binned, at, node, Child(p, 1), t, k);
      if p.depth > 0 { LookIsHead(F, w, binned, at, node, Parent(p), t, k); }
      hide Look, Heads, Ring, RingsOk, NodesAmong;
    }
  }

  lemma DetachKeepsChained(F: Forest, w: Words, binned: map<int, int>, p: Pos)
    requires RingsOk(F.rings, w.fd, w.bk, w.slots, w.par, w.idx, binned)
    requires p.depth > 0 ==> Look(F.at, Heads(F.rings), Parent(p)) != 0
    ensures KeepsChained(F.rings, w.slots[SlotTo(F.at, Heads(F.rings), p) := 0], w.par, 0)
  {
    var slots' := w.slots[SlotTo(F.at, Heads(F.rings), p) := 0];
    forall t, k {:trigger F.rings[t][k]} | t in F.rings && 1 <= k < |F.rings[t]| && F.rings[t][k] != 0
      ensures Chained(F.rings[t][k], slots', w.par)
    {
      assert RingOk(t, F.rings[t], w.fd, w.bk, w.slots, w.par, w.idx, binned);
      if p.depth > 0 { LookIsHead(F, w, binned, F.at, Heads(F.rings), Parent(p), t, k); }
      hide Look, Heads, Ring, RingsOk;
    }
  }

  /** The last chunk of the ring moves up to be the tree node. */
  lemma PromoteOwnRing(s: int, r: seq<int>, w: Words, binned: map<int, int>, slots': map<Slot, int>,
                       par': map<int, int>)
    requires RingOk(s, r, w.fd, w.bk, w.slots, w.par, w.idx, binned) && 2 <= |r|
    requires forall k {:trigger r[k]} :: 1 <= k < |r| - 1 ==> Chained(r[k], slots', par')
    ensures r[0] in w.fd && r[0] in w.bk && w.bk[r[0]] == r[|r| - 1] && w.fd[r[0]] == r[1]
    ensures var w' := Spliced(w, r[0]).(slots := slots', par := par');
      RingOk(s, Rotate(RemoveAt(r, 0)), w'.fd, w'.bk, w'.slots, w'.par, w'.idx, binned - {r[0]})
  {
    RemoveRing(w.fd, w.bk, r, 0);
    var w' := Spliced(w, r[0]);
    RotateRing(w'.fd, w'.bk, RemoveAt(r, 0));
    var r' := Rotate(RemoveAt(r, 0));
    assert |r'| == |r| - 1 && forall j :: 0 <= j < |r'| ==> r'[j] == if j == 0 then r[|r| - 1] else r[j];
    hide Ring, Chained;
  }

  lemma PromoteRings(F: Forest, w: Words, binned: map<int, int>, s: int, slots': map<Slot, int>, par': map<int, int>)
    requires RingsOk(F.rings, w.fd, w.bk, w.slots, w.par, w.idx, binned) && s in F.rings && 2 <= |F.rings[s]|
    requires KeepsChained(F.rings, slots', par', F.rings[s][|F.rings[s]| - 1])
    ensures F.rings[s][0] in w.fd && F.rings[s][0] in w.bk
    ensures var x := F.rings[s][0]; var w' := Spliced(w, x).(slots := slots', par := par');
      RingsOk(F.rings[s := Rotate(RemoveAt(F.rings[s], 0))], w'.fd, w'.bk, w'.slots, w'.par, w'.idx, binned - {x})
  {
    hide Chained;
    var r := F.rings[s];
    var x := r[0];
    assert RingOk(s, r, w.fd, w.bk, w.slots, w.par, w.idx, binned);
    assert forall k :: 1 <= k < |r| - 1 ==> r[k] != r[|r| - 1];
    PromoteOwnRing(s, r, w, binned, slots', par');
    assert x in binned && binned[x] == s;
    var last := r[|r| - 1];
    assert last in binned && binned[last] == s && r[1] in binned && binned[r[1]] == s;
    var w' := Spliced(w, x).(slots := slots', par := par');
    var rings' := F.rings[s := Rotate(RemoveAt(r, 0))];
    forall t {:trigger rings'[t]} | t in rings'
      ensures RingOk(t, rings'[t], w'.fd, w'.bk, w'.slots, w'.par, w'.idx, binned - {x}) {
      if t != s {
        assert RingOk(t, F.rings[t], w.fd, w.bk, w.slots, w.par, w.idx, binned);
        assert forall k :: 1 <= k < |F.rings[t]| ==> F.rings[t][k] != last;
        SpliceOtherRing(s, t, F.rings[t], w, binned, x, slots', par');
      }
    }
  }

  /** A tree node that is not the root of its bin hangs from another tree node. */
  lemma ParentIsNode(F: Forest, w: Words, binned: map<int, int>, base: int, s: int)
    requires ForestOk(base, F, w, binned) && s in F.rings
    ensures s in F.depth && LargeSize(s)
    ensures var p := PosAt(s, F.depth[s]);
      && p in F.at && F.at[p] == s && p.depth == F.depth[s] && p.bin == TreeIndex(s) < 32
      && (p.depth > 0 ==> Parent(p) in F.at && Look(F.at, Heads(F.rings), Parent(p)) > 0)
  {
    HeadsKeys(F.rings, w, binned);
    hide Heads, RingsOk, ChildSlots, RootSlots, ParentLinks, AllLargeBinned;
    var _ := F.depth[s];
    var p := PosAt(s, F.depth[s]);
    TreeIndexMeans(s);
    hide PosAt, TreeIndex;
    if p.depth > 0 {
      var q := F.at[Parent(p)];
      var _ := Heads(F.rings)[q];
    }
  }

  ghost function PromotedWords(F: Forest, w: Words, s: int, r: int, xp: int): Words
    requires s in F.depth && 0 <= s
  {
    var node := Heads(F.rings);
    var p := PosAt(s, F.depth[s]);
    w.(slots := ReplacedSlots(F.at, node, p, r, w.slots), par := ReplacedParents(F.at, node, p, r, xp, w.par))
  }

  lemma PromoteOwnRingLinks(s: int, r: seq<int>, w: Words, binned: map<int, int>)
    requires RingOk(s, r, w.fd, w.bk, w.slots, w.par, w.idx, binned) && 2 <= |r|
    ensures r[0] in w.fd && r[0] in w.bk && w.bk[r[0]] == r[|r| - 1] && w.fd[r[0]] == r[1] && r[0] in binned
      && binned[r[0]] == s
    ensures r[|r| - 1] in binned && binned[r[|r| - 1]] == s && r[|r| - 1] != r[0] && 0 <= s
  {
  }

  lemma PromoteHas(r: seq<int>)
    requires 2 <= |r|
    ensures forall q :: q in r && q != r[0] ==> q in Rotate(RemoveAt(r, 0))
  {
    var r' := Rotate(RemoveAt(r, 0));
    assert |r'| == |r| - 1 && forall j :: 0 <= j < |r'| ==> r'[j] == if j == 0 then r[|r| - 1] else r[j];
    forall q | q in r && q != r[0] ensures q in r' {
      var j :| 0 <= j < |r| && r[j] == q;
      if j == |r| - 1 { assert r'[0] == q; } else { assert r'[j] == q; }
    }
  }

  lemma PromoteMayReplace(base: int, F: Forest, w: Words, binned: map<int, int>, s: int)
    requires ForestOk(base, F, w, binned) && s in F.rings && 2 <= |F.rings[s]|
    ensures MayReplace(F.at, F.depth, Heads(F.rings), s, s, F.rings[s][|F.rings[s]| - 1])
  {
    ParentIsNode(F, w, binned, base, s);
    var r := F.rings[s];
    var last := r[|r| - 1];
    assert RingOk(s, r, w.fd, w.bk, w.slots, w.par, w.idx, binned);
    assert 0 < last;
    var node := Heads(F.rings);
    forall t | t in node ensures node[t] != last { ChainedNotHead(F, w, binned, s, |r| - 1, t); }
    var _ := F.depth[s];
    hide Heads, RingsOk, RingOk, ChildSlots, RootSlots, ParentLinks, PosAt;
  }

  lemma PromoteLinked(base: int, F: Forest, w: Words, binned: map<int, int>, s: int)
    requires ForestOk(base, F, w, binned) && s in F.rings && 2 <= |F.rings[s]|
    ensures F.rings[s][0] in w.par && s in F.depth && 0 <= s
    ensures var x := F.rings[s][0]; var w' := PromotedWords(F, w, s, F.rings[s][|F.rings[s]| - 1], w.par[x]);
      Linked(F.at, F.depth, Heads(F.rings[s := Rotate(RemoveAt(F.rings[s], 0))]), base, w'.slots, w'.par)
  {
    hide RingOk, ChildSlots, RootSlots, ParentLinks, Placed, Occupied, Rooted, PosAt, ReplacedSlots, ReplacedParents,
      Ring, Chained;
    var r := F.rings[s];
    var last := r[|r| - 1];
    PromoteMayReplace(base, F, w, binned, s);
    ParentIsNode(F, w, binned, base, s);
    HeadsKeys(F.rings, w, binned);
    var node := Heads(F.rings);
    ReplaceLinked(F.at, F.depth, node, base, w.slots, w.par, s, s, last);
    var r' := Rotate(RemoveAt(r, 0));
    HeadsUpdate(F.rings, s, r');
    assert r'[0] == last;
    hide Heads, MayReplace, RingsOk, AllLargeBinned;
    assert (node - {s})[s := last] == node[s := last];
    assert (F.depth - {s})[s := F.depth[s]] == F.depth;
    assert F.at[PosAt(s, F.depth[s]) := s] == F.at;
  }

  /** Removing a tree node that has chunks chained behind it: the last of them takes its place. */
  lemma PromoteForest(base: int, F: Forest, w: Words, binned: map<int, int>, s: int)
    requires ForestOk(base, F, w, binned) && s in F.rings && 2 <= |F.rings[s]|
    ensures F.rings[s][0] in w.fd && F.rings[s][0] in w.bk && F.rings[s][0] in w.par && s in F.depth && 0 <= s
    ensures var x := F.rings[s][0];
      ForestOk(base, F.(rings := F.rings[s := Rotate(RemoveAt(F.rings[s], 0))]),
               PromotedWords(F, Spliced(w, x), s, w.bk[x], w.par[x]), binned - {x})
  {
    hide ChildSlots, RootSlots, ParentLinks, Placed, Occupied, Rooted, PosAt, ReplacedSlots, ReplacedParents, Ring,
      Chained, NodesDistinct;
    hide Look, AllLargeBinned;
    ParentIsNode(F, w, binned, base, s);
    var r := F.rings[s];
    var x, last := r[0], r[|r| - 1];
    var p := PosAt(s, F.depth[s]);
    PromoteLinked(base, F, w, binned, s);
    assert RingOk(s, r, w.fd, w.bk, w.slots, w.par, w.idx, binned);
    PromoteOwnRingLinks(s, r, w, binned);
    hide RingOk, RingsOk, Linked, Heads;
    AllChained(F, w, binned);
    ReplaceKeepsChained(F, w, binned, F.at, Heads(F.rings), w.slots, p, last, w.par[x]);
    var w' := PromotedWords(F, w, s, last, w.par[x]);
    PromoteRings(F, w, binned, s, w'.slots, w'.par);
    PromoteHas(r);
    RemoveLargeBinned(F.rings, binned, s, Rotate(RemoveAt(r, 0)), x);
  }

  // ---- the last chunk of its size ----

  /** Removing a childless tree node with no chunk behind it: its slot becomes null. */
  lemma PruneForest(base: int, F: Forest, w: Words, binned: map<int, int>, s: int)
    requires ForestOk(base, F, w, binned) && s in F.rings && |F.rings[s]| == 1
    requires s in F.depth && 0 <= s && Leaf(F.at, PosAt(s, F.depth[s]))
    ensures var p := PosAt(s, F.depth[s]);
      ForestOk(base, Forest(F.at - {p}, F.depth - {s}, F.rings - {s}),
               w.(slots := w.slots[SlotTo(F.at, Heads(F.rings), p) := 0]), binned - {F.rings[s][0]})
  {
    hide ChildSlots, RootSlots, ParentLinks, Placed, Occupied, Rooted, PosAt, Ring, Chained, NodesDistinct, Look, Leaf,
      SlotTo;
    ParentIsNode(F, w, binned, base, s);
    var p := PosAt(s, F.depth[s]);
    var x := F.rings[s][0];
    HeadsKeys(F.rings, w, binned);
    HeadsRemove(F.rings, s);
    DetachLinked(F.at, F.depth, Heads(F.rings), base, w.slots, w.par, s);
    assert RingOk(s, F.rings[s], w.fd, w.bk, w.slots, w.par, w.idx, binned);
    RemoveLargeBinned(F.rings, binned, s, [], x);
    hide Heads, Linked;
    DetachKeepsChained(F, w, binned, p);
    var slots' := w.slots[SlotTo(F.at, Heads(F.rings), p) := 0];
    PruneRings(F, w, binned, s, slots', w.par);
  }

  lemma PruneRings(F: Forest, w: Words, binned: map<int, int>, s: int, slots': map<Slot, int>, par': map<int, int>)
    requires RingsOk(F.rings, w.fd, w.bk, w.slots, w.par, w.idx, binned) && s in F.rings && |F.rings[s]| == 1
    requires KeepsChained(F.rings, slots', par', 0)
    ensures RingsOk(F.rings - {s}, w.fd, w.bk, slots', par', w.idx, binned - {F.rings[s][0]})
  {
    hide Chained;
    assert RingOk(s, F.rings[s], w.fd, w.bk, w.slots, w.par, w.idx, binned);
    var x := F.rings[s][0];
    var rings' := F.rings - {s};
    forall t {:trigger rings'[t]} | t in rings'
      ensures RingOk(t, rings'[t], w.fd, w.bk, slots', par', w.idx, binned - {x}) {
      assert RingOk(t, F.rings[t], w.fd, w.bk, w.slots, w.par, w.idx, binned);
      assert forall k :: 1 <= k < |F.rings[t]| ==> F.rings[t][k] != 0;
      hide Ring, NoDuplicates;
      RingOkFrame(t, F.rings[t], w, binned, w.(slots := slots', par := par'), binned - {x});
    }
  }

  /** Leaf u hangs below s, the only chunk of its size, and may take its place. */
  ghost predicate MaySubstitute(F: Forest, s: int, u: int) {
    && s in F.rings && |F.rings[s]| == 1 && s in F.depth && 0 <= s
    && u in F.rings && u in F.depth && 0 <= u && F.depth[s] < F.depth[u] && |F.rings[u]| > 0
    && PosAt(u, F.depth[s]) == PosAt(s, F.depth[s]) && Leaf(F.at, PosAt(u, F.depth[u]))
  }

  ghost function CutSlots(F: Forest, w: Words, u: int): map<Slot, int>
    requires u in F.depth && 0 <= u
  {
    w.slots[SlotTo(F.at, Heads(F.rings), PosAt(u, F.depth[u])) := 0]
  }

  ghost function SubstitutedWords(F: Forest, w: Words, s: int, u: int, r: int, xp: int): Words
    requires u in F.depth && 0 <= u && s in F.depth && 0 <= s
  {
    var at1, node1 := F.at - {PosAt(u, F.depth[u])}, Heads(F.rings) - {u};
    var p := PosAt(s, F.depth[s]);
    w.(slots := ReplacedSlots(at1, node1, p, r, CutSlots(F, w, u)), par := ReplacedParents(at1, node1, p, r, xp, w.par))
  }

  function SubstitutedForest(F: Forest, s: int, u: int): Forest
    requires u in F.depth && 0 <= u && s in F.depth && 0 <= s
  {
    Forest((F.at - {PosAt(u, F.depth[u])})[PosAt(s, F.depth[s]) := u], ((F.depth - {u}) - {s})[u := F.depth[s]],
      F.rings - {s})
  }

  lemma SubstituteLinked(base: int, F: Forest, w: Words, binned: map<int, int>, s: int, u: int)
    requires ForestOk(base, F, w, binned) && MaySubstitute(F, s, u)
    ensures F.rings[s][0] in w.par
    ensures var F' := SubstitutedForest(F, s, u);
      var w' := SubstitutedWords(F, w, s, u, F.rings[u][0], w.par[F.rings[s][0]]);
      Linked(F'.at, F'.depth, Heads(F'.rings), base, w'.slots, w'.par)
  {
    hide ChildSlots, RootSlots, ParentLinks, Placed, Occupied, Rooted, PosAt, RingOk, Look, Leaf, SlotTo, ReplacedSlots,
      ReplacedParents, AllLargeBinned;
    ParentIsNode(F, w, binned, base, s);
    ParentIsNode(F, w, binned, base, u);
    HeadsKeys(F.rings, w, binned);
    HeadsRemove(F.rings, s);
    var node := Heads(F.rings);
    hide Heads, RingsOk;
    DetachLinked(F.at, F.depth, node, base, w.slots, w.par, u);
    SubstituteMayReplace(F.at, F.depth, node, s, u);
    ReplaceLinked(F.at - {PosAt(u, F.depth[u])}, F.depth - {u}, node - {u}, base, CutSlots(F, w, u), w.par, s, u,
      node[u]);
    assert ((node - {u}) - {s})[u := node[u]] == node - {s};
    hide Linked;
  }

  lemma SubstituteMayReplace(at: map<Pos, int>, depth: map<int, nat>, node: map<int, int>, s: int, u: int)
    requires Trie(at, depth) && NodesDistinct(node) && node.Keys == depth.Keys
    requires s in depth && u in depth && LargeSize(s) && LargeSize(u) && depth[s] < depth[u]
      && PosAt(u, depth[s]) == PosAt(s, depth[s])
    ensures MayReplace(at - {PosAt(u, depth[u])}, depth - {u}, node - {u}, s, u, node[u])
  {
    assert PosAt(u, depth[u]) in at;
    hide PosAt;
  }

  lemma SubstituteKeepsChained(base: int, F: Forest, w: Words, binned: map<int, int>, s: int, u: int, xp: int)
    requires ForestOk(base, F, w, binned) && MaySubstitute(F, s, u)
    ensures var w' := SubstitutedWords(F, w, s, u, F.rings[u][0], xp); KeepsChained(F.rings, w'.slots, w'.par, 0)
  {
    hide ChildSlots, RootSlots, ParentLinks, Placed, Occupied, Rooted, PosAt, RingOk, Leaf, SlotTo, ReplacedSlots,
      ReplacedParents, AllLargeBinned;
    hide NodesDistinct, Chained;
    ParentIsNode(F, w, binned, base, s);
    ParentIsNode(F, w, binned, base, u);
    DetachKeepsChained(F, w, binned, PosAt(u, F.depth[u]));
    var at1, node1 := F.at - {PosAt(u, F.depth[u])}, Heads(F.rings) - {u};
    assert NodesAmong(node1, F.rings);
    var p := PosAt(s, F.depth[s]);
    if p.depth > 0 { DetachLook(F.at, F.depth, Heads(F.rings), u, Parent(p)); }
    var r := F.rings[u][0];
    ReplaceKeepsChained(F, w, binned, at1, node1, CutSlots(F, w, u), p, r, xp);
    forall t, k | t in F.rings && 1 <= k < |F.rings[t]| ensures F.rings[t][k] != r {
      ChainedNotHead(F, w, binned, t, k, u);
    }
    hide RingsOk, Heads;
  }

  /** Removing the only chunk of its size from inside the tree: the leaf u takes its place. */
  lemma SubstituteForest(base: int, F: Forest, w: Words, binned: map<int, int>, s: int, u: int)
    requires ForestOk(base, F, w, binned) && MaySubstitute(F, s, u)
    ensures F.rings[s][0] in w.par
    ensures ForestOk(base, SubstitutedForest(F, s, u),
      SubstitutedWords(F, w, s, u, F.rings[u][0], w.par[F.rings[s][0]]),
                     binned - {F.rings[s][0]})
  {
    hide ChildSlots, RootSlots, ParentLinks, Placed, Occupied, Rooted, PosAt, Look, Leaf, SlotTo, ReplacedSlots,
      ReplacedParents;
    hide Ring, Chained, NodesDistinct;
    var x := F.rings[s][0];
    SubstituteLinked(base, F, w, binned, s, u);
    SubstituteKeepsChained(base, F, w, binned, s, u, w.par[x]);
    var w' := SubstitutedWords(F, w, s, u, F.rings[u][0], w.par[x]);
    PruneRings(F, w, binned, s, w'.slots, w'.par);
    assert RingOk(s, F.rings[s], w.fd, w.bk, w.slots, w.par, w.idx, binned);
    RemoveLargeBinned(F.rings, binned, s, [], x);
    hide Linked, Heads, RingsOk, AllLargeBinned, RingOk;
  }

  // ---- the treemap ----

  lemma AttachMarks(at: map<Pos, int>, treemap: nat, s: int, d: nat)
    requires MapMarks(at, treemap) && LargeSize(s) && treemap < Pow2(32)
    ensures TreeIndex(s) < 32
    ensures d == 0 ==> MapMarks(at[PosAt(s, 0) := s], Or(32, treemap, Bit(TreeIndex(s))))
    ensures d > 0 ==> MapMarks(at[PosAt(s, d) := s], treemap)
  {
    PosAtRoot(s);
    hide PosAt, TreeIndex, Has, Or, Bit, Pow2;
    var at' := at[PosAt(s, d) := s];
    if d == 0 {
      var map' := Or(32, treemap, Bit(TreeIndex(s)));
      forall i: nat | i < 32 ensures Has(map', i) <==> Root(i) in at' {
        MarkClear(treemap, TreeIndex(s), i);
      }
    } else {
      PosDepth(s, d);
      assert forall i: nat :: Root(i) in at' <==> Root(i) in at;
    }
  }

  lemma PosDepth(s: int, d: nat)
    requires 0 <= s
    ensures PosAt(s, d).depth == d && PosAt(s, d).bin == TreeIndex(s)
  {
    hide TreeIndex;
  }

  lemma PruneMarks(at: map<Pos, int>, treemap: nat, s: int, d: nat)
    requires MapMarks(at, treemap) && LargeSize(s) && treemap < Pow2(32)
    ensures TreeIndex(s) < 32
    ensures d == 0 ==> MapMarks(at - {PosAt(s, 0)}, And(32, treemap, Not(32, Bit(TreeIndex(s)))))
    ensures d > 0 ==> MapMarks(at - {PosAt(s, d)}, treemap)
  {
    PosAtRoot(s);
    hide PosAt, TreeIndex, Has, And, Not, Bit, Pow2;
    var at' := at - {PosAt(s, d)};
    if d == 0 {
      var map' := And(32, treemap, Not(32, Bit(TreeIndex(s))));
      forall i: nat | i < 32 ensures Has(map', i) <==> Root(i) in at' {
        MarkClear(treemap, TreeIndex(s), i);
      }
    } else {
      PosDepth(s, d);
      assert forall i: nat :: Root(i) in at' <==> Root(i) in at;
    }
  }

  lemma SubstituteMarks(F: Forest, treemap: nat, s: int, u: int)
    requires MapMarks(F.at, treemap) && s in F.depth && u in F.depth && 0 <= s && 0 <= u && F.depth[s] < F.depth[u]
    requires PosAt(s, F.depth[s]) in F.at
    ensures MapMarks(SubstitutedForest(F, s, u).at, treemap)
  {
    PosDepth(u, F.depth[u]);
    PosDepth(s, F.depth[s]);
    hide PosAt, Has;
    var at' := SubstitutedForest(F, s, u).at;
    assert forall i: nat :: Root(i) in at' <==> Root(i) in F.at;
  }

  // ---- small chunks coming and going ----

  /** binned' and the links agree with binned on all large chunks. */
  ghost predicate SameLarge(w: Words, binned: map<int, int>, fd': map<int, int>, bk': map<int, int>,
                            binned': map<int, int>)
  {
    && (forall x {:trigger binned[x]} :: x in binned && 256 <= binned[x] ==>
          && x in binned' && binned'[x] == binned[x]
          && (x in w.fd ==> x in fd' && fd'[x] == w.fd[x]) && (x in w.bk ==> x in bk' && bk'[x] == w.bk[x]))
    && (forall x {:trigger binned'[x]} :: x in binned' && 256 <= binned'[x] ==> x in binned && binned[x] == binned'[x])
  }

  lemma RingsFrame(rings: map<int, seq<int>>, depth: map<int, nat>, w: Words, binned: map<int, int>,
                   fd': map<int, int>, bk': map<int, int>, binned': map<int, int>)
    requires RingsOk(rings, w.fd, w.bk, w.slots, w.par, w.idx, binned) && SameLarge(w, binned, fd', bk', binned')
    requires forall s {:trigger rings[s]} :: s in rings ==> 256 <= s
    ensures RingsOk(rings, fd', bk', w.slots, w.par, w.idx, binned')
  {
    hide Chained, Ring, NoDuplicates;
    var w' := w.(fd := fd', bk := bk');
    forall s {:trigger rings[s]} | s in rings
      ensures RingOk(s, rings[s], w'.fd, w'.bk, w'.slots, w'.par, w'.idx, binned') {
      assert RingOk(s, rings[s], w.fd, w.bk, w.slots, w.par, w.idx, binned);
      RingOkFrame(s, rings[s], w, binned, w', binned');
    }
  }

  /** Link writes to small chunks, and small chunks coming and going, leave the forest alone. */
  lemma ForestFrame(base: int, F: Forest, w: Words, binned: map<int, int>, fd': map<int, int>, bk': map<int, int>,
                    binned': map<int, int>)
    requires ForestOk(base, F, w, binned) && SameLarge(w, binned, fd', bk', binned')
    ensures ForestOk(base, F, w.(fd := fd', bk := bk'), binned')
  {
    hide ChildSlots, RootSlots, ParentLinks, Occupied, Rooted, NodesDistinct, PosAt, RingOk;
    forall s | s in F.rings ensures 256 <= s { var _ := F.depth[s]; }
    RingsFrame(F.rings, F.depth, w, binned, fd', bk', binned');
    hide RingsOk, Heads, Trie;
  }

  // ---- reading the forest through its words ----

  /** The chunk at an occupied position, and where its two child slots lead. */
  lemma NodeAt(base: int, F: Forest, w: Words, binned: map<int, int>, p: Pos)
    requires ForestOk(base, F, w, binned) && p in F.at
    ensures F.at[p] in F.rings && F.at[p] in F.depth && F.depth[F.at[p]] == p.depth && LargeSize(F.at[p])
      && PosAt(F.at[p], p.depth) == p
    ensures TreeIndex(F.at[p]) == p.bin && p.depth <= FirstBit(p.bin) + 1 && Trie(F.at, F.depth)
    ensures |F.rings[F.at[p]]| > 0
    ensures var t := Look(F.at, Heads(F.rings), p);
      && t == F.rings[F.at[p]][0] && 0 < t && t in binned && binned[t] == F.at[p]
      && (forall b {:trigger ChildOf(t, b)} :: 0 <= b < 2 ==>
            ChildOf(t, b) in w.slots && w.slots[ChildOf(t, b)] == Look(F.at, Heads(F.rings), Child(p, b)))
  {
    HeadsKeys(F.rings, w, binned);
    var s := F.at[p];
    assert s in F.rings;
    assert RingOk(s, F.rings[s], w.fd, w.bk, w.slots, w.par, w.idx, binned);
    var _ := F.depth[s];
    hide Heads, RingsOk, Ring, RootSlots, ParentLinks, AllLargeBinned, Chained, Prefix;
  }

  lemma RootAt(base: int, F: Forest, w: Words, binned: map<int, int>, i: nat)
    requires ForestOk(base, F, w, binned) && i < 32
    ensures BinRoot(i) in w.slots && w.slots[BinRoot(i)] == Look(F.at, Heads(F.rings), Root(i))
  {
    hide Heads, RingsOk, ChildSlots, ParentLinks, AllLargeBinned, Trie, Look;
  }

  /** A slot is null exactly when the position it leads to is free. */
  lemma LookNull(base: int, F: Forest, w: Words, binned: map<int, int>, p: Pos)
    requires ForestOk(base, F, w, binned)
    ensures Look(F.at, Heads(F.rings), p) != 0 <==> p in F.at
  {
    if p in F.at { NodeAt(base, F, w, binned, p); }
    hide Heads, RingsOk, Linked, AllLargeBinned;
  }
}
