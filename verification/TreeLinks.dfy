/** The tree bins in memory: child slots, parent pointers, bin roots and the treemap agree with the tries. */
module TreeLinks {
  import opened ChunkLayout
  import opened BinMaps
  import opened BinIndex
  import opened Tries

  /** A place that holds a tree pointer: a treebin, or child[side] of the chunk at node. */
  datatype Slot = BinRoot(bin: nat) | ChildOf(node: int, side: int)

  /** The address of treebin i in the malloc_state of the chunk at base. */
  function RootAddr(base: int, bin: nat): int { base + 2 * W + TREEBINS_OFFSET + W * bin }

  /** The chunk at a position, or null. */
  ghost function Look(at: map<Pos, int>, node: map<int, int>, p: Pos): int {
    if p in at && at[p] in node then node[at[p]] else 0
  }

  ghost predicate NodesDistinct(node: map<int, int>) {
    && (forall s {:trigger node[s]} :: s in node ==> 0 < node[s])
    && (forall s, t {:trigger node[s], node[t]} :: s in node && t in node && node[s] == node[t] ==> s == t)
  }

  ghost predicate ChildSlots(at: map<Pos, int>, depth: map<int, nat>, node: map<int, int>, slots: map<Slot, int>) {
    forall s, b {:trigger ChildOf(node[s], b)} :: s in node && s in depth && 0 <= s && 0 <= b < 2 ==>
      ChildOf(node[s], b) in slots && slots[ChildOf(node[s], b)] == Look(at, node, Child(PosAt(s, depth[s]), b))
  }

  ghost predicate RootSlots(at: map<Pos, int>, node: map<int, int>, slots: map<Slot, int>) {
    forall i: nat {:trigger BinRoot(i)} ::
      i < 32 ==> BinRoot(i) in slots && slots[BinRoot(i)] == Look(at, node, Root(i))
  }

  ghost function ParentPtr(at: map<Pos, int>, node: map<int, int>, base: int, s: int, d: nat): int
    requires 0 <= s
  {
    if d == 0 then RootAddr(base, TreeIndex(s)) else Look(at, node, PosAt(s, d - 1))
  }

  ghost predicate ParentLinks(at: map<Pos, int>, depth: map<int, nat>, node: map<int, int>, base: int,
                              par: map<int, int>)
  {
    forall s {:trigger node[s]} :: s in node && s in depth && 0 <= s ==>
      node[s] in par && par[node[s]] == ParentPtr(at, node, base, s, depth[s])
  }

  ghost predicate MapMarks(at: map<Pos, int>, treemap: nat) {
    forall i: nat {:trigger Has(treemap, i)} {:trigger Root(i)} :: i < 32 ==> (Has(treemap, i) <==> Root(i) in at)
  }

  /** The slot that leads to a position. */
  ghost function SlotTo(at: map<Pos, int>, node: map<int, int>, p: Pos): Slot {
    if p.depth == 0 then BinRoot(p.bin) else ChildOf(Look(at, node, Parent(p)), p.prefix % 2)
  }

  /** Everything but the treemap. */
  ghost predicate Linked(at: map<Pos, int>, depth: map<int, nat>, node: map<int, int>, base: int,
                         slots: map<Slot, int>, par: map<int, int>)
  {
    && Trie(at, depth) && node.Keys == depth.Keys && NodesDistinct(node)
    && ChildSlots(at, depth, node, slots) && RootSlots(at, node, slots) && ParentLinks(at, depth, node, base, par)
  }

  // ---- a new node in an empty slot ----

  ghost predicate MayAttach(at: map<Pos, int>, depth: map<int, nat>, node: map<int, int>, s: int, d: nat, x: int) {
    && LargeSize(s) && s !in depth && d <= FirstBit(TreeIndex(s)) + 1
    && PosAt(s, d) !in at && (d > 0 ==> PosAt(s, d - 1) in at)
    && 0 < x && (forall t {:trigger node[t]} :: t in node ==> node[t] != x)
  }

  lemma AttachLook(at: map<Pos, int>, depth: map<int, nat>, node: map<int, int>, s: int, d: nat, x: int, q: Pos)
    requires Trie(at, depth) && node.Keys == depth.Keys && MayAttach(at, depth, node, s, d, x)
    ensures Look(at[PosAt(s, d) := s], node[s := x], q) == if q == PosAt(s, d) then x else Look(at, node, q)
  {
    hide PosAt;
    if q in at { var _ := at[q]; }
  }

  lemma AttachNoChildren(at: map<Pos, int>, depth: map<int, nat>, s: int, d: nat, b: int)
    requires Trie(at, depth) && LargeSize(s) && PosAt(s, d) !in at && 0 <= b < 2
    ensures Child(PosAt(s, d), b) !in at
  {
    ChildIsOnly(PosAt(s, d), Child(PosAt(s, d), b), b);
    hide PosAt;
  }

  lemma AttachChildSlots(at: map<Pos, int>, depth: map<int, nat>, node: map<int, int>, base: int, slots: map<Slot, int>,
                         par: map<int, int>,
                         s: int, d: nat, x: int)
    requires Linked(at, depth, node, base, slots, par) && MayAttach(at, depth, node, s, d, x)
    ensures ChildSlots(at[PosAt(s, d) := s], depth[s := d], node[s := x],
                       slots[ChildOf(x, 0) := 0][ChildOf(x, 1) := 0][SlotTo(at, node, PosAt(s, d)) := x])
  {
    var p := PosAt(s, d);
    var at', depth', node' := at[p := s], depth[s := d], node[s := x];
    var slot := SlotTo(at, node, p);
    var slots' := slots[ChildOf(x, 0) := 0][ChildOf(x, 1) := 0][slot := x];
    forall t, b {:trigger ChildOf(node'[t], b)} | t in node' && t in depth' && 0 <= t && 0 <= b < 2
      ensures ChildOf(node'[t], b) in slots'
        && slots'[ChildOf(node'[t], b)] == Look(at', node', Child(PosAt(t, depth'[t]), b))
    {
      AttachChildSlot(at, depth, node, base, slots, par, s, d, x, t, b);
    }
  }

  lemma AttachChildSlot(at: map<Pos, int>, depth: map<int, nat>, node: map<int, int>, base: int, slots: map<Slot, int>,
                        par: map<int, int>,
                        s: int, d: nat, x: int, t: int, b: int)
    requires Linked(at, depth, node, base, slots, par) && MayAttach(at, depth, node, s, d, x)
    requires t in node[s := x] && 0 <= b < 2
    ensures var slots' := slots[ChildOf(x, 0) := 0][ChildOf(x, 1) := 0][SlotTo(at, node, PosAt(s, d)) := x];
      var n := node[s := x][t];
      0 <= t && ChildOf(n, b) in slots' &&
      slots'[ChildOf(n, b)] == Look(at[PosAt(s, d) := s], node[s := x], Child(PosAt(t, depth[s := d][t]), b))
  {
    var p := PosAt(s, d);
    assert t != s ==> LargeSize(t) by { if t != s { var _ := depth[t]; } }
    var q := Child(PosAt(t, depth[s := d][t]), b);
    AttachLook(at, depth, node, s, d, x, q);
    ChildIsOnly(PosAt(t, depth[s := d][t]), p, b);
    if t == s {
      AttachNoChildren(at, depth, s, d, b);
    } else {
      assert PosAt(t, depth[t]) in at;
    }
    if d > 0 { PosAtParent(s, d - 1); }
  }

  lemma AttachRootSlots(at: map<Pos, int>, depth: map<int, nat>, node: map<int, int>, base: int, slots: map<Slot, int>,
                        par: map<int, int>,
                        s: int, d: nat, x: int)
    requires Linked(at, depth, node, base, slots, par) && MayAttach(at, depth, node, s, d, x)
    ensures RootSlots(at[PosAt(s, d) := s], node[s := x],
                      slots[ChildOf(x, 0) := 0][ChildOf(x, 1) := 0][SlotTo(at, node, PosAt(s, d)) := x])
  {
    var p := PosAt(s, d);
    var slots' := slots[ChildOf(x, 0) := 0][ChildOf(x, 1) := 0][SlotTo(at, node, p) := x];
    forall i: nat | i < 32
      ensures BinRoot(i) in slots' && slots'[BinRoot(i)] == Look(at[p := s], node[s := x], Root(i)) {
      AttachLook(at, depth, node, s, d, x, Root(i));
      PosAtRoot(s);
    }
  }

  lemma AttachParents(at: map<Pos, int>, depth: map<int, nat>, node: map<int, int>, base: int, slots: map<Slot, int>,
                      par: map<int, int>,
                      s: int, d: nat, x: int)
    requires Linked(at, depth, node, base, slots, par) && MayAttach(at, depth, node, s, d, x)
    ensures ParentLinks(at[PosAt(s, d) := s], depth[s := d], node[s := x], base,
      par[x := ParentPtr(at, node, base, s, d)])
  {
    var p := PosAt(s, d);
    var at', depth', node', par' := at[p := s], depth[s := d], node[s := x], par[x := ParentPtr(at, node, base, s, d)];
    forall t {:trigger node'[t]} | t in node' && t in depth' && 0 <= t
      ensures node'[t] in par' && par'[node'[t]] == ParentPtr(at', node', base, t, depth'[t])
    {
      var e := depth'[t];
      if e > 0 {
        AttachLook(at, depth, node, s, d, x, PosAt(t, e - 1));
        if t != s {
          Ancestor(at, depth, t, e - 1);
        }
      }
    }
  }

  /** Hangs the chunk x, the first of its size s, in the empty slot at depth d of its path. */
  lemma AttachLinked(at: map<Pos, int>, depth: map<int, nat>, node: map<int, int>, base: int, slots: map<Slot, int>,
                     par: map<int, int>,
                     s: int, d: nat, x: int)
    requires Linked(at, depth, node, base, slots, par) && MayAttach(at, depth, node, s, d, x)
    ensures Linked(at[PosAt(s, d) := s], depth[s := d], node[s := x], base,
                   slots[ChildOf(x, 0) := 0][ChildOf(x, 1) := 0][SlotTo(at, node, PosAt(s, d)) := x],
                   par[x := ParentPtr(at, node, base, s, d)])
  {
    AttachTrie(at, depth, s, d);
    AttachChildSlots(at, depth, node, base, slots, par, s, d, x);
    AttachRootSlots(at, depth, node, base, slots, par, s, d, x);
    AttachParents(at, depth, node, base, slots, par, s, d, x);
    hide Trie, PosAt, ChildSlots, RootSlots, ParentLinks, SlotTo, ParentPtr;
  }

  // ---- a leaf cut off ----

  ghost predicate Leaf(at: map<Pos, int>, p: Pos) {
    Child(p, 0) !in at && Child(p, 1) !in at
  }

  lemma DetachLook(at: map<Pos, int>, depth: map<int, nat>, node: map<int, int>, s: int, q: Pos)
    requires Trie(at, depth) && node.Keys == depth.Keys && s in depth && 0 <= s
    ensures Look(at - {PosAt(s, depth[s])}, node - {s}, q) == if q == PosAt(s, depth[s]) then 0 else Look(at, node, q)
  {
    var _ := depth[s];
    hide PosAt;
    if q in at { var _ := at[q]; }
  }

  lemma DetachChildSlots(at: map<Pos, int>, depth: map<int, nat>, node: map<int, int>, base: int, slots: map<Slot, int>,
                         par: map<int, int>, s: int)
    requires Linked(at, depth, node, base, slots, par) && s in depth && 0 <= s
    ensures ChildSlots(at - {PosAt(s, depth[s])}, depth - {s}, node - {s},
      slots[SlotTo(at, node, PosAt(s, depth[s])) := 0])
  {
    var p := PosAt(s, depth[s]);
    var at', depth', node' := at - {p}, depth - {s}, node - {s};
    var slots' := slots[SlotTo(at, node, p) := 0];
    forall t, b {:trigger ChildOf(node'[t], b)} | t in node' && t in depth' && 0 <= t && 0 <= b < 2
      ensures ChildOf(node'[t], b) in slots'
        && slots'[ChildOf(node'[t], b)] == Look(at', node', Child(PosAt(t, depth'[t]), b))
    {
      DetachChildSlot(at, depth, node, base, slots, par, s, t, b);
    }
  }

  lemma DetachChildSlot(at: map<Pos, int>, depth: map<int, nat>, node: map<int, int>, base: int, slots: map<Slot, int>,
                        par: map<int, int>,
                        s: int, t: int, b: int)
    requires Linked(at, depth, node, base, slots, par) && s in depth && 0 <= s
    requires t in node && t != s && 0 <= t && 0 <= b < 2
    ensures var p := PosAt(s, depth[s]); var slots' := slots[SlotTo(at, node, p) := 0];
      ChildOf(node[t], b) in slots' &&
      slots'[ChildOf(node[t], b)] == Look(at - {p}, node - {s}, Child(PosAt(t, depth[t]), b))
  {
    var p := PosAt(s, depth[s]);
    var q := Child(PosAt(t, depth[t]), b);
    DetachLook(at, depth, node, s, q);
    ChildIsOnly(PosAt(t, depth[t]), p, b);
    if depth[s] > 0 {
      Ancestor(at, depth, s, depth[s] - 1);
      PosAtParent(s, depth[s] - 1);
    }
    hide Prefix, TreeIndex;
    var _ := ChildOf(node[t], b);
  }

  lemma DetachRootSlots(at: map<Pos, int>, depth: map<int, nat>, node: map<int, int>, base: int, slots: map<Slot, int>,
                        par: map<int, int>, s: int)
    requires Linked(at, depth, node, base, slots, par) && s in depth && 0 <= s
    ensures RootSlots(at - {PosAt(s, depth[s])}, node - {s}, slots[SlotTo(at, node, PosAt(s, depth[s])) := 0])
  {
    var p := PosAt(s, depth[s]);
    var slots' := slots[SlotTo(at, node, p) := 0];
    forall i: nat | i < 32 ensures BinRoot(i) in slots' && slots'[BinRoot(i)] == Look(at - {p}, node - {s}, Root(i)) {
      DetachLook(at, depth, node, s, Root(i));
      PosAtRoot(s);
    }
  }

  lemma DetachParents(at: map<Pos, int>, depth: map<int, nat>, node: map<int, int>, base: int, slots: map<Slot, int>,
                      par: map<int, int>, s: int)
    requires Linked(at, depth, node, base, slots, par) && s in depth && 0 <= s && Leaf(at, PosAt(s, depth[s]))
    ensures ParentLinks(at - {PosAt(s, depth[s])}, depth - {s}, node - {s}, base, par)
  {
    hide Prefix, TreeIndex, ChildSlots, RootSlots, Look;
    var p := PosAt(s, depth[s]);
    var at', depth', node' := at - {p}, depth - {s}, node - {s};
    forall t {:trigger node'[t]} | t in node' && t in depth' && 0 <= t
      ensures node'[t] in par && par[node'[t]] == ParentPtr(at', node', base, t, depth'[t])
    {
      var e := depth[t];
      assert node[t] in par;
      if e > 0 {
        var q := PosAt(t, e - 1);
        DetachLook(at, depth, node, s, q);
        PosAtParent(t, e - 1);
        assert PosAt(t, e) in at;
        hide PosAt;
        ChildIsOnly(p, PosAt(t, e), 0);
        ChildIsOnly(p, PosAt(t, e), 1);
      }
    }
  }

  /** Cuts the leaf of size s off: its slot becomes null. */
  lemma DetachLinked(at: map<Pos, int>, depth: map<int, nat>, node: map<int, int>, base: int, slots: map<Slot, int>,
                     par: map<int, int>, s: int)
    requires Linked(at, depth, node, base, slots, par) && s in depth && 0 <= s && Leaf(at, PosAt(s, depth[s]))
    ensures Linked(at - {PosAt(s, depth[s])}, depth - {s}, node - {s}, base,
      slots[SlotTo(at, node, PosAt(s, depth[s])) := 0], par)
  {
    hide Trie, PosAt, ChildSlots, RootSlots, ParentLinks, SlotTo, Leaf, NodesDistinct;
    DetachLeaf(at, depth, node, s);
    DetachChildSlots(at, depth, node, base, slots, par, s);
    DetachRootSlots(at, depth, node, base, slots, par, s);
    DetachParents(at, depth, node, base, slots, par, s);
  }

  lemma DetachLeaf(at: map<Pos, int>, depth: map<int, nat>, node: map<int, int>, s: int)
    requires Trie(at, depth) && NodesDistinct(node) && s in depth && Leaf(at, PosAt(s, depth[s]))
    ensures Trie(at - {PosAt(s, depth[s])}, depth - {s}) && NodesDistinct(node - {s})
  {
    hide PosAt;
    assert forall side :: 0 <= side < 2 ==> Child(PosAt(s, depth[s]), side) !in at;
    hide Trie;
    DetachTrie(at, depth, s);
  }

  // ---- a node that takes over another one's place ----

  /** Chunk r, of size t, may stand in for the node of size s. */
  ghost predicate MayReplace(at: map<Pos, int>, depth: map<int, nat>, node: map<int, int>, s: int, t: int, r: int) {
    && s in depth && 0 <= s && LargeSize(t) && (t == s || t !in depth)
    && PosAt(t, depth[s]) == PosAt(s, depth[s]) && depth[s] <= FirstBit(TreeIndex(t)) + 1
    && 0 < r && (forall u {:trigger node[u]} :: u in node ==> node[u] != r)
  }

  lemma ReplaceLook(at: map<Pos, int>, depth: map<int, nat>, node: map<int, int>, s: int, t: int, r: int, q: Pos)
    requires Trie(at, depth) && node.Keys == depth.Keys && MayReplace(at, depth, node, s, t, r)
    ensures Look(at[PosAt(s, depth[s]) := t], (node - {s})[t := r], q) == if q == PosAt(s, depth[s]) then r
      else Look(at, node, q)
  {
    hide PosAt;
    if q in at { var _ := at[q]; }
  }

  ghost function ReplacedSlots(at: map<Pos, int>, node: map<int, int>, p: Pos, r: int,
                               slots: map<Slot, int>): map<Slot, int>
  {
    slots[SlotTo(at, node, p) := r]
      [ChildOf(r, 0) := Look(at, node, Child(p, 0))][ChildOf(r, 1) := Look(at, node, Child(p, 1))]
  }

  lemma ReplaceChildSlot(at: map<Pos, int>, depth: map<int, nat>, node: map<int, int>, base: int, slots: map<Slot, int>,
                         par: map<int, int>,
                         s: int, t: int, r: int, u: int, b: int)
    requires Linked(at, depth, node, base, slots, par) && MayReplace(at, depth, node, s, t, r)
    requires u in (node - {s})[t := r] && 0 <= u && 0 <= b < 2
    ensures var p := PosAt(s, depth[s]); var n := (node - {s})[t := r][u];
      var slots' := ReplacedSlots(at, node, p, r, slots);
      ChildOf(n, b) in slots' &&
      slots'[ChildOf(n, b)] ==
        Look(at[p := t], (node - {s})[t := r], Child(PosAt(u, (depth - {s})[t := depth[s]][u]), b))
  {
    var p := PosAt(s, depth[s]);
    var q := Child(PosAt(u, (depth - {s})[t := depth[s]][u]), b);
    ReplaceLook(at, depth, node, s, t, r, q);
    if u == t {
      ChildIsOnly(p, q, b);
    } else {
      ChildIsOnly(PosAt(u, depth[u]), p, b);
      if depth[s] > 0 {
        Ancestor(at, depth, s, depth[s] - 1);
        PosAtParent(s, depth[s] - 1);
      }
      var _ := ChildOf(node[u], b);
    }
    hide Prefix, TreeIndex;
  }

  lemma ReplaceChildSlots(at: map<Pos, int>, depth: map<int, nat>, node: map<int, int>, base: int,
                          slots: map<Slot, int>, par: map<int, int>,
                          s: int, t: int, r: int)
    requires Linked(at, depth, node, base, slots, par) && MayReplace(at, depth, node, s, t, r)
    ensures var p := PosAt(s, depth[s]);
      ChildSlots(at[p := t], (depth - {s})[t := depth[s]], (node - {s})[t := r], ReplacedSlots(at, node, p, r, slots))
  {
    var p := PosAt(s, depth[s]);
    var at', depth', node' := at[p := t], (depth - {s})[t := depth[s]], (node - {s})[t := r];
    var slots' := ReplacedSlots(at, node, p, r, slots);
    forall u, b {:trigger ChildOf(node'[u], b)} | u in node' && u in depth' && 0 <= u && 0 <= b < 2
      ensures ChildOf(node'[u], b) in slots'
        && slots'[ChildOf(node'[u], b)] == Look(at', node', Child(PosAt(u, depth'[u]), b))
    {
      ReplaceChildSlot(at, depth, node, base, slots, par, s, t, r, u, b);
    }
  }

  lemma ReplaceRootSlots(at: map<Pos, int>, depth: map<int, nat>, node: map<int, int>, base: int, slots: map<Slot, int>,
                         par: map<int, int>,
                         s: int, t: int, r: int)
    requires Linked(at, depth, node, base, slots, par) && MayReplace(at, depth, node, s, t, r)
    ensures var p := PosAt(s, depth[s]);
      RootSlots(at[p := t], (node - {s})[t := r], ReplacedSlots(at, node, p, r, slots))
  {
    var p := PosAt(s, depth[s]);
    var slots' := ReplacedSlots(at, node, p, r, slots);
    forall i: nat | i < 32
      ensures BinRoot(i) in slots' && slots'[BinRoot(i)] == Look(at[p := t], (node - {s})[t := r], Root(i)) {
      ReplaceLook(at, depth, node, s, t, r, Root(i));
      PosAtRoot(t);
    }
  }

  ghost function ReplacedParents(at: map<Pos, int>, node: map<int, int>, p: Pos, r: int, xp: int,
                                 par: map<int, int>): map<int, int>
  {
    var c0, c1 := Look(at, node, Child(p, 0)), Look(at, node, Child(p, 1));
    var par' := par[r := xp];
    var par'' := if c0 != 0 then par'[c0 := r] else par';
    if c1 != 0 then par''[c1 := r] else par''
  }

  lemma ReplaceParent(at: map<Pos, int>, depth: map<int, nat>, node: map<int, int>, base: int, slots: map<Slot, int>,
                      par: map<int, int>,
                      s: int, t: int, r: int, u: int)
    requires Linked(at, depth, node, base, slots, par) && MayReplace(at, depth, node, s, t, r)
    requires u in node && u != s && 0 <= u
    ensures var p := PosAt(s, depth[s]); var par' := ReplacedParents(at, node, p, r, par[node[s]], par);
      node[u] in par' && par'[node[u]] == ParentPtr(at[p := t], (node - {s})[t := r], base, u, depth[u])
  {
    hide Prefix, TreeIndex, ChildSlots, RootSlots, ReplacedParents;
    var p := PosAt(s, depth[s]);
    var e := depth[u];
    var me := PosAt(u, e);
    assert me in at && at[me] == u;
    ChildIsOnly(p, me, 0);
    ChildIsOnly(p, me, 1);
    if e > 0 {
      ReplaceLook(at, depth, node, s, t, r, PosAt(u, e - 1));
      PosAtParent(u, e - 1);
    }
    assert p in at && at[p] == s;
    ReplaceParentCases(at, depth, node, p, r, par[node[s]], par, u);
  }

  lemma ReplaceParentCases(at: map<Pos, int>, depth: map<int, nat>, node: map<int, int>, p: Pos, r: int, xp: int,
                           par: map<int, int>, u: int)
    requires Occupied(at, depth) && node.Keys == depth.Keys && NodesDistinct(node) && u in node && 0 <= u
    requires node[u] != r && node[u] in par && PosAt(u, depth[u]) in at && at[PosAt(u, depth[u])] == u
    ensures var par' := ReplacedParents(at, node, p, r, xp, par);
      node[u] in par' &&
      par'[node[u]] == if PosAt(u, depth[u]) == Child(p, 0) || PosAt(u, depth[u]) == Child(p, 1) then r
        else par[node[u]]
  {
    hide Prefix, TreeIndex;
    forall b | 0 <= b < 2 ensures Look(at, node, Child(p, b)) == node[u] <==> PosAt(u, depth[u]) == Child(p, b) {
      if Child(p, b) in at { var _ := at[Child(p, b)]; }
    }
  }

  lemma ReplaceParents(at: map<Pos, int>, depth: map<int, nat>, node: map<int, int>, base: int, slots: map<Slot, int>,
                       par: map<int, int>,
                       s: int, t: int, r: int)
    requires Linked(at, depth, node, base, slots, par) && MayReplace(at, depth, node, s, t, r)
    ensures s in node && node[s] in par
    ensures var p := PosAt(s, depth[s]);
      ParentLinks(at[p := t], (depth - {s})[t := depth[s]], (node - {s})[t := r], base,
        ReplacedParents(at, node, p, r, par[node[s]], par))
  {
    var p := PosAt(s, depth[s]);
    var _ := node[s];
    var at', depth', node' := at[p := t], (depth - {s})[t := depth[s]], (node - {s})[t := r];
    var par' := ReplacedParents(at, node, p, r, par[node[s]], par);
    forall u {:trigger node'[u]} | u in node' && u in depth' && 0 <= u
      ensures node'[u] in par' && par'[node'[u]] == ParentPtr(at', node', base, u, depth'[u])
    {
      if u != t {
        ReplaceParent(at, depth, node, base, slots, par, s, t, r, u);
      } else {
        ReplaceOwnParent(at, depth, node, base, slots, par, s, t, r);
      }
    }
  }

  lemma ReplaceOwnParent(at: map<Pos, int>, depth: map<int, nat>, node: map<int, int>, base: int, slots: map<Slot, int>,
                         par: map<int, int>,
                         s: int, t: int, r: int)
    requires Linked(at, depth, node, base, slots, par) && MayReplace(at, depth, node, s, t, r)
    ensures s in node && node[s] in par
    ensures var p := PosAt(s, depth[s]); var par' := ReplacedParents(at, node, p, r, par[node[s]], par);
      r in par' && par'[r] == ParentPtr(at[p := t], (node - {s})[t := r], base, t, depth[s])
  {
    hide Prefix, TreeIndex, ChildSlots, RootSlots;
    var p := PosAt(s, depth[s]);
    var d := depth[s];
    var _ := node[s];
    forall b ensures Look(at, node, Child(p, b)) != r {
      if Child(p, b) in at { var _ := at[Child(p, b)]; }
    }
    if d > 0 {
      PosAtParent(s, d - 1);
      PosAtParent(t, d - 1);
      ReplaceLook(at, depth, node, s, t, r, PosAt(s, d - 1));
    }
  }

  /** Chunk r takes the place of size s's node: its parent's slot, its children and its parent pointer. */
  lemma ReplaceLinked(at: map<Pos, int>, depth: map<int, nat>, node: map<int, int>, base: int, slots: map<Slot, int>,
                      par: map<int, int>,
                      s: int, t: int, r: int)
    requires Linked(at, depth, node, base, slots, par) && MayReplace(at, depth, node, s, t, r)
    ensures s in node && node[s] in par
    ensures var p := PosAt(s, depth[s]);
      Linked(at[p := t], (depth - {s})[t := depth[s]], (node - {s})[t := r], base,
             ReplacedSlots(at, node, p, r, slots), ReplacedParents(at, node, p, r, par[node[s]], par))
  {
    var p := PosAt(s, depth[s]);
    if s == t {
      assert at[p := t] == at && (depth - {s})[t := depth[s]] == depth;
    } else {
      ReplaceTrie(at, depth, s, t);
    }
    ReplaceChildSlots(at, depth, node, base, slots, par, s, t, r);
    ReplaceRootSlots(at, depth, node, base, slots, par, s, t, r);
    ReplaceParents(at, depth, node, base, slots, par, s, t, r);
    assert NodesDistinct((node - {s})[t := r]);
    hide Trie, PosAt, ChildSlots, RootSlots, ParentLinks, SlotTo, ReplacedSlots, ReplacedParents;
  }
}
