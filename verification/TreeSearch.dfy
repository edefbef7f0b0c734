/** Why the walks of tmalloc_large and tmalloc_small meet the smallest chunk that fits. */
module TreeSearch {
  import opened ChunkLayout
  import opened BinMaps
  import opened BinIndex
  import opened Tries
  import opened TreeLinks

  /** Size u is in the subtree at p. */
  ghost predicate Under(depth: map<int, nat>, u: int, p: Pos) {
    u in depth && 0 <= u && p.depth <= depth[u] && Prefix(u, p.bin, p.depth) == p.prefix
  }

  /** Size u's bits lead to the right of p. */
  ghost predicate RightOf(u: int, p: Pos) {
    p.prefix < Prefix(u, p.bin, p.depth)
  }

  /** Fitting sizes of bin i: no better than the best so far, or still ahead of p. */
  ghost predicate Ahead(depth: map<int, nat>, nb: int, best: int, p: Pos) {
    forall u {:trigger depth[u]} :: u in depth && 0 <= u && TreeIndex(u) == p.bin && nb <= u ==>
      best <= u - nb || Under(depth, u, p) || RightOf(u, p)
  }

  ghost predicate BestInBin(depth: map<int, nat>, nb: int, best: int, bin: nat) {
    forall u {:trigger depth[u]} :: u in depth && 0 <= u && TreeIndex(u) == bin && nb <= u ==> best <= u - nb
  }

  lemma Occupant(at: map<Pos, int>, depth: map<int, nat>, p: Pos)
    requires Trie(at, depth) && p in at
    ensures at[p] in depth && LargeSize(at[p]) && depth[at[p]] == p.depth && TreeIndex(at[p]) == p.bin < 32
    ensures p.depth <= FirstBit(p.bin) + 1 && Prefix(at[p], p.bin, p.depth) == p.prefix && PosAt(at[p], p.depth) == p
  {
    var s := at[p];
    var _ := depth[s];
    TreeIndexMeans(s);
    hide Prefix, TreeIndex;
  }

  /** Below t there is only what its two children lead to. */
  lemma UnderCases(at: map<Pos, int>, depth: map<int, nat>, u: int, p: Pos)
    requires Trie(at, depth) && p in at && Under(depth, u, p) && TreeIndex(u) == p.bin
    ensures u == at[p] || (Under(depth, u, Child(p, 0)) && Child(p, 0) in at)
      || (Under(depth, u, Child(p, 1)) && Child(p, 1) in at)
  {
    Occupant(at, depth, p);
    var _ := depth[u];
    if depth[u] == p.depth {
      assert PosAt(u, p.depth) == p;
    } else {
      Ancestor(at, depth, u, p.depth + 1);
      PosAtParent(u, p.depth);
    }
    hide Prefix, TreeIndex;
  }

  lemma RightOfChild(u: int, p: Pos, side: int)
    requires p.depth <= FirstBit(p.bin) && RightOf(u, p) && 0 <= side < 2
    ensures RightOf(u, Child(p, side))
  {
    PrefixStep(u, p.bin, p.depth);
    hide Prefix;
  }

  lemma RightIsLarger(at: map<Pos, int>, depth: map<int, nat>, u: int, p: Pos)
    requires Trie(at, depth) && p in at && RightOf(u, p)
    ensures at[p] < u
  {
    Occupant(at, depth, p);
    if u <= at[p] { PrefixMono(u, at[p], p.bin, p.depth); }
    hide Prefix;
  }

  // ---- leftmost_child ----

  lemma StepLeft(at: map<Pos, int>, depth: map<int, nat>, nb: int, best: int, p: Pos)
    requires Trie(at, depth) && p in at && Ahead(depth, nb, best, p) && (nb <= at[p] ==> best <= at[p] - nb)
    requires Child(p, 0) in at
    ensures Ahead(depth, nb, best, Child(p, 0))
  {
    Occupant(at, depth, Child(p, 0));
    forall u {:trigger depth[u]} | u in depth && 0 <= u && TreeIndex(u) == p.bin && nb <= u && best > u - nb
      ensures Under(depth, u, Child(p, 0)) || RightOf(u, Child(p, 0))
    {
      if Under(depth, u, p) {
        UnderCases(at, depth, u, p);
        hide Prefix, TreeIndex;
      } else {
        RightOfChild(u, p, 0);
      }
    }
    hide Under, RightOf;
  }

  lemma StepRight(at: map<Pos, int>, depth: map<int, nat>, nb: int, best: int, p: Pos)
    requires Trie(at, depth) && p in at && Ahead(depth, nb, best, p) && (nb <= at[p] ==> best <= at[p] - nb)
    requires Child(p, 0) !in at && Child(p, 1) in at
    ensures Ahead(depth, nb, best, Child(p, 1))
  {
    Occupant(at, depth, Child(p, 1));
    forall u {:trigger depth[u]} | u in depth && 0 <= u && TreeIndex(u) == p.bin && nb <= u && best > u - nb
      ensures Under(depth, u, Child(p, 1)) || RightOf(u, Child(p, 1))
    {
      if Under(depth, u, p) { UnderCases(at, depth, u, p); } else { RightOfChild(u, p, 1); }
    }
    hide Under, RightOf;
  }

  lemma StepOff(at: map<Pos, int>, depth: map<int, nat>, nb: int, best: int, p: Pos)
    requires Trie(at, depth) && p in at && Ahead(depth, nb, best, p) && nb <= at[p] && best <= at[p] - nb
    requires Leaf(at, p)
    ensures BestInBin(depth, nb, best, p.bin)
  {
    forall u {:trigger depth[u]} | u in depth && 0 <= u && TreeIndex(u) == p.bin && nb <= u ensures best <= u - nb {
      if Under(depth, u, p) { UnderCases(at, depth, u, p); }
      else if RightOf(u, p) { RightIsLarger(at, depth, u, p); }
    }
    hide Under, RightOf;
  }

  lemma AheadOfRoot(at: map<Pos, int>, depth: map<int, nat>, nb: int, best: int, bin: nat)
    requires Trie(at, depth) && bin < 32
    ensures Ahead(depth, nb, best, Root(bin))
  {
    forall u {:trigger depth[u]} | u in depth && 0 <= u && TreeIndex(u) == bin ensures Under(depth, u, Root(bin)) {
      PosAtRoot(u);
    }
    hide Under, RightOf;
  }

  /** Everything under a position that lies to the right of nb's path is larger than nb. */
  lemma UnderFits(depth: map<int, nat>, nb: int, u: int, p: Pos)
    requires Under(depth, u, p) && Prefix(nb, p.bin, p.depth) < p.prefix
    ensures nb < u
  {
    if u <= nb { PrefixMono(u, nb, p.bin, p.depth); }
  }

  // ---- following nb's own bits ----

  /** rst: null, or the deepest right subtree passed by, next to nb's path. */
  ghost predicate Passed(at: map<Pos, int>, nb: int, d: nat, rst: Pos) {
    0 <= nb && rst in at && 0 < rst.depth <= d && rst.prefix == Prefix(nb, rst.bin, rst.depth) + 1
      && rst.bin == TreeIndex(nb)
  }

  /** Fitting sizes of nb's bin: no better than the best so far, in t's subtree, or from rst on. */
  ghost predicate OnPath(depth: map<int, nat>, nb: int, best: int, p: Pos, some: bool, rst: Pos)
    requires 0 <= nb
  {
    forall u {:trigger depth[u]} :: u in depth && 0 <= u && TreeIndex(u) == TreeIndex(nb) && nb <= u ==>
      best <= u - nb || Under(depth, u, p) || (some && (Under(depth, u, rst) || RightOf(u, rst)))
  }

  /** Prefixes keep their order when cut shorter. */
  lemma {:induction false} PrefixOrder(u: int, w: int, i: nat, e: nat, d: nat)
    requires e <= d <= FirstBit(i) + 1 && Prefix(u, i, d) <= Prefix(w, i, d)
    ensures Prefix(u, i, e) <= Prefix(w, i, e)
    decreases d - e
  {
    if e < d {
      PrefixStep(u, i, d - 1);
      PrefixStep(w, i, d - 1);
      PrefixOrder(u, w, i, e, d - 1);
    }
  }

  /** The newly passed subtree comes before whatever follows the one passed before it. */
  lemma DeeperIsNearer(at: map<Pos, int>, depth: map<int, nat>, nb: int, d: nat, far: Pos, near: Pos, u: int)
    requires Trie(at, depth) && 0 <= nb && Passed(at, nb, d, far) && near in at && near.depth == d + 1
      && near.bin == TreeIndex(nb)
    requires near.prefix == Prefix(nb, near.bin, d + 1) + 1 && Parent(near) == Pos(near.bin, d, Prefix(nb, near.bin, d))
    requires Under(depth, u, far) || RightOf(u, far)
    ensures RightOf(u, near)
  {
    Occupant(at, depth, near);
    var i, w := near.bin, at[near];
    if Prefix(u, i, d + 1) <= Prefix(w, i, d + 1) {
      PrefixOrder(u, w, i, far.depth, d + 1);
      PrefixStep(w, i, d);
      assert Prefix(w, i, d) == Prefix(nb, i, d);
      PrefixOrder(w, nb, i, far.depth, d);
    }
    hide Prefix, TreeIndex;
  }

  /** One step along nb's bits: side is the bit tested, t's own size has been looked at. */
  lemma StepAlong(at: map<Pos, int>, depth: map<int, nat>, nb: int, best: int, d: nat, some: bool, rst: Pos, u: int)
    requires Trie(at, depth) && LargeSize(nb) && PosAt(nb, d) in at && d <= FirstBit(TreeIndex(nb))
    requires var p := PosAt(nb, d); (nb <= at[p] ==> best <= at[p] - nb) && OnPath(depth, nb, best, p, some, rst)
    requires some ==> Passed(at, nb, d, rst)
    requires u in depth && 0 <= u && TreeIndex(u) == TreeIndex(nb) && nb <= u && best > u - nb
    ensures var p := PosAt(nb, d); var side := Prefix(nb, TreeIndex(nb), d + 1) % 2;
      var turned := side == 0 && Child(p, 1) in at;
      || (Child(p, side) in at && Under(depth, u, Child(p, side)))
      || (turned && (Under(depth, u, Child(p, 1)) || RightOf(u, Child(p, 1))))
      || (!turned && some && (Under(depth, u, rst) || RightOf(u, rst)))
  {
    hide Prefix, TreeIndex, Placed, Occupied, Rooted;
    var i := TreeIndex(nb);
    var p := PosAt(nb, d);
    PrefixStep(nb, i, d);
    PrefixMono(nb, u, i, d + 1);
    var _ := depth[u];
    if Under(depth, u, p) {
      UnderCases(at, depth, u, p);
    } else if Child(p, 1) in at && Prefix(nb, i, d + 1) % 2 == 0 {
      DeeperIsNearer(at, depth, nb, d, rst, Child(p, 1), u);
    }
  }

  /** The loop of tmalloc_large, one step: t goes to q, the child on nb's side, if there is one. */
  lemma PathStep(at: map<Pos, int>, depth: map<int, nat>, nb: int, best: int, d: nat, some: bool, rst: Pos)
    returns (some': bool, rst': Pos)
    requires Trie(at, depth) && LargeSize(nb) && PosAt(nb, d) in at && d <= FirstBit(TreeIndex(nb))
    requires var p := PosAt(nb, d); (nb <= at[p] ==> best <= at[p] - nb) && OnPath(depth, nb, best, p, some, rst)
    requires some ==> Passed(at, nb, d, rst)
    ensures var p := PosAt(nb, d); var side := Prefix(nb, TreeIndex(nb), d + 1) % 2; var q := Child(p, side);
      && q == PosAt(nb, d + 1) && q.bin == TreeIndex(nb)
      && (var turned := side == 0 && Child(p, 1) in at;
          some' == (turned || some) && rst' == (if turned then Child(p, 1) else rst))
      && (some' ==> Passed(at, nb, d + 1, rst'))
      && (q in at ==> OnPath(depth, nb, best, q, some', rst'))
      && (q !in at && some' ==> Ahead(depth, nb, best, rst'))
      && (q !in at && !some' ==> BestInBin(depth, nb, best, TreeIndex(nb)))
  {
    hide Prefix, TreeIndex, Placed, Occupied, Rooted, Under, RightOf;
    var p := PosAt(nb, d);
    var side := Prefix(nb, TreeIndex(nb), d + 1) % 2;
    PosAtParent(nb, d);
    var turned := side == 0 && Child(p, 1) in at;
    some' := turned || some;
    rst' := if turned then Child(p, 1) else rst;
    PrefixStep(nb, TreeIndex(nb), d);
    forall u {:trigger depth[u]} | u in depth && 0 <= u && TreeIndex(u) == TreeIndex(nb) && nb <= u && best > u - nb
      ensures || (Child(p, side) in at && Under(depth, u, Child(p, side)))
              || (some' && (Under(depth, u, rst') || RightOf(u, rst')))
    {
      StepAlong(at, depth, nb, best, d, some, rst, u);
    }
  }

  // ---- the leftmost walk ----

  ghost predicate AllFit(depth: map<int, nat>, nb: int, p: Pos) {
    forall u {:trigger depth[u]} :: u in depth && Under(depth, u, p) && TreeIndex(u) == p.bin ==> nb <= u
  }

  /** Where a walk stands: done with its bin, or at p with everything that could be better still ahead. */
  ghost predicate Pending(depth: map<int, nat>, nb: int, best: int, bin: nat, some: bool, p: Pos) {
    BestInBin(depth, nb, best, bin) || (some && p.bin == bin && Ahead(depth, nb, best, p) && AllFit(depth, nb, p))
  }

  /** The next position of a walk: leftmost_child. */
  ghost function LeftChild(at: map<Pos, int>, p: Pos): Pos {
    if Child(p, 0) in at then Child(p, 0) else Child(p, 1)
  }

  lemma OccupantFits(at: map<Pos, int>, depth: map<int, nat>, nb: int, p: Pos)
    requires Trie(at, depth) && p in at && AllFit(depth, nb, p)
    ensures nb <= at[p]
  {
    Occupant(at, depth, p);
    var _ := depth[at[p]];
    hide Prefix, TreeIndex;
  }

  lemma ChildFits(at: map<Pos, int>, depth: map<int, nat>, nb: int, p: Pos, side: int)
    requires Trie(at, depth) && Child(p, side) in at && AllFit(depth, nb, p) && 0 <= side < 2
    ensures AllFit(depth, nb, Child(p, side))
  {
    Occupant(at, depth, Child(p, side));
    hide Prefix, TreeIndex, Placed, Occupied, Rooted;
    forall u {:trigger depth[u]} | u in depth && Under(depth, u, Child(p, side)) && TreeIndex(u) == p.bin
      ensures nb <= u {
      PrefixStep(u, p.bin, p.depth);
    }
  }

  lemma StepWalk(at: map<Pos, int>, depth: map<int, nat>, nb: int, best: int, bin: nat, p: Pos)
    requires Trie(at, depth) && p in at && Pending(depth, nb, best, bin, true, p)
      && (nb <= at[p] ==> best <= at[p] - nb)
    ensures Pending(depth, nb, best, bin, LeftChild(at, p) in at, LeftChild(at, p))
  {
    hide Under, RightOf, Ahead, BestInBin, AllFit, Trie;
    if !BestInBin(depth, nb, best, bin) {
      OccupantFits(at, depth, nb, p);
      if Child(p, 0) in at {
        StepLeft(at, depth, nb, best, p);
        ChildFits(at, depth, nb, p, 0);
      } else if Child(p, 1) in at {
        StepRight(at, depth, nb, best, p);
        ChildFits(at, depth, nb, p, 1);
      } else {
        StepOff(at, depth, nb, best, p);
      }
    }
  }

  lemma WalkDone(depth: map<int, nat>, nb: int, best: int, bin: nat, p: Pos)
    requires Pending(depth, nb, best, bin, false, p)
    ensures BestInBin(depth, nb, best, bin)
  {
  }

  lemma BestMono(depth: map<int, nat>, nb: int, best: int, best': int, bin: nat, some: bool, p: Pos)
    requires Pending(depth, nb, best, bin, some, p) && best' <= best
    ensures Pending(depth, nb, best', bin, some, p)
  {
    hide Under, RightOf;
  }

  /** What lies to the right of nb's path is larger than nb. */
  lemma PassedFits(at: map<Pos, int>, depth: map<int, nat>, nb: int, d: nat, rst: Pos)
    requires Trie(at, depth) && Passed(at, nb, d, rst)
    ensures AllFit(depth, nb, rst)
  {
    forall u {:trigger depth[u]} | u in depth && Under(depth, u, rst) ensures nb <= u { UnderFits(depth, nb, u, rst); }
    hide Under;
  }

  /** All sizes of a higher bin fit. */
  lemma HigherFits(at: map<Pos, int>, depth: map<int, nat>, nb: int, bin: nat)
    requires Trie(at, depth) && (nb < 256 || (LargeSize(nb) && TreeIndex(nb) < bin))
    ensures AllFit(depth, nb, Root(bin))
  {
    forall u {:trigger depth[u]} | u in depth && TreeIndex(u) == bin ensures nb <= u {
      if nb >= 256 { LowerBinSmaller(nb, u); }
    }
    hide Under;
  }

  lemma PathMono(depth: map<int, nat>, nb: int, best: int, best': int, p: Pos, some: bool, rst: Pos)
    requires 0 <= nb && OnPath(depth, nb, best, p, some, rst) && best' <= best
    ensures OnPath(depth, nb, best', p, some, rst)
  {
    hide Under, RightOf;
  }

  lemma PathStart(at: map<Pos, int>, depth: map<int, nat>, nb: int, best: int, rst: Pos)
    requires Trie(at, depth) && LargeSize(nb)
    ensures OnPath(depth, nb, best, PosAt(nb, 0), false, rst)
  {
    hide Prefix, TreeIndex, Placed, Occupied, Rooted;
    PosAtRoot(nb);
    forall u {:trigger depth[u]} | u in depth && 0 <= u && TreeIndex(u) == TreeIndex(nb)
      ensures Under(depth, u, PosAt(nb, 0)) {
      RootAgrees(at, depth, u);
    }
  }

  lemma RootAgrees(at: map<Pos, int>, depth: map<int, nat>, u: int)
    requires Trie(at, depth) && u in depth
    ensures LargeSize(u) && PosAt(u, 0) == Root(TreeIndex(u))
  {
    var _ := depth[u];
    PosAtRoot(u);
  }

  lemma BestIsZero(depth: map<int, nat>, nb: int, bin: nat)
    ensures BestInBin(depth, nb, 0, bin)
  {
  }

  lemma EmptyBin(at: map<Pos, int>, depth: map<int, nat>, nb: int, best: int, bin: nat)
    requires Trie(at, depth) && Root(bin) !in at
    ensures BestInBin(depth, nb, best, bin)
  {
    forall u {:trigger depth[u]} | u in depth && TreeIndex(u) == bin ensures false {
      Ancestor(at, depth, u, 0);
      RootAgrees(at, depth, u);
    }
  }

  lemma LowerBin(at: map<Pos, int>, depth: map<int, nat>, nb: int, best: int, bin: nat)
    requires Trie(at, depth) && LargeSize(nb) && bin < TreeIndex(nb)
    ensures BestInBin(depth, nb, best, bin)
  {
    forall u {:trigger depth[u]} | u in depth && TreeIndex(u) == bin ensures u < nb { LowerBinSmaller(u, nb); }
    hide TreeIndex;
  }

  lemma HigherBin(at: map<Pos, int>, depth: map<int, nat>, nb: int, best: int, s: int, bin: nat)
    requires Trie(at, depth) && LargeSize(s) && TreeIndex(s) < bin && best <= s - nb
    ensures BestInBin(depth, nb, best, bin)
  {
    forall u {:trigger depth[u]} | u in depth && TreeIndex(u) == bin ensures s < u { LowerBinSmaller(s, u); }
    hide TreeIndex;
  }

  lemma AheadIsPending(depth: map<int, nat>, nb: int, best: int, p: Pos)
    requires Ahead(depth, nb, best, p) && AllFit(depth, nb, p)
    ensures Pending(depth, nb, best, p.bin, true, p)
  {
  }
}
