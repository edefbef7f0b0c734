/** The bitwise digital trees as values: which size sits at which position of which bin's tree. */
module Tries {
  import opened ChunkLayout
  import opened BinIndex

  /** A position in the tree of a bin: how many steps down, and the bits that lead there. */
  datatype Pos = Pos(bin: nat, depth: nat, prefix: int)

  function Child(p: Pos, side: int): Pos { Pos(p.bin, p.depth + 1, 2 * p.prefix + side) }

  function Parent(p: Pos): Pos
    requires p.depth > 0
  {
    Pos(p.bin, p.depth - 1, p.prefix / 2)
  }

  function Root(bin: nat): Pos { Pos(bin, 0, if bin == 31 then 0 else 2 + bin % 2) }

  /** The position d steps down the path of size s. */
  function PosAt(s: int, d: nat): Pos
    requires 0 <= s
  {
    Pos(TreeIndex(s), d, Prefix(s, TreeIndex(s), d))
  }

  ghost predicate LargeSize(s: int) { 256 <= s < SIZE_T_RANGE }

  /** Every size in the trees sits on its own path. */
  ghost predicate Placed(at: map<Pos, int>, depth: map<int, nat>) {
    forall s {:trigger depth[s]} :: s in depth ==>
      LargeSize(s) && depth[s] <= FirstBit(TreeIndex(s)) + 1 && PosAt(s, depth[s]) in at && at[PosAt(s, depth[s])] == s
  }

  ghost predicate Occupied(at: map<Pos, int>, depth: map<int, nat>) {
    forall p {:trigger at[p]} :: p in at ==> at[p] in depth && LargeSize(at[p]) && PosAt(at[p], depth[at[p]]) == p
  }

  ghost predicate Rooted(at: map<Pos, int>) {
    forall p {:trigger Parent(p)} :: p in at && p.depth > 0 ==> Parent(p) in at
  }

  ghost predicate Trie(at: map<Pos, int>, depth: map<int, nat>) {
    Placed(at, depth) && Occupied(at, depth) && Rooted(at)
  }

  lemma PosAtParent(s: int, d: nat)
    requires LargeSize(s) && d <= FirstBit(TreeIndex(s))
    ensures Parent(PosAt(s, d + 1)) == PosAt(s, d)
    ensures PosAt(s, d + 1) == Child(PosAt(s, d), Prefix(s, TreeIndex(s), d + 1) % 2)
  {
    PrefixStep(s, TreeIndex(s), d);
    hide Prefix, TreeIndex;
  }

  lemma ChildIsOnly(p: Pos, q: Pos, side: int)
    requires side == 0 || side == 1
    ensures Child(p, side) == q <==> q.depth > 0 && Parent(q) == p && q.prefix % 2 == side
  {
  }

  lemma PosAtRoot(s: int)
    requires LargeSize(s)
    ensures PosAt(s, 0) == Root(TreeIndex(s)) && TreeIndex(s) < 32
  {
    RootPrefix(s);
    TreeIndexMeans(s);
    hide Prefix, TreeIndex;
  }

  /** The path from a size up to its root is occupied. */
  lemma {:induction false} Ancestor(at: map<Pos, int>, depth: map<int, nat>, s: int, d: nat)
    requires Trie(at, depth) && s in depth && d <= depth[s]
    ensures PosAt(s, d) in at
    decreases depth[s] - d
  {
    if d < depth[s] {
      Ancestor(at, depth, s, d + 1);
      PosAtParent(s, d);
    }
  }

  // ---- growing and shrinking ----

  lemma AttachTrie(at: map<Pos, int>, depth: map<int, nat>, s: int, d: nat)
    requires Trie(at, depth) && LargeSize(s) && s !in depth && d <= FirstBit(TreeIndex(s)) + 1
    requires PosAt(s, d) !in at && (d > 0 ==> PosAt(s, d - 1) in at)
    ensures Trie(at[PosAt(s, d) := s], depth[s := d])
  {
    if d > 0 { PosAtParent(s, d - 1); }
    hide PosAt, LargeSize;
    assert (PosAt(s, d)).depth == d;
  }

  lemma DetachTrie(at: map<Pos, int>, depth: map<int, nat>, s: int)
    requires Trie(at, depth) && s in depth
    requires forall side :: 0 <= side < 2 ==> Child(PosAt(s, depth[s]), side) !in at
    ensures Trie(at - {PosAt(s, depth[s])}, depth - {s})
  {
    var p := PosAt(s, depth[s]);
    var at' := at - {p};
    forall q {:trigger Parent(q)} | q in at' && q.depth > 0 ensures Parent(q) in at' {
      ChildIsOnly(p, q, q.prefix % 2);
      assert Parent(q) in at;
    }
    hide PosAt, LargeSize, Parent;
  }

  /** Puts size t where size s was; t's own bits lead there. */
  lemma ReplaceTrie(at: map<Pos, int>, depth: map<int, nat>, s: int, t: int)
    requires Trie(at, depth) && s in depth && t !in depth && LargeSize(t)
    requires PosAt(t, depth[s]) == PosAt(s, depth[s]) && depth[s] <= FirstBit(TreeIndex(t)) + 1
    ensures Trie(at[PosAt(s, depth[s]) := t], (depth - {s})[t := depth[s]])
  {
    hide PosAt, LargeSize, Parent;
  }
}
