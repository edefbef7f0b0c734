/** Which words an operation on the bins stores: links of chunks in the bins, and of the malloc_state. */
module LinkStores {
  import opened ChunkLayout
  import opened BoundaryTags
  import opened Segments
  import opened BinMaps
  import opened BinIndex
  import opened Tries
  import opened TreeLinks
  import opened SmallBins
  import opened TreeBins
  import opened Storage

  ghost predicate IsHeader(base: int, x: int) {
    exists i :: 0 <= i < 32 && x == Header(base, i)
  }

  /** x has fd and bk: a binned chunk, or a small bin's header. */
  ghost predicate ListKey(base: int, binned: map<int, int>, x: int) {
    x in binned || IsHeader(base, x)
  }

  /** x has tree words: a large binned chunk. */
  ghost predicate TreeKey(binned: map<int, int>, x: int) {
    x in binned && 256 <= binned[x]
  }

  ghost predicate SlotKey(binned: map<int, int>, c: Slot) {
    match c
    case BinRoot(i) => i < 32
    case ChildOf(x, side) => 0 <= side < 2 && TreeKey(binned, x)
  }

  /** A link word in use while these chunks are binned. */
  ghost predicate LinkWord(base: int, binned: map<int, int>, w: Word) {
    match w
    case FdOf(x) => ListKey(base, binned, x)
    case BkOf(x) => ListKey(base, binned, x)
    case SlotOf(c) => SlotKey(binned, c)
    case ParentOf(x) => TreeKey(binned, x)
    case IndexOf(x) => TreeKey(binned, x)
    case _ => false
  }

  /** From one point of the log to the other only such words are stored. */
  ghost predicate LinksIn(base: int, l0: seq<Event>, l1: seq<Event>, binned: map<int, int>) {
    l0 <= l1 && forall i {:trigger l1[i]} :: |l0| <= i < |l1| ==> l1[i].Stored? && LinkWord(base, binned, l1[i].w)
  }

  ghost predicate Since(l0: seq<Event>, l1: seq<Event>) { l0 <= l1 }

  /** All words of the new binned chunk x of size s are stored. */
  ghost predicate NodeWritten(l0: seq<Event>, l1: seq<Event>, x: int, s: int) {
    && Since(l0, l1) && WroteIn(l0, l1, FdOf(x)) && WroteIn(l0, l1, BkOf(x))
    && (256 <= s ==>
          && WroteIn(l0, l1, SlotOf(ChildOf(x, 0))) && WroteIn(l0, l1, SlotOf(ChildOf(x, 1)))
          && WroteIn(l0, l1, ParentOf(x)) && WroteIn(l0, l1, IndexOf(x)))
  }

  /** What one more store of word w, from l to l1, adds to what is known of the log. */
  ghost predicate StoredNext(base: int, l: seq<Event>, l1: seq<Event>, w: Word) {
    && (forall l0 {:trigger Since(l0, l1)} :: Since(l0, l) ==> Since(l0, l1))
    && (forall l0, b {:trigger LinksIn(base, l0, l1, b)} ::
          LinksIn(base, l0, l, b) && LinkWord(base, b, w) ==> LinksIn(base, l0, l1, b))
    && (forall l0, v {:trigger WroteIn(l0, l1, v)} ::
          Since(l0, l) && (v == w || WroteIn(l0, l, v)) ==> WroteIn(l0, l1, v))
  }

  lemma OneStored(base: int, l: seq<Event>, w: Word, item: Item)
    ensures StoredNext(base, l, l + [Stored(w, item)], w)
  {
    hide LinkWord;
    var l1 := l + [Stored(w, item)];
    forall l0, v {:trigger WroteIn(l0, l1, v)} | Since(l0, l) && (v == w || WroteIn(l0, l, v))
      ensures WroteIn(l0, l1, v) {
      if v == w {
        assert l1[|l|] == Stored(w, item);
      } else {
        var i :| |l0| <= i < |l| && l[i].Stored? && l[i].w == v;
        assert l1[i] == l[i];
      }
    }
  }

  lemma NoneStored(base: int, l: seq<Event>, binned: map<int, int>)
    ensures LinksIn(base, l, l, binned) && Since(l, l)
  {
  }

  lemma LinksThen(base: int, l0: seq<Event>, l1: seq<Event>, l2: seq<Event>, binned: map<int, int>)
    requires LinksIn(base, l0, l1, binned) && LinksIn(base, l1, l2, binned)
    ensures LinksIn(base, l0, l2, binned)
  {
    hide LinkWord;
    forall i {:trigger l2[i]} | |l0| <= i < |l2| ensures l2[i].Stored? && LinkWord(base, binned, l2[i].w) {
      if i < |l1| { assert l1[i] == l2[i]; }
    }
  }

  // ---- the link words say what was last stored in them ----

  const NO_LINKS := TreeBins.Words(map[], map[], map[], map[], map[])

  ghost predicate FdTold(t: map<Word, Item>, m: map<int, int>) {
    forall x {:trigger m[x]} {:trigger x in m} {:trigger FdOf(x)} ::
      (x in m <==> FdOf(x) in t) && (x in m ==> t[FdOf(x)] == Number(m[x]))
  }

  ghost predicate BkTold(t: map<Word, Item>, m: map<int, int>) {
    forall x {:trigger m[x]} {:trigger x in m} {:trigger BkOf(x)} ::
      (x in m <==> BkOf(x) in t) && (x in m ==> t[BkOf(x)] == Number(m[x]))
  }

  ghost predicate SlotsTold(t: map<Word, Item>, m: map<Slot, int>) {
    forall c {:trigger m[c]} {:trigger c in m} {:trigger SlotOf(c)} ::
      (c in m <==> SlotOf(c) in t) && (c in m ==> t[SlotOf(c)] == Number(m[c]))
  }

  ghost predicate ParentsTold(t: map<Word, Item>, m: map<int, int>) {
    forall x {:trigger m[x]} {:trigger x in m} {:trigger ParentOf(x)} ::
      (x in m <==> ParentOf(x) in t) && (x in m ==> t[ParentOf(x)] == Number(m[x]))
  }

  ghost predicate IndexesTold(t: map<Word, Item>, m: map<int, int>) {
    forall x {:trigger m[x]} {:trigger x in m} {:trigger IndexOf(x)} ::
      (x in m <==> IndexOf(x) in t) && (x in m ==> t[IndexOf(x)] == Number(m[x]))
  }

  /** The words are those last stored. */
  ghost predicate LinksTold(t: map<Word, Item>, w: Words) {
    FdTold(t, w.fd) && BkTold(t, w.bk) && SlotsTold(t, w.slots) && ParentsTold(t, w.par) && IndexesTold(t, w.idx)
  }

  /** The link words once word w is stored. */
  function WithLink(s: Words, w: Word, v: int): Words {
    match w
    case FdOf(x) => s.(fd := s.fd[x := v])
    case BkOf(x) => s.(bk := s.bk[x := v])
    case SlotOf(c) => s.(slots := s.slots[c := v])
    case ParentOf(x) => s.(par := s.par[x := v])
    case IndexOf(x) => s.(idx := s.idx[x := v])
    case _ => s
  }

  lemma FdNext(t: map<Word, Item>, m: map<int, int>, w: Word, i: Item)
    requires FdTold(t, m) && (w.FdOf? ==> i.Number?)
    ensures FdTold(t[w := i], if w.FdOf? then m[w.x := i.n] else m)
  {
  }

  lemma BkNext(t: map<Word, Item>, m: map<int, int>, w: Word, i: Item)
    requires BkTold(t, m) && (w.BkOf? ==> i.Number?)
    ensures BkTold(t[w := i], if w.BkOf? then m[w.x := i.n] else m)
  {
  }

  lemma SlotNext(t: map<Word, Item>, m: map<Slot, int>, w: Word, i: Item)
    requires SlotsTold(t, m) && (w.SlotOf? ==> i.Number?)
    ensures SlotsTold(t[w := i], if w.SlotOf? then m[w.c := i.n] else m)
  {
  }

  lemma ParentNext(t: map<Word, Item>, m: map<int, int>, w: Word, i: Item)
    requires ParentsTold(t, m) && (w.ParentOf? ==> i.Number?)
    ensures ParentsTold(t[w := i], if w.ParentOf? then m[w.x := i.n] else m)
  {
  }

  lemma IndexNext(t: map<Word, Item>, m: map<int, int>, w: Word, i: Item)
    requires IndexesTold(t, m) && (w.IndexOf? ==> i.Number?)
    ensures IndexesTold(t[w := i], if w.IndexOf? then m[w.x := i.n] else m)
  {
  }

  lemma LinkTold(log: seq<Event>, s: Words, w: Word, v: int)
    requires LinksTold(Told(log), s)
    ensures LinksTold(Told(log + [Stored(w, Number(v))]), WithLink(s, w, v))
  {
    ToldMore(log, Stored(w, Number(v)));
    hide Told, FdTold, BkTold, SlotsTold, ParentsTold, IndexesTold;
    FdNext(Told(log), s.fd, w, Number(v));
    BkNext(Told(log), s.bk, w, Number(v));
    SlotNext(Told(log), s.slots, w, Number(v));
    ParentNext(Told(log), s.par, w, Number(v));
    IndexNext(Told(log), s.idx, w, Number(v));
  }

  /** Stores of other words leave them as they are. */
  lemma LinksStay(log: seq<Event>, e: Event, s: Words)
    requires LinksTold(Told(log), s) && (e.Stored? ==> e.w.HeadOf? || e.w.FootOf? || e.w.RecordOf?)
    ensures LinksTold(Told(log + [e]), s)
  {
    ToldMore(log, e);
    hide Told, FdTold, BkTold, SlotsTold, ParentsTold, IndexesTold;
    if e.Stored? {
      FdNext(Told(log), s.fd, e.w, e.item);
      BkNext(Told(log), s.bk, e.w, e.item);
      SlotNext(Told(log), s.slots, e.w, e.item);
      ParentNext(Told(log), s.par, e.w, e.item);
      IndexNext(Told(log), s.idx, e.w, e.item);
    }
  }

  /** Stores of links leave the other words as they are. */
  lemma {:induction false} TagsStay(base: int, l0: seq<Event>, l1: seq<Event>, binned: map<int, int>,
                                    head: map<int, Head>, foot: map<int, int>, records: map<int, Segment>)
    requires LinksIn(base, l0, l1, binned) && TagsTold(Told(l0), head, foot, records)
    ensures TagsTold(Told(l1), head, foot, records)
    decreases |l1|
  {
    hide TagsTold, Told;
    if l0 == l1 {
    } else {
      var l := l1[..|l1| - 1];
      var e := l1[|l1| - 1];
      assert LinkWord(base, binned, e.w);
      hide LinkWord;
      assert LinksIn(base, l0, l, binned) by {
        forall i {:trigger l[i]} | |l0| <= i < |l| ensures l[i].Stored? && LinkWord(base, binned, l[i].w) {
          assert l[i] == l1[i];
        }
      }
      TagsStay(base, l0, l, binned, head, foot, records);
      TagTold(l, head, foot, records, e.w, e.item);
      assert l1 == l + [Stored(e.w, e.item)];
    }
  }

  /** Nothing is stored yet but one head. */
  lemma FirstTold(e: Event, p: int, h: Head)
    requires e.Filled?
    ensures var log := [e] + [Stored(HeadOf(p), Tag(h))];
      LinksTold(Told(log), NO_LINKS) && TagsTold(Told(log), map[p := h], map[], map[])
  {
    assert [] + [e] == [e];
    assert Told([]) == map[];
    ToldMore([], e);
    ToldMore([e], Stored(HeadOf(p), Tag(h)));
    hide Told;
  }

  // ---- the words each operation stores ----

  lemma HeaderKey(base: int, binned: map<int, int>, i: nat)
    requires i < 32
    ensures ListKey(base, binned, Header(base, i))
  {
    assert IsHeader(base, Header(base, i)) by { var j: int := i; assert 0 <= j < 32; }
  }

  lemma StateWords(base: int, binned: map<int, int>, i: nat)
    requires i < 32
    ensures LinkWord(base, binned, SlotOf(BinRoot(i)))
    ensures LinkWord(base, binned, FdOf(Header(base, i))) && LinkWord(base, binned, BkOf(Header(base, i)))
  {
    HeaderKey(base, binned, i);
  }

  /** The words of small bin i and of treebin i are stored. */
  ghost predicate BinWritten(base: int, l0: seq<Event>, l1: seq<Event>, i: nat) {
    && WroteIn(l0, l1, SlotOf(BinRoot(i))) && WroteIn(l0, l1, FdOf(Header(base, i)))
    && WroteIn(l0, l1, BkOf(Header(base, i)))
  }

  /** Those of the first n of them. */
  ghost predicate StateWritten(base: int, l0: seq<Event>, l1: seq<Event>, n: nat) {
    l0 <= l1 && forall i: nat {:trigger BinWritten(base, l0, l1, i)} :: i < n ==> BinWritten(base, l0, l1, i)
  }

  lemma NoState(base: int, l: seq<Event>)
    ensures StateWritten(base, l, l, 0)
  {
  }

  lemma StateMore(base: int, l0: seq<Event>, l: seq<Event>, l1: seq<Event>, n: nat)
    requires StateWritten(base, l0, l, n) && LinksIn(base, l, l1, map[]) && BinWritten(base, l, l1, n)
    ensures StateWritten(base, l0, l1, n + 1)
  {
    assert l0 <= l <= l1;
    hide LinksIn, Header;
    forall i: nat {:trigger BinWritten(base, l0, l1, i)} | i < n + 1 ensures BinWritten(base, l0, l1, i) {
      if i < n { assert BinWritten(base, l0, l, i); }
      WroteLonger(l0, l, l1, SlotOf(BinRoot(i)));
      WroteLonger(l0, l, l1, FdOf(Header(base, i)));
      WroteLonger(l0, l, l1, BkOf(Header(base, i)));
    }
  }

  /** A store in either of two stretches of the log is one in both. */
  lemma WroteLonger(l0: seq<Event>, l: seq<Event>, l1: seq<Event>, w: Word)
    requires l0 <= l <= l1
    ensures WroteIn(l0, l, w) || WroteIn(l, l1, w) ==> WroteIn(l0, l1, w)
  {
    if WroteIn(l0, l, w) {
      var i :| |l0| <= i < |l| && l[i].Stored? && l[i].w == w;
      assert l1[i] == l[i];
    }
  }

  /** What StartNode and LinkNode leave written between them. */
  ghost predicate NodeStarted(l0: seq<Event>, l1: seq<Event>, x: int) {
    && WroteIn(l0, l1, SlotOf(ChildOf(x, 0))) && WroteIn(l0, l1, SlotOf(ChildOf(x, 1)))
    && WroteIn(l0, l1, IndexOf(x))
  }

  ghost predicate NodeLinked(l0: seq<Event>, l1: seq<Event>, x: int) {
    WroteIn(l0, l1, FdOf(x)) && WroteIn(l0, l1, BkOf(x)) && WroteIn(l0, l1, ParentOf(x))
  }

  lemma NodeDone(base: int, l0: seq<Event>, l: seq<Event>, l1: seq<Event>, x: int, s: int, binned: map<int, int>)
    requires LinksIn(base, l0, l, binned) && LinksIn(base, l, l1, binned) && NodeStarted(l0, l, x)
      && NodeLinked(l, l1, x)
    ensures LinksIn(base, l0, l1, binned) && NodeWritten(l0, l1, x, s)
  {
    LinksThen(base, l0, l, l1, binned);
    hide LinkWord;
    WroteLonger(l0, l, l1, SlotOf(ChildOf(x, 0)));
    WroteLonger(l0, l, l1, SlotOf(ChildOf(x, 1)));
    WroteLonger(l0, l, l1, IndexOf(x));
    WroteLonger(l0, l, l1, FdOf(x));
    WroteLonger(l0, l, l1, BkOf(x));
    WroteLonger(l0, l, l1, ParentOf(x));
  }

  /** A chunk p linked in behind small bin i's header. */
  lemma InsertWords(base: int, binned: map<int, int>, i: nat, f: int, p: int)
    requires i < 32 && (f == Header(base, i) || f in binned) && p in binned
    ensures LinkWord(base, binned, FdOf(Header(base, i))) && LinkWord(base, binned, BkOf(f))
    ensures LinkWord(base, binned, FdOf(p)) && LinkWord(base, binned, BkOf(p))
  {
    HeaderKey(base, binned, i);
  }

  /** F->bk = B and B->fd = F. */
  lemma SpliceWords(base: int, binned: map<int, int>, i: nat, f: int, b: int)
    requires i < 32 && (f == Header(base, i) || f in binned) && (b == Header(base, i) || b in binned)
    ensures LinkWord(base, binned, BkOf(f)) && LinkWord(base, binned, FdOf(b))
  {
    HeaderKey(base, binned, i);
  }

  lemma IsAttached(w: Words, w': Words, slot: Slot, parent: int, x: int, i: int)
    requires w'.slots == w.slots[ChildOf(x, 0) := 0][ChildOf(x, 1) := 0][slot := x] && w'.par == w.par[x := parent]
    requires w'.idx == w.idx[x := i] && w'.fd == w.fd[x := x] && w'.bk == w.bk[x := x]
    ensures w' == AttachedWords(w, slot, parent, x, i)
  {
  }

  /** The words of a large chunk. */
  lemma NodeWords(base: int, binned: map<int, int>, x: int)
    requires TreeKey(binned, x)
    ensures LinkWord(base, binned, FdOf(x)) && LinkWord(base, binned, BkOf(x))
    ensures LinkWord(base, binned, SlotOf(ChildOf(x, 0))) && LinkWord(base, binned, SlotOf(ChildOf(x, 1)))
    ensures LinkWord(base, binned, ParentOf(x)) && LinkWord(base, binned, IndexOf(x))
  {
    hide IsHeader;
  }

  /** Tree nodes are large binned chunks. */
  ghost predicate NodesBinned(node: map<int, int>, binned: map<int, int>) {
    forall t {:trigger node[t]} :: t in node ==> node[t] in binned && 256 <= binned[node[t]]
  }

  /** The children of a node are. */
  lemma ChildWords(base: int, at: map<Pos, int>, node: map<int, int>, binned: map<int, int>, p: Pos)
    requires NodesBinned(node, binned)
    ensures var c := Look(at, node, p); c != 0 ==> LinkWord(base, binned, ParentOf(c))
  {
    if p in at && at[p] in node {
      var t := at[p];
      assert node[t] in binned;
    }
  }

  lemma SlotIsLink(base: int, binned: map<int, int>, c: Slot)
    requires SlotKey(binned, c)
    ensures LinkWord(base, binned, SlotOf(c))
  {
  }

  /** Relinking: the words of r's new place and of x's children. */
  lemma RelinkWords(base: int, at: map<Pos, int>, node: map<int, int>, binned: map<int, int>, p: Pos, r: int)
    requires NodesBinned(node, binned) && SlotKey(binned, SlotTo(at, node, p)) && (r != 0 ==> TreeKey(binned, r))
    ensures LinkWord(base, binned, SlotOf(SlotTo(at, node, p)))
    ensures r != 0 ==>
      && LinkWord(base, binned, ParentOf(r))
      && LinkWord(base, binned, SlotOf(ChildOf(r, 0))) && LinkWord(base, binned, SlotOf(ChildOf(r, 1)))
    ensures var c := Look(at, node, Child(p, 0)); c != 0 ==> LinkWord(base, binned, ParentOf(c))
    ensures var c := Look(at, node, Child(p, 1)); c != 0 ==> LinkWord(base, binned, ParentOf(c))
  {
    ChildWords(base, at, node, binned, Child(p, 0));
    ChildWords(base, at, node, binned, Child(p, 1));
    if r != 0 { NodeWords(base, binned, r); }
    hide NodesBinned, SlotTo, Look;
  }
}
