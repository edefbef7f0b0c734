/** The physical layer: which chunks tile the segments, and the head and foot words that say so. */
module BoundaryTags {
  import opened ChunkLayout

  /** What a chunk holds.  Meta chunks are in use by the allocator itself: the malloc_state at the
      bottom of the first segment and the segment records at the top of the retired ones. */
  datatype Kind = Free | Live | Meta

  /** A head word: size | PINUSE_BIT | CINUSE_BIT. */
  datatype Head = Head(size: int, pinuse: bool, cinuse: bool)

  /** The word itself: PINUSE_BIT is 1 and CINUSE_BIT 2. */
  function HeadWord(h: Head): int {
    h.size + (if h.pinuse then 1 else 0) + (if h.cinuse then 2 else 0)
  }

  /** chunksize, pinuse and cinuse, which mask the word. */
  function ReadHead(w: int): Head {
    Head(w / 4 * 4, w % 2 == 1, w / 2 % 2 == 1)
  }

  lemma HeadRoundTrip(h: Head)
    requires h.size % 4 == 0
    ensures ReadHead(HeadWord(h)) == h
  {
  }

  /** p + chunksize(p). */
  function NextOf(size: map<int, int>, p: int): int
    requires p in size
  {
    p + size[p]
  }

  // ---- the shape: chunks tile the segments ----

  ghost predicate Positive(size: map<int, int>) {
    forall p {:trigger size[p]} :: p in size ==> 0 < p && 0 < size[p]
  }

  ghost predicate NoOverlap(size: map<int, int>) {
    forall p, q {:trigger size[p], size[q]} :: p in size && q in size && p < q ==> p + size[p] <= q
  }

  /** Every chunk runs up to another chunk or to an end marker. */
  ghost predicate Closed(size: map<int, int>, ends: set<int>) {
    forall p {:trigger NextOf(size, p)} :: p in size ==> NextOf(size, p) in size || NextOf(size, p) in ends
  }

  /** No end marker is inside a chunk or is one. */
  ghost predicate EndsClear(size: map<int, int>, ends: set<int>) {
    forall p, e {:trigger size[p], e in ends} :: p in size && e in ends ==> e < p || p + size[p] <= e
  }

  /** Each segment's first chunk is a chunk, and no chunk runs up to it. */
  ghost predicate StartsClear(size: map<int, int>, starts: set<int>) {
    && (forall s :: s in starts ==> s in size)
    && (forall p {:trigger NextOf(size, p)} :: p in size ==> NextOf(size, p) !in starts)
  }

  ghost predicate Tiled(size: map<int, int>, starts: set<int>, ends: set<int>)
  {
    Positive(size) && NoOverlap(size) && Closed(size, ends) && EndsClear(size, ends) && StartsClear(size, starts)
  }

  /** [a, n) is made of whole chunks of one segment. */
  ghost predicate Span(size: map<int, int>, starts: set<int>, ends: set<int>, a: int, n: int) {
    && a in size && a < n && (n in size || n in ends)
    && (forall q {:trigger size[q]} :: q in size && q < n ==> q + size[q] <= (if q < a then a else n))
    && (forall s {:trigger s in starts} :: s in starts ==> s <= a || n < s)
    && (forall e {:trigger e in ends} :: e in ends ==> e < a || n <= e)
  }

  lemma SpanOne(size: map<int, int>, starts: set<int>, ends: set<int>, p: int)
    requires Tiled(size, starts, ends) && p in size
    ensures Span(size, starts, ends, p, NextOf(size, p))
  {
    forall s | s in starts ensures s <= p || NextOf(size, p) < s { assert size[s] == size[s]; }
  }

  lemma SpanJoin(size: map<int, int>, starts: set<int>, ends: set<int>, a: int, b: int, n: int)
    requires Span(size, starts, ends, a, b) && Span(size, starts, ends, b, n)
    ensures Span(size, starts, ends, a, n)
  {
  }

  /** Replaces the chunks of [a, n) by the chunk [a, m) and, when m < n, the chunk [m, n). */
  function Retile(size: map<int, int>, a: int, m: int, n: int): map<int, int>
  {
    (map q | q in size && (q < a || n <= q) ::
      size[q]) + (if m < n then map[a := m - a, m := n - m] else map[a := n - a])
  }

  lemma RetileAt(size: map<int, int>, a: int, m: int, n: int)
    requires a < m <= n
    ensures var size' := Retile(size, a, m, n);
      && (forall q {:trigger size'[q]} {:trigger q in size'} ::
         q in size' <==> (q in size && (q < a || n <= q)) || q == a || (q == m && m < n))
      && (forall q {:trigger size'[q]} :: q in size' ==>
            size'[q] == (if q == a then m - a else if q == m && m < n then n - m else size[q]))
  {
  }

  lemma RetileNoOverlap(size: map<int, int>, starts: set<int>, ends: set<int>, a: int, m: int, n: int)
    requires Tiled(size, starts, ends) && Span(size, starts, ends, a, n) && a < m <= n
    ensures Positive(Retile(size, a, m, n)) && NoOverlap(Retile(size, a, m, n))
  {
    RetileAt(size, a, m, n);
    hide Retile, Closed, EndsClear, StartsClear;
  }

  lemma RetileClosed(size: map<int, int>, starts: set<int>, ends: set<int>, a: int, m: int, n: int)
    requires Tiled(size, starts, ends) && Span(size, starts, ends, a, n) && a < m <= n
    ensures Closed(Retile(size, a, m, n), ends)
  {
    RetileAt(size, a, m, n);
    var size' := Retile(size, a, m, n);
    hide Retile, EndsClear, StartsClear;
    forall q | q in size' ensures NextOf(size', q) in size' || NextOf(size', q) in ends {
      if q in size && (q < a || n <= q) { var _ := NextOf(size, q); }
    }
  }

  lemma RetileClear(size: map<int, int>, starts: set<int>, ends: set<int>, a: int, m: int, n: int)
    requires Tiled(size, starts, ends) && Span(size, starts, ends, a, n) && a < m <= n
    ensures EndsClear(Retile(size, a, m, n), ends) && StartsClear(Retile(size, a, m, n), starts)
  {
    RetileAt(size, a, m, n);
    var size' := Retile(size, a, m, n);
    hide Retile, Closed, NoOverlap;
    forall q | q in size' ensures NextOf(size', q) !in starts {
      if q in size && (q < a || n <= q) { var _ := NextOf(size, q); }
    }
  }

  lemma RetileTiled(size: map<int, int>, starts: set<int>, ends: set<int>, a: int, m: int, n: int)
    requires Tiled(size, starts, ends) && Span(size, starts, ends, a, n) && a < m <= n
    ensures Tiled(Retile(size, a, m, n), starts, ends)
  {
    RetileNoOverlap(size, starts, ends, a, m, n);
    RetileClosed(size, starts, ends, a, m, n);
    RetileClear(size, starts, ends, a, m, n);
    hide Retile, Closed, NoOverlap, EndsClear, StartsClear, Positive, Span;
  }

  // ---- kinds ----

  ghost predicate Sized(size: map<int, int>, top: int)
  {
    && (forall p {:trigger size[p]} :: p in size ==> p % 8 == 0 && size[p] % 8 == 0)
    && (forall p {:trigger size[p]} :: p in size && p != top ==> MIN_CHUNK_SIZE <= size[p])
  }

  /** A free chunk other than top is followed by a chunk in use, so no two free chunks touch. */
  ghost predicate NoAdjacentFree(size: map<int, int>, kind: map<int, Kind>, top: int)
  {
    forall p {:trigger NextOf(size, p)} :: p in size && p in kind && kind[p].Free? && p != top ==>
      NextOf(size, p) in size && NextOf(size, p) in kind && !kind[NextOf(size, p)].Free?
  }

  /** Handed-out chunks never border an end marker. */
  ghost predicate LiveInside(size: map<int, int>, kind: map<int, Kind>)
  {
    forall p {:trigger NextOf(size, p)} :: p in size && p in kind && kind[p].Live? ==> NextOf(size, p) in size
  }

  function RetileKinds(kind: map<int, Kind>, a: int, m: int, n: int, low: Kind, high: Kind): map<int, Kind>
  {
    (map q | q in kind && (q < a || n <= q) :: kind[q]) + (if m < n then map[a := low, m := high] else map[a := low])
  }

  lemma RetileKindsAt(kind: map<int, Kind>, a: int, m: int, n: int, low: Kind, high: Kind)
    requires a < m <= n
    ensures var kind' := RetileKinds(kind, a, m, n, low, high);
      && (forall q {:trigger kind'[q]} {:trigger q in kind'} ::
         q in kind' <==> (q in kind && (q < a || n <= q)) || q == a || (q == m && m < n))
      && (forall q {:trigger kind'[q]} :: q in kind' ==>
            kind'[q] == (if q == a then low else if q == m && m < n then high else kind[q]))
  {
  }

  /** No free chunk runs up to a. */
  ghost predicate NotAfterFree(size: map<int, int>, kind: map<int, Kind>, a: int)
  {
    forall q {:trigger NextOf(size, q)} :: q in size && q in kind && NextOf(size, q) == a ==> !kind[q].Free?
  }

  lemma RetileNoAdjacentFree(size: map<int, int>, kind: map<int, Kind>, starts: set<int>, ends: set<int>,
                             a: int, m: int, n: int, low: Kind, high: Kind, top: int, top': int)
    requires Positive(size) && Span(size, starts, ends, a, n) && a < m <= n && size.Keys == kind.Keys
      && NoAdjacentFree(size, kind, top)
    requires low.Free? ==> m == n && NotAfterFree(size, kind, a)
    requires (if m < n then m else a) == top' || ((if m < n then high else low).Free? ==> n in size && !kind[n].Free?)
    requires top' == top || a <= top < n
    ensures NoAdjacentFree(Retile(size, a, m, n), RetileKinds(kind, a, m, n, low, high), top')
  {
    var size' := Retile(size, a, m, n);
    var kind' := RetileKinds(kind, a, m, n, low, high);
    RetileAt(size, a, m, n);
    RetileKindsAt(kind, a, m, n, low, high);
    hide Retile, RetileKinds;
    forall p | p in size' && kind'[p].Free? && p != top'
      ensures NextOf(size', p) in size' && !kind'[NextOf(size', p)].Free?
    {
      if p in size && (p < a || n <= p) { var _ := NextOf(size, p); }
    }
  }

  lemma RetileLiveInside(size: map<int, int>, kind: map<int, Kind>, starts: set<int>, ends: set<int>,
                         a: int, m: int, n: int, low: Kind, high: Kind)
    requires Positive(size) && Span(size, starts, ends, a, n) && a < m <= n && size.Keys == kind.Keys
      && LiveInside(size, kind)
    requires (if m < n then high else low).Live? ==> n in size
    ensures LiveInside(Retile(size, a, m, n), RetileKinds(kind, a, m, n, low, high))
  {
    var size' := Retile(size, a, m, n);
    var kind' := RetileKinds(kind, a, m, n, low, high);
    RetileAt(size, a, m, n);
    RetileKindsAt(kind, a, m, n, low, high);
    hide Retile, RetileKinds;
    forall p | p in size' && kind'[p].Live? ensures NextOf(size', p) in size' {
      if p in size && (p < a || n <= p) { var _ := NextOf(size, p); }
    }
  }

  lemma RetileSized(size: map<int, int>, a: int, m: int, n: int, top: int, top': int)
    requires Sized(size, top) && a in size && a < m <= n && m % 8 == 0 && n % 8 == 0
    requires a != top' ==> MIN_CHUNK_SIZE <= m - a
    requires m < n && m != top' ==> MIN_CHUNK_SIZE <= n - m
    requires top' == top || a <= top < n
    ensures Sized(Retile(size, a, m, n), top')
  {
    RetileAt(size, a, m, n);
    hide Retile;
  }

  // ---- the words in memory agree with the tiling ----

  ghost predicate HeadsMatch(size: map<int, int>, kind: map<int, Kind>, head: map<int, Head>) {
    forall p {:trigger head[p]} {:trigger kind[p]} :: p in size && p in kind ==>
      p in head && head[p].size == size[p] && head[p].cinuse == !kind[p].Free?
  }

  /** The chunk (or end marker) after a chunk records whether that chunk is in use. */
  ghost predicate PinusesMatch(size: map<int, int>, kind: map<int, Kind>, head: map<int, Head>) {
    forall p {:trigger NextOf(size, p)} :: p in size && p in kind ==>
      NextOf(size, p) in head && head[NextOf(size, p)].pinuse == !kind[p].Free?
  }

  /** The word after a free chunk holds that chunk's size. */
  ghost predicate FeetMatch(size: map<int, int>, kind: map<int, Kind>, top: int, foot: map<int, int>) {
    forall p {:trigger NextOf(size, p)} :: p in size && p in kind && kind[p].Free? && p != top ==>
      NextOf(size, p) in foot && foot[NextOf(size, p)] == size[p]
  }

  ghost predicate StartsPinuse(starts: set<int>, head: map<int, Head>) {
    forall s :: s in starts ==> s in head && head[s].pinuse
  }

  /** A clear PINUSE bit means prev_foot leads to a free chunk that ends here. */
  ghost predicate PrevsMatch(size: map<int, int>, kind: map<int, Kind>, head: map<int, Head>, foot: map<int, int>) {
    forall q {:trigger q in foot} {:trigger foot[q]} :: q in size && q in head && !head[q].pinuse ==>
      q in foot && q - foot[q] in size && size[q - foot[q]] == foot[q] && q - foot[q] in kind && kind[q - foot[q]].Free?
  }

  ghost predicate Tagged(size: map<int, int>, kind: map<int, Kind>, starts: set<int>, top: int,
                         head: map<int, Head>, foot: map<int, int>)
  {
    && HeadsMatch(size, kind, head) && PinusesMatch(size, kind, head) && FeetMatch(size, kind, top, foot)
    && StartsPinuse(starts, head) && PrevsMatch(size, kind, head, foot)
  }

  /** head' and foot' differ from head and foot only as a retiling of [a, n) must make them. */
  ghost predicate Rewritten(head: map<int, Head>, foot: map<int, int>, a: int, m: int, n: int, low: Kind, high: Kind,
                            toTop: bool,
                            head': map<int, Head>, foot': map<int, int>)
  {
    && (forall x {:trigger x in head'} {:trigger head'[x]} ::
       x in head && (x < a || n < x) ==> x in head' && head'[x] == head[x])
    && (forall x {:trigger x in foot'} {:trigger foot'[x]} ::
       x in foot && (x < a || n < x || x == a) ==> x in foot' && foot'[x] == foot[x])
    && a in head' && a in head && head'[a] == Head(m - a, head[a].pinuse, !low.Free?)
    && (m < n ==> m in head' && head'[m] == Head(n - m, true, !high.Free?))
    && (var last := if m < n then high else low;
        && n in head' && n in head && head'[n] == head[n].(pinuse := !last.Free?)
        && (last.Free? && !toTop ==> n in foot' && foot'[n] == n - (if m < n then m else a)))
  }

  lemma RetileHeads(size: map<int, int>, kind: map<int, Kind>, starts: set<int>, ends: set<int>, a: int, m: int, n: int,
                    low: Kind, high: Kind,
                    toTop: bool, head: map<int, Head>, foot: map<int, int>, head': map<int, Head>, foot': map<int, int>)
    requires Span(size, starts, ends, a, n) && a < m <= n && size.Keys == kind.Keys
    requires HeadsMatch(size, kind, head) && Rewritten(head, foot, a, m, n, low, high, toTop, head', foot')
    ensures HeadsMatch(Retile(size, a, m, n), RetileKinds(kind, a, m, n, low, high), head')
  {
    RetileAt(size, a, m, n);
    RetileKindsAt(kind, a, m, n, low, high);
    hide Retile, RetileKinds;
    forall p | p in Retile(size, a, m, n)
      ensures p in head' && head'[p].size == Retile(size, a, m, n)[p]
      ensures p in RetileKinds(kind, a, m, n, low, high)
        && head'[p].cinuse == !RetileKinds(kind, a, m, n, low, high)[p].Free?
    {
      if p in size { assert p in kind; var _ := kind[p]; }
    }
  }

  lemma RetilePinuses(size: map<int, int>, kind: map<int, Kind>, starts: set<int>, ends: set<int>, a: int, m: int,
                      n: int, low: Kind, high: Kind,
                      toTop: bool, head: map<int, Head>, foot: map<int, int>, head': map<int, Head>,
                        foot': map<int, int>)
    requires Positive(size) && Span(size, starts, ends, a, n) && a < m <= n && size.Keys == kind.Keys
    requires PinusesMatch(size, kind, head) && (m < n ==> !low.Free?)
      && Rewritten(head, foot, a, m, n, low, high, toTop, head', foot')
    ensures PinusesMatch(Retile(size, a, m, n), RetileKinds(kind, a, m, n, low, high), head')
  {
    var size' := Retile(size, a, m, n);
    var kind' := RetileKinds(kind, a, m, n, low, high);
    RetileAt(size, a, m, n);
    RetileKindsAt(kind, a, m, n, low, high);
    hide Retile, RetileKinds;
    forall p | p in size'
      ensures NextOf(size', p) in head' && head'[NextOf(size', p)].pinuse == !kind'[p].Free?
    {
      if p in size && (p < a || n <= p) { var _ := NextOf(size, p); }
    }
  }

  lemma RetileFeet(size: map<int, int>, kind: map<int, Kind>, starts: set<int>, ends: set<int>, a: int, m: int, n: int,
                   low: Kind, high: Kind,
                   top: int, top': int, head: map<int, Head>, foot: map<int, int>, head': map<int, Head>,
                     foot': map<int, int>)
    requires Positive(size) && Span(size, starts, ends, a, n) && a < m <= n && size.Keys == kind.Keys
    requires FeetMatch(size, kind, top, foot) && (top' == top || a <= top < n) && (low.Free? ==> m == n)
    requires Rewritten(head, foot, a, m, n, low, high, top' == (if m < n then m else a), head', foot')
    ensures FeetMatch(Retile(size, a, m, n), RetileKinds(kind, a, m, n, low, high), top', foot')
  {
    var size' := Retile(size, a, m, n);
    var kind' := RetileKinds(kind, a, m, n, low, high);
    RetileAt(size, a, m, n);
    RetileKindsAt(kind, a, m, n, low, high);
    hide Retile, RetileKinds;
    forall p | p in size' && kind'[p].Free? && p != top'
      ensures NextOf(size', p) in foot' && foot'[NextOf(size', p)] == size'[p]
    {
      if p in size && (p < a || n <= p) { var _ := NextOf(size, p); }
    }
  }

  /** The chunk prev_foot leads to ends exactly here. */
  lemma PrevAt(size: map<int, int>, kind: map<int, Kind>, head: map<int, Head>, foot: map<int, int>, q: int)
    requires size.Keys == kind.Keys && HeadsMatch(size, kind, head) && PrevsMatch(size, kind, head, foot)
    requires q in size && q in head && !head[q].pinuse
    ensures q in foot && q - foot[q] in size && NextOf(size, q - foot[q]) == q && kind[q - foot[q]].Free?
  {
    assert q in foot;
  }

  lemma RetilePrevAt(size: map<int, int>, kind: map<int, Kind>, starts: set<int>, ends: set<int>, a: int, m: int,
                     n: int, low: Kind, high: Kind,
                     top': int, head: map<int, Head>, foot: map<int, int>, head': map<int, Head>, foot': map<int, int>,
                       q: int)
    requires NoOverlap(size) && Positive(size) && Span(size, starts, ends, a, n) && a < m <= n && size.Keys == kind.Keys
    requires EndsClear(size, ends) && HeadsMatch(size, kind, head)
    requires PrevsMatch(size, kind, head, foot) && (top' == (if m < n then m else a) ==> n in ends)
    requires Rewritten(head, foot, a, m, n, low, high, top' == (if m < n then m else a), head', foot')
    requires q in Retile(size, a, m, n) && q in head' && !head'[q].pinuse
    ensures var size' := Retile(size, a, m, n); var kind' := RetileKinds(kind, a, m, n, low, high);
      q in foot' && q - foot'[q] in size' && size'[q - foot'[q]] == foot'[q] && q - foot'[q] in kind'
        && kind'[q - foot'[q]].Free?
  {
    RetileAt(size, a, m, n);
    RetileKindsAt(kind, a, m, n, low, high);
    hide Retile, RetileKinds;
    if q == n {
      assert size[n] > 0;
    } else if q != m {
      var _ := kind[q];
      PrevAt(size, kind, head, foot, q);
    }
  }

  lemma RetilePrevs(size: map<int, int>, kind: map<int, Kind>, starts: set<int>, ends: set<int>, a: int, m: int, n: int,
                    low: Kind, high: Kind,
                    top': int, head: map<int, Head>, foot: map<int, int>, head': map<int, Head>, foot': map<int, int>)
    requires NoOverlap(size) && Positive(size) && Span(size, starts, ends, a, n) && a < m <= n && size.Keys == kind.Keys
    requires EndsClear(size, ends) && HeadsMatch(size, kind, head)
    requires PrevsMatch(size, kind, head, foot) && (top' == (if m < n then m else a) ==> n in ends)
    requires Rewritten(head, foot, a, m, n, low, high, top' == (if m < n then m else a), head', foot')
    ensures PrevsMatch(Retile(size, a, m, n), RetileKinds(kind, a, m, n, low, high), head', foot')
  {
    var size' := Retile(size, a, m, n);
    var kind' := RetileKinds(kind, a, m, n, low, high);
    hide Retile, RetileKinds, NoOverlap, Positive, Span, EndsClear, HeadsMatch, Rewritten;
    forall q {:trigger q in foot'} {:trigger foot'[q]} | q in size' && q in head' && !head'[q].pinuse
      ensures q in foot' && q - foot'[q] in size' && size'[q - foot'[q]] == foot'[q] && q - foot'[q] in kind'
        && kind'[q - foot'[q]].Free?
    {
      RetilePrevAt(size, kind, starts, ends, a, m, n, low, high, top', head, foot, head', foot', q);
    }
  }

  // ---- the whole layer ----

  /** The chunks by address, the address where each segment's first chunk starts, the end marker
      that stops each segment (the fake chunk after top, or the first fencepost of a retired
      segment), and the top chunk. */
  datatype Heap = Heap(size: map<int, int>, kind: map<int, Kind>, starts: set<int>, ends: set<int>, top: int)

  /** Where chunk p ends. */
  function EndOf(H: Heap, p: int): int {
    if p in H.size then p + H.size[p] else p
  }

  ghost predicate IsLive(H: Heap, p: int) {
    p in H.size && p in H.kind && H.kind[p].Live?
  }

  ghost predicate IsFree(H: Heap, p: int) {
    p in H.size && p in H.kind && H.kind[p].Free?
  }

  ghost predicate TopPlaced(H: Heap) {
    && H.top in H.size && H.top in H.kind && H.kind[H.top].Free? && NextOf(H.size, H.top) in H.ends
  }

  ghost predicate Physical(H: Heap, head: map<int, Head>, foot: map<int, int>) {
    && H.size.Keys == H.kind.Keys
    && Tiled(H.size, H.starts, H.ends)
    && Sized(H.size, H.top)
    && NoAdjacentFree(H.size, H.kind, H.top)
    && LiveInside(H.size, H.kind)
    && TopPlaced(H)
    && Tagged(H.size, H.kind, H.starts, H.top, head, foot)
  }

  function RetileHeap(H: Heap, a: int, m: int, n: int, low: Kind, high: Kind): Heap {
    H.(size := Retile(H.size, a, m, n), kind := RetileKinds(H.kind, a, m, n, low, high),
       top := if a <= H.top < n then (if m < n then m else a) else H.top)
  }

  /** When [a, n) may be cut into [a, m) of kind low and [m, n) of kind high.  A region that holds
      top must leave top at its end. */
  ghost predicate MayRetile(H: Heap, a: int, m: int, n: int, low: Kind, high: Kind, head: map<int, Head>) {
    var last := if m < n then high else low;
    && Span(H.size, H.starts, H.ends, a, n) && a < m <= n && m % 8 == 0 && n % 8 == 0
    && (low.Free? ==> m == n && a in head && head[a].pinuse)
    && (m < n ==> MIN_CHUNK_SIZE <= m - a)
    && (if a <= H.top < n then last.Free? && n in H.ends
        else MIN_CHUNK_SIZE <= n - a && (m < n ==> MIN_CHUNK_SIZE <= n - m)
             && !last.Meta? && n in H.size && n in H.kind && (last.Free? ==> !H.kind[n].Free?))
  }

  lemma RetileStarts(size: map<int, int>, starts: set<int>, ends: set<int>, a: int, m: int, n: int, low: Kind,
                     high: Kind,
                     toTop: bool, head: map<int, Head>, foot: map<int, int>, head': map<int, Head>,
                       foot': map<int, int>)
    requires Span(size, starts, ends, a, n) && StartsPinuse(starts, head)
    requires Rewritten(head, foot, a, m, n, low, high, toTop, head', foot')
    ensures StartsPinuse(starts, head')
  {
  }

  lemma PinuseNotAfterFree(size: map<int, int>, kind: map<int, Kind>, head: map<int, Head>, a: int)
    requires PinusesMatch(size, kind, head) && a in head && head[a].pinuse
    ensures NotAfterFree(size, kind, a)
  {
  }

  lemma TaggedRetile(H: Heap, a: int, m: int, n: int, low: Kind, high: Kind,
                     head: map<int, Head>, foot: map<int, int>, head': map<int, Head>, foot': map<int, int>)
    requires Physical(H, head, foot) && MayRetile(H, a, m, n, low, high, head)
    requires Rewritten(head, foot, a, m, n, low, high, a <= H.top < n, head', foot')
    ensures var H' := RetileHeap(H, a, m, n, low, high);
      Tagged(H'.size, H'.kind, H'.starts, H'.top, head', foot')
  {
    hide Retile, RetileKinds, Sized, NoAdjacentFree, LiveInside, Closed, EndsClear, StartsClear, Positive, NoOverlap;
    hide HeadsMatch, PinusesMatch, FeetMatch, PrevsMatch, Span;
    assert Positive(H.size) && NoOverlap(H.size) && EndsClear(H.size, H.ends);
    var H' := RetileHeap(H, a, m, n, low, high);
    RetileHeads(H.size, H.kind, H.starts, H.ends, a, m, n, low, high, a <= H.top < n, head, foot, head', foot');
    RetilePinuses(H.size, H.kind, H.starts, H.ends, a, m, n, low, high, a <= H.top < n, head, foot, head', foot');
    RetileFeet(H.size, H.kind, H.starts, H.ends, a, m, n, low, high, H.top, H'.top, head, foot, head', foot');
    RetilePrevs(H.size, H.kind, H.starts, H.ends, a, m, n, low, high, H'.top, head, foot, head', foot');
    RetileStarts(H.size, H.starts, H.ends, a, m, n, low, high, a <= H.top < n, head, foot, head', foot');
  }

  lemma RetileTop(H: Heap, a: int, m: int, n: int, low: Kind, high: Kind, head: map<int, Head>)
    requires TopPlaced(H) && MayRetile(H, a, m, n, low, high, head) && H.size.Keys == H.kind.Keys
    ensures TopPlaced(RetileHeap(H, a, m, n, low, high))
  {
    RetileAt(H.size, a, m, n);
    RetileKindsAt(H.kind, a, m, n, low, high);
    hide Retile, RetileKinds;
  }

  /** The step every operation takes: cut up one region of a segment, rewrite its words to match. */
  lemma RetilePhysical(H: Heap, a: int, m: int, n: int, low: Kind, high: Kind,
                       head: map<int, Head>, foot: map<int, int>, head': map<int, Head>, foot': map<int, int>)
    requires Physical(H, head, foot) && MayRetile(H, a, m, n, low, high, head)
    requires Rewritten(head, foot, a, m, n, low, high, a <= H.top < n, head', foot')
    ensures Physical(RetileHeap(H, a, m, n, low, high), head', foot')
  {
    var H' := RetileHeap(H, a, m, n, low, high);
    assert H'.size.Keys == H'.kind.Keys by {
      RetileAt(H.size, a, m, n);
      RetileKindsAt(H.kind, a, m, n, low, high);
    }
    hide Retile, RetileKinds, Sized, NoAdjacentFree, LiveInside, Closed, EndsClear, StartsClear, NoOverlap, Positive,
      Span, TopPlaced;
    hide HeadsMatch, PinusesMatch, FeetMatch, PrevsMatch, StartsPinuse, Rewritten;
    RetileTiled(H.size, H.starts, H.ends, a, m, n);
    if low.Free? { PinuseNotAfterFree(H.size, H.kind, head, a); }
    RetileNoAdjacentFree(H.size, H.kind, H.starts, H.ends, a, m, n, low, high, H.top, H'.top);
    RetileLiveInside(H.size, H.kind, H.starts, H.ends, a, m, n, low, high);
    assert a in H.size by { assert Span(H.size, H.starts, H.ends, a, n); }
    RetileSized(H.size, a, m, n, H.top, H'.top);
    RetileTop(H, a, m, n, low, high, head);
    TaggedRetile(H, a, m, n, low, high, head, foot, head', foot');
  }

  /** A free chunk's predecessor is in use, so its PINUSE bit is set. */
  lemma FreePinuse(H: Heap, head: map<int, Head>, foot: map<int, int>, p: int)
    requires Physical(H, head, foot) && p in H.size && H.kind[p].Free?
    ensures p in head && head[p].pinuse
  {
    hide Closed, StartsClear, NoOverlap, Sized, LiveInside, PinusesMatch, FeetMatch, StartsPinuse, PrevsMatch;
    var _ := H.kind[p];
    assert 0 < H.size[p];
    if !head[p].pinuse { PrevAt(H.size, H.kind, head, foot, p); }
  }
}
