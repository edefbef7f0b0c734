/** The 32 small bins: rings through a header inside the malloc_state, one chunk size each. */
module SmallBins {
  import opened ChunkLayout
  import opened BinMaps
  import opened Rings

  /** smallbin_at(i), for the malloc_state of the chunk at base. */
  function Header(base: int, i: int): int { base + 2 * W + SMALLBINS_OFFSET + 2 * W * i }

  /** No chunk of the heap lies inside the malloc_state. */
  ghost predicate OutsideState(base: int, p: int) {
    p <= base || base + STATE_CHUNK <= p
  }

  /** A bin's links are only maintained while its map bit is set. */
  ghost predicate BinOk(base: int, i: int, r: seq<int>, marked: bool, fd: map<int, int>, bk: map<int, int>,
                        binned: map<int, int>)
  {
    && |r| > 0 && r[0] == Header(base, i) && NoDuplicates(r) && (marked <==> |r| > 1) && (|r| > 1 ==> Ring(fd, bk, r))
    && (forall k {:trigger r[k]} :: 1 <= k < |r| ==> r[k] in binned && binned[r[k]] == 8 * i)
  }

  ghost predicate BinsOk(base: int, bins: seq<seq<int>>, smallmap: nat, fd: map<int, int>, bk: map<int, int>,
                         binned: map<int, int>)
  {
    |bins| == 32 && forall i: nat {:trigger bins[i]} ::
      i < 32 ==> BinOk(base, i, bins[i], Has(smallmap, i), fd, bk, binned)
  }

  ghost predicate AllSmallBinned(bins: seq<seq<int>>, binned: map<int, int>) {
    |bins| == 32 && forall p {:trigger binned[p]} :: p in binned && binned[p] < 256 ==>
      binned[p] % 8 == 0 && 0 <= binned[p] / 8 && p in bins[binned[p] / 8][..]
  }

  ghost predicate AllOutside(base: int, binned: map<int, int>) {
    forall p {:trigger binned[p]} :: p in binned ==> OutsideState(base, p)
  }

  ghost predicate SmallOk(base: int, bins: seq<seq<int>>, smallmap: nat, fd: map<int, int>, bk: map<int, int>,
                          binned: map<int, int>)
  {
    && BinsOk(base, bins, smallmap, fd, bk, binned) && AllSmallBinned(bins, binned) && AllOutside(base, binned)
    && smallmap < Pow2(32)
  }

  lemma HeaderInside(base: int, i: int)
    requires 0 <= i < 32
    ensures !OutsideState(base, Header(base, i))
  {
  }

  lemma HeadersDistinct(base: int, i: int, j: int)
    requires Header(base, i) == Header(base, j)
    ensures i == j
  {
  }

  // ---- insertion ----

  lemma InsertOwnBin(base: int, i: int, r: seq<int>, marked: bool, fd: map<int, int>, bk: map<int, int>,
                     binned: map<int, int>, p: int)
    requires BinOk(base, i, r, marked, fd, bk, binned) && 0 <= i < 32 && p !in binned && OutsideState(base, p)
    ensures var f := if marked then r[1] else r[0];
      BinOk(base, i, InsertSecond(r, p), true, fd[r[0] := p][p := f], bk[f := p][p := r[0]], binned[p := 8 * i])
  {
    HeaderInside(base, i);
    assert p !in r;
    InsertSecondRing(fd, bk, r, p);
    var r' := InsertSecond(r, p);
    hide Ring, NoDuplicates;
    assert forall k :: 2 <= k < |r'| ==> r'[k] == r[k - 1];
  }

  /** Bins that hold none of the chunks whose links changed stay as they are. */
  lemma BinFrame(base: int, i: int, r: seq<int>, marked: bool, fd: map<int, int>, bk: map<int, int>,
                 binned: map<int, int>,
                 fd': map<int, int>, bk': map<int, int>, binned': map<int, int>)
    requires BinOk(base, i, r, marked, fd, bk, binned)
    requires forall k {:trigger r[k]} :: 0 <= k < |r| ==>
      (r[k] in fd ==> r[k] in fd' && fd'[r[k]] == fd[r[k]]) && (r[k] in bk ==> r[k] in bk' && bk'[r[k]] == bk[r[k]])
    requires forall k {:trigger r[k]} :: 1 <= k < |r| ==> r[k] in binned' && binned'[r[k]] == binned[r[k]]
    ensures BinOk(base, i, r, marked, fd', bk', binned')
  {
    if |r| > 1 { RingFrame(fd, bk, fd', bk', r); }
    hide Ring, NoDuplicates;
  }

  lemma InsertOtherBin(base: int, i: int, r: seq<int>, j: int, q: seq<int>, marked: bool, fd: map<int, int>,
                       bk: map<int, int>,
                       binned: map<int, int>, p: int, f: int)
    requires 0 <= i < 32 && 0 <= j < 32 && i != j && p !in binned && OutsideState(base, p)
    requires BinOk(base, j, q, marked, fd, bk, binned)
    requires AllOutside(base, binned) && (f == Header(base, i) || (f in binned && binned[f] == 8 * i))
    ensures BinOk(base, j, q, marked, fd[Header(base, i) := p][p := f], bk[f := p][p := Header(base, i)],
      binned[p := 8 * i])
  {
    HeaderInside(base, i);
    HeaderInside(base, j);
    var fd', bk' := fd[Header(base, i) := p][p := f], bk[f := p][p := Header(base, i)];
    forall k | 0 <= k < |q| ensures q[k] != p && q[k] != f && q[k] != Header(base, i) {
      if k == 0 {
        if q[k] == Header(base, i) { HeadersDistinct(base, i, j); }
      }
    }
    BinFrame(base, j, q, marked, fd, bk, binned, fd', bk', binned[p := 8 * i]);
  }

  lemma InsertSmall(base: int, bins: seq<seq<int>>, smallmap: nat, fd: map<int, int>, bk: map<int, int>,
                    binned: map<int, int>, p: int, i: nat)
    requires SmallOk(base, bins, smallmap, fd, bk, binned) && i < 32 && p !in binned && OutsideState(base, p)
    ensures |bins| == 32
      && (Has(smallmap, i) ==>
      |bins[i]| > 1 && Header(base, i) in fd && fd[Header(base, i)] == bins[i][1] && bins[i][1] in binned
      && binned[bins[i][1]] == 8 * i)
    ensures |bins[i]| > 0 && Header(base, i) !in binned
    ensures var h := Header(base, i); var f := if Has(smallmap, i) then bins[i][1] else h;
      var map' := if Has(smallmap, i) then smallmap else Or(32, smallmap, Bit(i));
      SmallOk(base, bins[i := InsertSecond(bins[i], p)], map', fd[h := p][p := f], bk[f := p][p := h],
        binned[p := 8 * i])
  {
    var h := Header(base, i);
    var r := bins[i];
    assert BinOk(base, i, r, Has(smallmap, i), fd, bk, binned);
    HeaderInside(base, i);
    var f := if Has(smallmap, i) then r[1] else h;
    var bins' := bins[i := InsertSecond(r, p)];
    var map' := if Has(smallmap, i) then smallmap else Or(32, smallmap, Bit(i));
    hide Or, Has, Bit;
    forall j: nat | j < 32
      ensures BinOk(base, j, bins'[j], Has(map', j), fd[h := p][p := f], bk[f := p][p := h], binned[p := 8 * i])
    {
      MarkClear(smallmap, i, j);
      if j == i {
        InsertOwnBin(base, i, r, Has(smallmap, i), fd, bk, binned, p);
      } else {
        InsertOtherBin(base, i, r, j, bins[j], Has(smallmap, j), fd, bk, binned, p, f);
      }
    }
    InsertBinned(bins, binned, p, i, r);
  }

  lemma InsertBinned(bins: seq<seq<int>>, binned: map<int, int>, p: int, i: nat, r: seq<int>)
    requires AllSmallBinned(bins, binned) && i < 32 && p !in binned && bins[i] == r && |r| > 0
    ensures AllSmallBinned(bins[i := InsertSecond(r, p)], binned[p := 8 * i])
  {
    var r' := InsertSecond(r, p);
    assert r'[1] == p;
    forall q | q in r ensures q in r' {
      var k :| 0 <= k < |r| && r[k] == q;
      if k > 0 { assert r'[k + 1] == q; } else { assert r'[0] == q; }
    }
    hide InsertSecond;
  }

  // ---- removal ----

  lemma RemoveOwnBin(base: int, i: int, r: seq<int>, fd: map<int, int>, bk: map<int, int>, binned: map<int, int>,
                     k: int)
    requires BinOk(base, i, r, true, fd, bk, binned) && 1 <= k < |r| && AllOutside(base, binned) && 0 <= i < 32
    ensures r[k] in fd && r[k] in bk
    ensures var p := r[k]; var f, b := fd[p], bk[p];
      && (f == b <==> |r| == 2)
      && (|r| == 2 ==> BinOk(base, i, RemoveAt(r, k), false, fd, bk, binned - {p}))
      && (|r| > 2 ==> BinOk(base, i, RemoveAt(r, k), true, fd[b := f], bk[f := b], binned - {p}))
      && (f == Header(base, i) || (f in binned && binned[f] == 8 * i))
      && (b == Header(base, i) || (b in binned && binned[b] == 8 * i))
  {
    var p := r[k];
    RemoveRing(fd, bk, r, k);
    var r' := RemoveAt(r, k);
    assert forall j :: 0 <= j < |r'| ==> r'[j] == if j < k then r[j] else r[j + 1];
    assert fd[p] == (if k + 1 < |r| then r[k + 1] else r[0]) && bk[p] == r[k - 1];
    hide Ring;
    assert forall j :: 1 <= j < |r'| ==> r'[j] != p;
  }

  lemma RemoveOtherBin(base: int, i: int, j: int, q: seq<int>, marked: bool, fd: map<int, int>, bk: map<int, int>,
                       binned: map<int, int>, p: int, f: int, b: int, splice: bool)
    requires 0 <= i < 32 && 0 <= j < 32 && i != j && p in binned && binned[p] == 8 * i
    requires BinOk(base, j, q, marked, fd, bk, binned) && AllOutside(base, binned)
    requires f == Header(base, i) || (f in binned && binned[f] == 8 * i)
    requires b == Header(base, i) || (b in binned && binned[b] == 8 * i)
    ensures BinOk(base, j, q, marked, if splice then fd[b := f] else fd, if splice then bk[f := b]
      else bk, binned - {p})
  {
    HeaderInside(base, i);
    HeaderInside(base, j);
    forall k | 0 <= k < |q| ensures q[k] != p && q[k] != f && q[k] != b {
      if k == 0 {
        if q[k] == Header(base, i) { HeadersDistinct(base, i, j); }
      }
    }
    BinFrame(base, j, q, marked, fd, bk, binned, if splice then fd[b := f] else fd, if splice then bk[f := b]
      else bk, binned - {p});
  }

  /** Where chunk p is in its bin. */
  lemma FindSmall(base: int, bins: seq<seq<int>>, smallmap: nat, fd: map<int, int>, bk: map<int, int>,
                  binned: map<int, int>, p: int)
    returns (i: nat, k: nat)
    requires SmallOk(base, bins, smallmap, fd, bk, binned) && p in binned && binned[p] < 256
    ensures |bins| == 32 && i < 32 && binned[p] == 8 * i && 1 <= k < |bins[i]| && bins[i][k] == p && Has(smallmap, i)
    ensures BinOk(base, i, bins[i], true, fd, bk, binned)
  {
    i := binned[p] / 8;
    assert BinOk(base, i, bins[i], Has(smallmap, i), fd, bk, binned);
    assert p in bins[i];
    k :| 0 <= k < |bins[i]| && bins[i][k] == p;
    HeaderInside(base, i);
  }

  /** The first chunk of a marked bin. */
  lemma FirstSmall(base: int, bins: seq<seq<int>>, smallmap: nat, fd: map<int, int>, bk: map<int, int>,
                   binned: map<int, int>, i: nat)
    requires SmallOk(base, bins, smallmap, fd, bk, binned) && i < 32 && Has(smallmap, i)
    ensures |bins| == 32 && |bins[i]| > 1 && Header(base, i) in fd && fd[Header(base, i)] == bins[i][1]
    ensures bins[i][1] in binned && binned[bins[i][1]] == 8 * i
    ensures bins[i][1] in fd && bins[i][1] in bk && bk[bins[i][1]] == Header(base, i)
  {
    assert BinOk(base, i, bins[i], Has(smallmap, i), fd, bk, binned);
  }

  lemma RemoveBinned(bins: seq<seq<int>>, binned: map<int, int>, p: int, i: nat, k: nat)
    requires AllSmallBinned(bins, binned) && i < 32 && p in binned && k < |bins[i]| && bins[i][k] == p
    ensures AllSmallBinned(bins[i := RemoveAt(bins[i], k)], binned - {p})
  {
    var r, r' := bins[i], RemoveAt(bins[i], k);
    forall q | q in r && q != p ensures q in r' {
      var j :| 0 <= j < |r| && r[j] == q;
      if j < k { assert r'[j] == q; } else { assert r'[j - 1] == q; }
    }
    hide RemoveAt;
  }

  lemma RemoveSmall(base: int, bins: seq<seq<int>>, smallmap: nat, fd: map<int, int>, bk: map<int, int>,
                    binned: map<int, int>,
                    p: int, i: nat, k: nat)
    requires SmallOk(base, bins, smallmap, fd, bk, binned) && p in binned
    requires i < 32 && binned[p] == 8 * i && 1 <= k < |bins[i]| && bins[i][k] == p && Has(smallmap, i)
    ensures p in fd && p in bk
    ensures fd[p] == Header(base, i) || (fd[p] in binned && binned[fd[p]] == 8 * i)
    ensures bk[p] == Header(base, i) || (bk[p] in binned && binned[bk[p]] == 8 * i)
    ensures Header(base, i) !in binned
    ensures var f, b := fd[p], bk[p]; var bins' := bins[i := RemoveAt(bins[i], k)];
      if f == b then SmallOk(base, bins', And(32, smallmap, Not(32, Bit(i))), fd, bk, binned - {p})
      else SmallOk(base, bins', smallmap, fd[b := f], bk[f := b], binned - {p})
  {
    var r := bins[i];
    assert BinOk(base, i, r, Has(smallmap, i), fd, bk, binned);
    RemoveOwnBin(base, i, r, fd, bk, binned, k);
    HeaderInside(base, i);
    var f, b := fd[p], bk[p];
    var map' := if f == b then And(32, smallmap, Not(32, Bit(i))) else smallmap;
    var fd', bk' := if f == b then fd else fd[b := f], if f == b then bk else bk[f := b];
    var bins' := bins[i := RemoveAt(r, k)];
    hide And, Not, Bit, Has;
    forall j: nat | j < 32 ensures BinOk(base, j, bins'[j], Has(map', j), fd', bk', binned - {p}) {
      MarkClear(smallmap, i, j);
      if j != i { RemoveOtherBin(base, i, j, bins[j], Has(smallmap, j), fd, bk, binned, p, f, b, f != b); }
    }
    RemoveBinned(bins, binned, p, i, k);
    assert AllOutside(base, binned - {p});
  }

  /** Large chunks coming and going, and link writes to them, leave the small bins alone. */
  lemma SmallFrame(base: int, bins: seq<seq<int>>, smallmap: nat, fd: map<int, int>, bk: map<int, int>,
                   binned: map<int, int>,
                   fd': map<int, int>, bk': map<int, int>, binned': map<int, int>)
    requires SmallOk(base, bins, smallmap, fd, bk, binned)
    requires forall x {:trigger fd[x]} {:trigger x in fd} ::
      x in fd && (!OutsideState(base, x) || (x in binned && binned[x] < 256)) ==> x in fd' && fd'[x] == fd[x]
    requires forall x {:trigger bk[x]} {:trigger x in bk} ::
      x in bk && (!OutsideState(base, x) || (x in binned && binned[x] < 256)) ==> x in bk' && bk'[x] == bk[x]
    requires forall x {:trigger binned[x]} :: x in binned && binned[x] < 256 ==> x in binned' && binned'[x] == binned[x]
    requires forall x {:trigger binned'[x]} ::
      x in binned' && binned'[x] < 256 ==> x in binned && binned'[x] == binned[x]
    requires AllOutside(base, binned')
    ensures SmallOk(base, bins, smallmap, fd', bk', binned')
  {
    forall i: nat | i < 32 ensures BinOk(base, i, bins[i], Has(smallmap, i), fd', bk', binned') {
      assert BinOk(base, i, bins[i], Has(smallmap, i), fd, bk, binned);
      HeaderInside(base, i);
      BinFrame(base, i, bins[i], Has(smallmap, i), fd, bk, binned, fd', bk', binned');
    }
    hide BinOk, OutsideState;
  }
}
