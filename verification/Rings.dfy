/** Circular doubly linked lists of chunks, and the operations that splice them. */
module Rings {

  /** fd and bk run around r, from each chunk to the next and back. */
  ghost predicate Ring(fd: map<int, int>, bk: map<int, int>, r: seq<int>) {
    && (forall k {:trigger fd[r[k]]} {:trigger r[k] in fd} :: 0 <= k < |r| ==>
          r[k] in fd && fd[r[k]] == (if k + 1 < |r| then r[k + 1] else r[0]))
    && (forall k {:trigger bk[r[k]]} {:trigger r[k] in bk} :: 0 <= k < |r| ==>
          r[k] in bk && bk[r[k]] == (if k > 0 then r[k - 1] else r[|r| - 1]))
  }

  ghost predicate NoDuplicates(r: seq<int>) {
    forall j, k {:trigger r[j], r[k]} :: 0 <= j < k < |r| ==> r[j] != r[k]
  }

  function InsertSecond(r: seq<int>, x: int): seq<int>
    requires |r| > 0
  {
    [r[0], x] + r[1..]
  }

  function RemoveAt(r: seq<int>, k: int): seq<int>
    requires 0 <= k < |r|
  {
    r[..k] + r[k + 1..]
  }

  /** The last chunk comes first. */
  function Rotate(r: seq<int>): seq<int>
    requires |r| > 0
  {
    [r[|r| - 1]] + r[..|r| - 1]
  }

  /** Updating the links of chunks outside r leaves r alone. */
  lemma RingFrame(fd: map<int, int>, bk: map<int, int>, fd': map<int, int>, bk': map<int, int>, r: seq<int>)
    requires Ring(fd, bk, r)
    requires forall k {:trigger r[k]} :: 0 <= k < |r| ==>
      (r[k] in fd ==> r[k] in fd' && fd'[r[k]] == fd[r[k]]) && (r[k] in bk ==> r[k] in bk' && bk'[r[k]] == bk[r[k]])
    ensures Ring(fd', bk', r)
  {
  }

  /** B->fd = P; F->bk = P; P->fd = F; P->bk = B, where F follows the head B. */
  lemma InsertSecondRing(fd: map<int, int>, bk: map<int, int>, r: seq<int>, x: int)
    requires |r| > 0 && (|r| > 1 ==> Ring(fd, bk, r)) && NoDuplicates(r) && x !in r
    ensures var f := if |r| > 1 then r[1] else r[0];
      Ring(fd[r[0] := x][x := f], bk[f := x][x := r[0]], InsertSecond(r, x))
    ensures NoDuplicates(InsertSecond(r, x))
  {
    var f := if |r| > 1 then r[1] else r[0];
    var fd', bk', r' := fd[r[0] := x][x := f], bk[f := x][x := r[0]], InsertSecond(r, x);
    forall k | 0 <= k < |r'|
      ensures r'[k] in fd' && fd'[r'[k]] == (if k + 1 < |r'| then r'[k + 1] else r'[0])
      ensures r'[k] in bk' && bk'[r'[k]] == (if k > 0 then r'[k - 1] else r'[|r'| - 1])
    {
      if k > 1 { assert r'[k] == r[k - 1]; }
    }
  }

  /** F->bk = B; B->fd = F, where F and B are P's neighbours. */
  lemma RemoveRing(fd: map<int, int>, bk: map<int, int>, r: seq<int>, k: int)
    requires Ring(fd, bk, r) && NoDuplicates(r) && 0 <= k < |r| && 2 <= |r|
    ensures r[k] in fd && r[k] in bk
    ensures Ring(fd[bk[r[k]] := fd[r[k]]], bk[fd[r[k]] := bk[r[k]]], RemoveAt(r, k))
    ensures NoDuplicates(RemoveAt(r, k))
  {
    var f, b := fd[r[k]], bk[r[k]];
    var fd', bk', r' := fd[b := f], bk[f := b], RemoveAt(r, k);
    assert f == (if k + 1 < |r| then r[k + 1] else r[0]) && b == (if k > 0 then r[k - 1] else r[|r| - 1]);
    forall j | 0 <= j < |r'| ensures r'[j] in fd' && fd'[r'[j]] == (if j + 1 < |r'| then r'[j + 1] else r'[0]) {
      assert r'[j] == if j < k then r[j] else r[j + 1];
    }
    forall j | 0 <= j < |r'| ensures r'[j] in bk' && bk'[r'[j]] == (if j > 0 then r'[j - 1] else r'[|r'| - 1]) {
      assert r'[j] == if j < k then r[j] else r[j + 1];
    }
  }

  lemma RotateRing(fd: map<int, int>, bk: map<int, int>, r: seq<int>)
    requires Ring(fd, bk, r) && NoDuplicates(r) && |r| > 0
    ensures Ring(fd, bk, Rotate(r)) && NoDuplicates(Rotate(r))
  {
    var r' := Rotate(r);
    forall j | 0 <= j < |r'|
      ensures r'[j] in fd && fd[r'[j]] == (if j + 1 < |r'| then r'[j + 1] else r'[0])
      ensures r'[j] in bk && bk[r'[j]] == (if j > 0 then r'[j - 1] else r'[|r'| - 1])
    {
      assert r'[j] == if j == 0 then r[|r| - 1] else r[j - 1];
    }
  }
}
