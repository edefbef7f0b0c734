/** memcpy and memmove on a flat memory, a word at a time where source and destination are aligned alike. */
module Memory {
  import opened Bytes
  import opened ChunkLayout

  /** Memory m with the len bytes from src on, as they were, put at dest. */
  function Moved(m: seq<byte>, dest: nat, src: nat, len: nat): (r: seq<byte>)
    requires dest + len <= |m| && src + len <= |m|
    ensures |r| == |m|
  {
    m[..dest] + m[src..src + len] + m[dest + len..]
  }

  lemma MovedAt(m: seq<byte>, dest: nat, src: nat, len: nat)
    requires dest + len <= |m| && src + len <= |m|
    ensures var r := Moved(m, dest, src, len);
      forall i {:trigger r[i]} :: 0 <= i < |m| ==> r[i] == if dest <= i < dest + len then m[src + i - dest] else m[i]
  {
  }

  lemma MovedMore(m: seq<byte>, m1: seq<byte>, m2: seq<byte>, dest: nat, src: nat, n: nat, k: nat)
    requires dest + n + k <= |m| && src + n + k <= |m| && m1 == Moved(m, dest, src, n)
    requires m2 == Moved(m1, dest + n, src + n, k) && (dest <= src || src + n + k <= dest)
    ensures m2 == Moved(m, dest, src, n + k)
  {
    MovedAt(m, dest, src, n);
    MovedAt(m1, dest + n, src + n, k);
    MovedAt(m, dest, src, n + k);
    hide Moved;
    var r := Moved(m, dest, src, n + k);
    forall i | 0 <= i < |m| ensures m2[i] == r[i] { }
  }

  /** One long: loaded whole, then stored whole. */
  method CopyLong(mem: array<byte>, dest: nat, src: nat)
    requires dest + W <= mem.Length && src + W <= mem.Length
    modifies mem
    ensures mem[..] == Moved(old(mem[..]), dest, src, W)
  {
    var word := mem[src..src + W];
    for i := 0 to W
      invariant forall k {:trigger mem[k]} ::
        0 <= k < mem.Length ==> mem[k] == if dest <= k < dest + i then word[k - dest] else old(mem[k])
    {
      mem[dest + i] := word[i];
    }
  }

  /** Bytes done to len, one at a time. */
  method CopyBytes(mem: array<byte>, dest: nat, src: nat, from: nat, len: nat, ghost m: seq<byte>)
    requires Underway(mem[..], m, dest, src, from, len)
    modifies mem
    ensures Underway(mem[..], m, dest, src, len, len)
  {
    hide Moved;
    var done := from;
    while done < len
      invariant Underway(mem[..], m, dest, src, done, len)
    {
      CopyByte(mem, dest, src, done, m);
      done := done + 1;
    }
  }

  /** Bytes up to the first long of the destination. */
  method CopyFront(mem: array<byte>, dest: nat, src: nat, len: nat, ghost m: seq<byte>) returns (done: nat)
    requires Underway(mem[..], m, dest, src, 0, len)
    modifies mem
    ensures Underway(mem[..], m, dest, src, done, len)
  {
    hide Moved;
    done := 0;
    while done < len && (dest + done) % W != 0
      invariant Underway(mem[..], m, dest, src, done, len)
    {
      CopyByte(mem, dest, src, done, m);
      done := done + 1;
    }
  }

  /** *ld++ = *ls++ */
  method NextLong(mem: array<byte>, dest: nat, src: nat, done: nat, len: nat, ghost m: seq<byte>)
    requires Underway(mem[..], m, dest, src, done, len) && done + W <= len
    modifies mem
    ensures Underway(mem[..], m, dest, src, done + W, len)
  {
    hide Moved;
    ghost var m1 := mem[..];
    CopyLong(mem, dest + done, src + done);
    MovedMore(m, m1, mem[..], dest, src, done, W);
  }

  /** Whole longs. */
  method CopyLongs(mem: array<byte>, dest: nat, src: nat, from: nat, len: nat, ghost m: seq<byte>) returns (done: nat)
    requires Underway(mem[..], m, dest, src, from, len)
    modifies mem
    ensures Underway(mem[..], m, dest, src, done, len)
  {
    hide Moved, Underway;
    done := from;
    while len - done > W - 1
      invariant Underway(mem[..], m, dest, src, done, len)
    {
      NextLong(mem, dest, src, done, len, m);
      done := done + W;
    }
  }

  /** The first done of len bytes are there, and the copy may go on upwards. */
  ghost predicate Underway(now: seq<byte>, m: seq<byte>, dest: nat, src: nat, done: nat, len: nat) {
    && dest + len <= |m| && src + len <= |m| && (dest <= src || src + len <= dest)
    && done <= len && now == Moved(m, dest, src, done)
  }

  /** memcpy, for a destination that does not start inside the source. */
  method MemCpy(mem: array<byte>, dest: nat, src: nat, len: nat)
    requires dest + len <= mem.Length && src + len <= mem.Length && (dest <= src || src + len <= dest)
    modifies mem
    ensures mem[..] == Moved(old(mem[..]), dest, src, len)
  {
    hide Moved;
    ghost var m := mem[..];
    NothingMoved(m, dest, src);
    if dest % W != src % W {
      CopyBytes(mem, dest, src, 0, len, m);
      return;
    }
    var done := CopyFront(mem, dest, src, len, m);
    done := CopyLongs(mem, dest, src, done, len, m);
    CopyBytes(mem, dest, src, done, len, m);
  }

  lemma NothingMoved(m: seq<byte>, dest: nat, src: nat)
    requires dest <= |m| && src <= |m|
    ensures m == Moved(m, dest, src, 0)
  {
  }

  /** *cd++ = *cs++ */
  method CopyByte(mem: array<byte>, dest: nat, src: nat, done: nat, ghost m: seq<byte>)
    requires |m| == mem.Length && dest + done < |m| && src + done < |m| && (dest <= src || src + done < dest)
    requires mem[..] == Moved(m, dest, src, done)
    modifies mem
    ensures mem[..] == Moved(m, dest, src, done + 1)
  {
    ghost var m1 := mem[..];
    mem[dest + done] := mem[src + done];
    assert mem[..] == Moved(m1, dest + done, src + done, 1);
    MovedMore(m, m1, mem[..], dest, src, done, 1);
  }

  /** memmove: a snapshot of the source, whatever the overlap. */
  method MemMove(mem: array<byte>, dest: nat, src: nat, len: nat)
    requires dest + len <= mem.Length && src + len <= mem.Length
    modifies mem
    ensures mem[..] == Moved(old(mem[..]), dest, src, len)
  {
    if dest < src {
      MemCpy(mem, dest, src, len);
      return;
    }
    ghost var m := mem[..];
    var i := len;
    while i > 0
      invariant 0 <= i <= len
      invariant forall k {:trigger mem[k]} ::
        0 <= k < mem.Length ==> mem[k] == if dest + i <= k < dest + len then m[src + k - dest] else m[k]
    {
      i := i - 1;
      mem[dest + i] := mem[src + i];
    }
    MovedAt(m, dest, src, len);
    hide Moved;
    ghost var r := Moved(m, dest, src, len);
    assert forall k :: 0 <= k < |m| ==> mem[..][k] == r[k];
  }

  /** Moving there and back again restores the bytes moved. */
  lemma MoveBack(m: seq<byte>, dest: nat, src: nat, len: nat)
    requires dest + len <= |m| && src + len <= |m|
    ensures Moved(Moved(m, dest, src, len), src, dest, len)[src..src + len] == m[src..src + len]
    ensures Moved(m, dest, src, len)[dest..dest + len] == m[src..src + len]
  {
    MovedAt(m, dest, src, len);
    MovedAt(Moved(m, dest, src, len), src, dest, len);
    var m1 := Moved(m, dest, src, len);
    var m2 := Moved(m1, src, dest, len);
    var back, there := m2[src..src + len], m[src..src + len];
    forall i | 0 <= i < len ensures back[i] == there[i] { var _ := m1[dest + i]; var _ := m2[src + i]; }
  }
}
