/** The queue between calls of one side at a time: queue_read, queue_write and the transfers built on them. */
module Queues {
  import opened BinIndex
  import opened BinMaps
  import opened Bytes
  import opened RingIndex
  import opened Alignments

  function Min(a: nat, b: nat): nat { if a < b then a else b }

  // ---- the ring as a sequence ----

  lemma ContentAt(buf: seq<byte>, head: nat, tail: nat, i: nat)
    requires head < |buf| && tail < |buf| && i < Count(|buf|, head, tail)
    ensures Content(buf, head, tail)[i] == if head + i < |buf| then buf[head + i] else buf[head + i - |buf|]
    ensures head <= tail ==> head + i < |buf|
  {
    CountAt(|buf|, head, tail);
    ModSmall(head + i, |buf|);
  }

  /** The part of the ring content between two offsets is at most two runs of cells. */
  lemma ContentRuns(buf: seq<byte>, head: nat, tail: nat, off: nat, len: nat, o: nat)
    requires head < |buf| && tail < |buf| && off + len <= Count(|buf|, head, tail) && o == Cell(head + off, |buf|)
    ensures o < |buf| && Min(len, |buf| - o) <= len
    ensures var first := Min(len, |buf| - o);
      len - first <= |buf| && Content(buf, head, tail)[off..off + len] == buf[o..o + first] + buf[..len - first]
  {
    CountAt(|buf|, head, tail);
    CellSmall(head + off, |buf|);
    var first := Min(len, |buf| - o);
    var c := Content(buf, head, tail);
    hide Content, Count;
    var part, runs := c[off..off + len], buf[o..o + first] + buf[..len - first];
    forall i | 0 <= i < len ensures part[i] == runs[i] {
      ContentAt(buf, head, tail, off + i);
    }
  }

  /** Taking k bytes off the front moves the head. */
  lemma ContentDrop(buf: seq<byte>, head: nat, tail: nat, k: nat, head': nat)
    requires head < |buf| && tail < |buf| && k <= Count(|buf|, head, tail) && head' == Cell(head + k, |buf|)
    ensures head' < |buf| && Content(buf, head', tail) == Content(buf, head, tail)[k..]
  {
    CountAt(|buf|, head, tail);
    CellSmall(head + k, |buf|);
    CountAt(|buf|, head', tail);
    var c, c' := Content(buf, head, tail), Content(buf, head', tail);
    hide Content, Count;
    assert |c'| == |c| - k;
    var rest := c[k..];
    forall i | 0 <= i < |c'| ensures c'[i] == rest[i] {
      ContentAt(buf, head', tail, i);
      ContentAt(buf, head, tail, k + i);
    }
  }

  /** buf with data stored from off on, going on at the start past the end. */
  function Place(buf: seq<byte>, off: nat, data: seq<byte>): (r: seq<byte>)
    requires off < |buf| && |data| <= |buf|
    ensures |r| == |buf|
  {
    var first := Min(|data|, |buf| - off);
    var buf1 := buf[..off] + data[..first] + buf[off + first..];
    data[first..] + buf1[|data| - first..]
  }

  lemma PlaceAt(buf: seq<byte>, off: nat, data: seq<byte>, j: nat)
    requires off < |buf| && |data| < |buf| && j < |buf|
    ensures Place(buf, off, data)[j] ==
      if off <= j < off + |data| then data[j - off]
      else if j + |buf| < off + |data| then data[j + |buf| - off]
      else buf[j]
  {
  }

  /** Storing behind the tail and moving the tail appends. */
  lemma ContentAppend(buf: seq<byte>, head: nat, tail: nat, data: seq<byte>, tail': nat)
    requires head < |buf| && tail < |buf| && |data| + Count(|buf|, head, tail) < |buf|
      && tail' == Cell(tail + |data|, |buf|)
    ensures tail' < |buf| && Content(Place(buf, tail, data), head, tail') == Content(buf, head, tail) + data
  {
    CountAt(|buf|, head, tail);
    CellSmall(tail + |data|, |buf|);
    CountAt(|buf|, head, tail');
    var buf' := Place(buf, tail, data);
    var c, c' := Content(buf, head, tail), Content(buf', head, tail');
    hide Content, Count, Place;
    assert |c'| == |c| + |data|;
    var whole := c + data;
    forall i | 0 <= i < |c'| ensures c'[i] == whole[i] {
      ContentAt(buf', head, tail', i);
      var j := if head + i < |buf| then head + i else head + i - |buf|;
      PlaceAt(buf, tail, data, j);
      if i < |c| { ContentAt(buf, head, tail, i); }
    }
  }

  /** What is free is what is left of size - 1. */
  lemma SpaceLeft(size: nat, head: nat, tail: nat)
    requires head < size && tail < size
    ensures Cell(head - tail - 1, size) == size - 1 - Count(size, head, tail)
    ensures head == tail <==> Count(size, head, tail) == 0
  {
    CountAt(size, head, tail);
    CellSmall(head - tail - 1, size);
  }

  /** The test of queue_init lets through the powers of two, and zero. */
  lemma InitTest(size: nat)
    requires size < UINT32_RANGE
    ensures And(32, size, (size - 1) % UINT32_RANGE) == 0 <==> size == 0 || IsPow2(size)
  {
    hide Pow2, And;
    Pow2Literals();
    if size > 0 {
      PowerTest(32, size);
    } else {
      AndZeroLeft(32, UINT32_RANGE - 1);
    }
  }

  lemma {:induction false} AndZeroLeft(n: nat, b: nat)
    ensures And(n, 0, b) == 0
  {
    if n > 0 { AndZeroLeft(n - 1, b / 2); }
  }

  /** memcpy of n bytes between two buffers. */
  method Copy(dst: array<byte>, at: nat, src: seq<byte>)
    requires at + |src| <= dst.Length
    modifies dst
    ensures dst[..] == old(dst[..at]) + src + old(dst[at + |src|..])
  {
    for i := 0 to |src|
      invariant dst[..] == old(dst[..at]) + src[..i] + old(dst[at + i..])
    {
      dst[at + i] := src[i];
    }
  }

  class Queue {
    const size: nat
    const buf: array<byte>
    var head: nat
    var tail: nat

    /** queue_init of a power of two, once the buffer is allocated. */
    constructor (n: nat)
      requires RingSize(n)
      ensures Valid() && fresh(buf) && size == n && Contents() == []
    {
      WrapIsCell(n, 0);
      size := n;
      buf := new byte[n];
      head := 0;
      tail := 0;
      new;
      CountAt(n, 0, 0);
    }

    ghost predicate Valid()
      reads this
    {
      RingSize(size) && buf.Length == size && size > 0 && head < size && tail < size
    }

    ghost function Contents(): (s: seq<byte>)
      requires Valid()
      reads this, buf
      ensures |s| == Count(size, head, tail)
    {
      Content(buf[..], head, tail)
    }

    /** queue_get_avail, queue_get_space, queue_empty and queue_full. */
    function GetAvail(): (n: nat)
      requires Valid()
      reads this, buf
      ensures n == |Contents()| < size
    {
      WrapIsCell(size, tail - head);
      Wrap(size, tail - head)
    }

    function GetSpace(): (n: nat)
      requires Valid()
      reads this, buf
      ensures n + |Contents()| == size - 1
    {
      WrapIsCell(size, head - tail - 1);
      SpaceLeft(size, head, tail);
      Wrap(size, head - tail - 1)
    }

    predicate Empty()
      requires Valid()
      reads this, buf
      ensures Empty() <==> Contents() == []
    {
      SpaceLeft(size, head, tail);
      head == tail
    }

    predicate Full()
      requires Valid()
      reads this, buf
      ensures Full() <==> |Contents()| == size - 1
    {
      GetSpace() == 0
    }

    /** queue_read_at. */
    method ReadAt(dst: array<byte>, off: nat, len: nat)
      requires Valid() && dst != buf && len <= dst.Length && off + len <= |Contents()|
      modifies dst
      ensures dst[..] == Contents()[off..off + len] + old(dst[len..])
    {
      hide Content, Wrap, RingSize, Cell;
      WrapIsCell(size, head + off);
      var o := Wrap(size, head + off);
      ContentRuns(buf[..], head, tail, off, len, o);
      var first := Min(len, size - o);
      Copy(dst, 0, buf[o..o + first]);
      var rest := len - first;
      if rest > 0 { Copy(dst, first, buf[0..rest]); }
      assert buf[..][o..o + first] + buf[..][..rest] == buf[o..o + first] + buf[..rest];
    }

    /** Publishes a new head k bytes on. */
    method Advance(k: nat)
      requires Valid() && k <= |Contents()|
      modifies `head
      ensures Valid() && Contents() == old(Contents())[k..] && head == Cell(old(head) + k, size)
    {
      hide Content, Wrap, RingSize, Cell;
      WrapIsCell(size, head + k);
      ContentDrop(buf[..], head, tail, k, Wrap(size, head + k));
      head := Wrap(size, head + k);
    }

    /** queue_read. */
    method Read(dst: array<byte>, len: nat, peek: bool) returns (count: nat)
      requires Valid() && dst != buf && len <= dst.Length
      modifies dst, `head
      ensures Valid() && count == Min(len, |old(Contents())|)
      ensures dst[..] == old(Contents())[..count] + old(dst[count..])
      ensures Contents() == if peek then old(Contents()) else old(Contents())[count..]
    {
      var avail := GetAvail();
      count := Min(avail, len);
      ReadAt(dst, 0, count);
      if !peek { Advance(count); }
    }

    /** queue_readchar: the oldest byte, or ERR_WOULDBLOCK. */
    method ReadChar(peek: bool) returns (found: bool, c: byte)
      requires Valid()
      modifies `head
      ensures Valid() && (found <==> old(Contents()) != [])
      ensures found ==> c == old(Contents())[0] && Contents() == if peek then old(Contents()) else old(Contents())[1..]
      ensures !found ==> head == old(head)
    {
      SpaceLeft(size, head, tail);
      if head == tail {
        return false, 0;
      }
      ContentAt(buf[..], head, tail, 0);
      found, c := true, buf[head];
      if !peek { Advance(1); }
    }

    /** queue_write_at: buf[off..], going on at the start past the end. */
    method WriteAt(data: seq<byte>, off: nat)
      requires Valid() && off < size && |data| < size
      modifies buf
      ensures buf[..] == Place(old(buf[..]), off, data)
    {
      var first := Min(|data|, size - off);
      Copy(buf, off, data[..first]);
      var rest := |data| - first;
      if rest > 0 {
        Copy(buf, 0, data[first..]);
      }
    }

    /** queue_write. */
    method Write(data: seq<byte>, len: nat) returns (count: nat)
      requires Valid() && len <= |data|
      modifies buf, `tail
      ensures Valid() && count == Min(len, size - 1 - |old(Contents())|)
      ensures Contents() == old(Contents()) + data[..count]
    {
      hide Content, Wrap, Place, RingSize, Cell;
      var space := GetSpace();
      count := Min(space, len);
      WrapIsCell(size, tail + count);
      ContentAppend(buf[..], head, tail, data[..count], Wrap(size, tail + count));
      WriteAt(data[..count], tail);
      tail := Wrap(size, tail + count);
    }

    /** queue_writechar: false is ERR_BUSY. */
    method WriteChar(c: byte) returns (ok: bool)
      requires Valid()
      modifies buf, `tail
      ensures Valid() && (ok <==> |old(Contents())| < size - 1)
      ensures Contents() == if ok then old(Contents()) + [c] else old(Contents())
    {
      hide Content, Wrap, Place, RingSize, Cell;
      WrapIsCell(size, head - 1);
      WrapIsCell(size, tail + 1);
      FullMeans(size, head, tail);
      if tail == Wrap(size, head - 1) {
        return false;
      }
      ContentAppend(buf[..], head, tail, [c], Wrap(size, tail + 1));
      PlaceOne(buf[..], tail, c);
      buf[tail] := c;
      tail := Wrap(size, tail + 1);
      ok := true;
    }

    /** queue_discard. */
    method Discard(num: nat) returns (count: nat)
      requires Valid()
      modifies `head
      ensures Valid() && count == Min(num, |old(Contents())|) && Contents() == old(Contents())[count..]
    {
      var avail := GetAvail();
      count := if num > avail then avail else num;
      Advance(count);
    }

    /** queue_purge. */
    method Purge()
      requires Valid()
      modifies `head
      ensures Valid() && Contents() == []
    {
      SpaceLeft(size, tail, tail);
      head := tail;
    }
  }

  lemma FullMeans(size: nat, head: nat, tail: nat)
    requires head < size && tail < size
    ensures tail == Cell(head - 1, size) <==> Count(size, head, tail) == size - 1
  {
    CountAt(size, head, tail);
    CellSmall(head - 1, size);
  }

  lemma PlaceOne(buf: seq<byte>, off: nat, c: byte)
    requires off < |buf| && 1 < |buf|
    ensures Place(buf, off, [c]) == buf[off := c]
  {
  }

  /** A run of cells that does not reach the end of the buffer is a slice of the content. */
  lemma RunIsSlice(buf: seq<byte>, head: nat, tail: nat, off: nat, chunk: nat, o: nat)
    requires head < |buf| && tail < |buf| && off + chunk <= Count(|buf|, head, tail) && o == Cell(head + off, |buf|)
      && o + chunk <= |buf|
    ensures Content(buf, head, tail)[off..off + chunk] == buf[o..o + chunk]
  {
    hide Content;
    ContentRuns(buf, head, tail, off, chunk, o);
    assert buf[o..o + chunk] + buf[..0] == buf[o..o + chunk];
  }

  lemma SliceStep(c: seq<byte>, moved: nat, chunk: nat, ret: nat)
    requires moved + chunk <= |c| && ret <= chunk
    ensures c[moved..moved + chunk][..ret] == c[moved..moved + ret]
      && c[..moved] + c[moved..moved + ret] == c[..moved + ret]
  {
  }

  lemma AppendStep(d: seq<byte>, c: seq<byte>, d1: seq<byte>, d2: seq<byte>, moved: nat, ret: nat)
    requires moved + ret <= |c| && d1 == d + c[..moved] && d2 == d1 + c[moved..moved + ret]
    ensures d2 == d + c[..moved + ret]
  {
    SliceStep(c, moved, ret, ret);
    assert d2 == d + (c[..moved] + c[moved..moved + ret]);
  }

  /** One half of queue_to_queue: the run of chunk cells at head goes to dest, as far as there is space. */
  method SendRun(dest: Queue, src: Queue, head: nat, chunk: nat, peek: bool, ghost from: nat, ghost moved: nat)
    returns (ret: nat, head': nat)
    requires dest.Valid() && src.Valid() && dest != src && dest.buf != src.buf && from < src.size
    requires head == Cell(from + moved, src.size) && head + chunk <= src.size
      && moved + chunk <= Count(src.size, from, src.tail)
    requires src.head == if peek then from else head
    modifies dest.buf, dest`tail, src`head
    ensures dest.Valid() && src.Valid() && ret == Min(chunk, dest.size - 1 - |old(dest.Contents())|)
    ensures head' == Cell(from + moved + ret, src.size) && src.head == if peek then from else head'
    ensures dest.Contents() == old(dest.Contents()) + Content(src.buf[..], from, src.tail)[moved..moved + ret]
  {
    hide Content, Wrap, Count, RingSize, Cell;
    RunIsSlice(src.buf[..], from, src.tail, moved, chunk, head);
    ret := dest.Write(src.buf[head..head + chunk], chunk);
    SliceStep(Content(src.buf[..], from, src.tail), moved, chunk, ret);
    WrapIsCell(src.size, head + ret);
    CellAdd(from + moved, ret, src.size);
    head' := Wrap(src.size, head + ret);
    if !peek { src.head := head'; }
  }

  /** What a transfer of count bytes leaves, seen from both ends. */
  lemma Transferred(size: nat, buf: seq<byte>, from: nat, tail: nat, peek: bool, head: nat, count: nat, d: seq<byte>,
                    d': seq<byte>)
    requires |buf| == size && from < size && tail < size && count <= Count(size, from, tail)
      && d' == d + Content(buf, from, tail)[..count]
    requires head == if peek then from else Cell(from + count, size)
    ensures head < size && Content(buf, head, tail) == if peek then Content(buf, from, tail)
      else Content(buf, from, tail)[count..]
    ensures !peek ==> d' + Content(buf, head, tail) == d + Content(buf, from, tail)
  {
    ContentDrop(buf, from, tail, count, Cell(from + count, size));
    hide Content;
    var c := Content(buf, from, tail);
    assert c == c[..count] + c[count..];
    assert d + c[..count] + c[count..] == d + (c[..count] + c[count..]);
  }

  /** The part of queue_to_queue up to the end of the source's buffer, for a source that wraps. */
  method SendUpper(dest: Queue, src: Queue, len: nat, peek: bool) returns (count: nat, head: nat, full: bool)
    requires dest.Valid() && src.Valid() && dest != src && dest.buf != src.buf && src.tail < src.head
    modifies dest.buf, dest`tail, src`head
    ensures dest.Valid() && src.Valid() && head == Cell(old(src.head) + count, src.size)
      && src.head == if peek then old(src.head) else head
    ensures count ==
      Min(Min(len, src.size - old(src.head)), dest.size - 1 - |old(dest.Contents())|) <= |old(src.Contents())|
    ensures dest.Contents() == old(dest.Contents()) + old(src.Contents())[..count]
    ensures full <==> count < Min(len, src.size - old(src.head))
  {
    hide Content, Wrap, Count, RingSize, Cell;
    CountAt(src.size, src.head, src.tail);
    CellSmall(src.head, src.size);
    ghost var c := src.Contents();
    var chunk := Min(src.size - src.head, len);
    count, head := SendRun(dest, src, src.head, chunk, peek, src.head, 0);
    assert c[0..count] == c[..count];
    full := count < chunk;
  }

  /** The part of queue_to_queue up to the tail. */
  method SendLower(dest: Queue, src: Queue, head: nat, left: nat, peek: bool, ghost from: nat, ghost moved: nat,
                   ghost d: seq<byte>) returns (ret: nat)
    requires dest.Valid() && src.Valid() && dest != src && dest.buf != src.buf && from < src.size
      && moved <= Count(src.size, from, src.tail)
    requires head == Cell(from + moved, src.size) && head <= src.tail && src.head == if peek then from else head
    requires src.tail - head == Count(src.size, from, src.tail) - moved
      && dest.Contents() == d + Content(src.buf[..], from, src.tail)[..moved]
    modifies dest.buf, dest`tail, src`head
    ensures dest.Valid() && src.Valid() && src.head == if peek then from else Cell(from + moved + ret, src.size)
    ensures ret == Min(Min(left, src.tail - head), dest.size - 1 - |old(dest.Contents())|)
      && moved + ret <= Count(src.size, from, src.tail)
    ensures dest.Contents() == d + Content(src.buf[..], from, src.tail)[..moved + ret]
  {
    hide Content, Wrap, Count, RingSize, Cell;
    ghost var d1 := dest.Contents();
    var chunk := Min(src.tail - head, left);
    var head';
    ret, head' := SendRun(dest, src, head, chunk, peek, from, moved);
    AppendStep(d, Content(src.buf[..], from, src.tail), d1, dest.Contents(), moved, ret);
  }

  /** queue_to_queue, without blocking. */
  method QueueToQueue(dest: Queue, src: Queue, len: nat, peek: bool) returns (count: nat)
    requires dest.Valid() && src.Valid() && dest != src && dest.buf != src.buf
    modifies dest.buf, dest`tail, src`head
    ensures dest.Valid() && src.Valid()
    ensures count == Min(len, Min(|old(src.Contents())|, dest.size - 1 - |old(dest.Contents())|))
    ensures dest.Contents() == old(dest.Contents()) + old(src.Contents())[..count]
    ensures src.Contents() == if peek then old(src.Contents()) else old(src.Contents())[count..]
    ensures !peek ==> dest.Contents() + src.Contents() == old(dest.Contents()) + old(src.Contents())
  {
    hide Content, Wrap, Count, RingSize, Cell;
    ghost var c, d, from := src.Contents(), dest.Contents(), src.head;
    var head, tail := src.head, src.tail;
    var full := false;
    count := 0;
    SpaceLeft(src.size, head, tail);
    CountAt(src.size, head, tail);
    CellSmall(from, src.size);
    if head != tail {
      if tail < head { count, head, full := SendUpper(dest, src, len, peek); }
      CellSmall(from + count, src.size);
      if !full && len > count {
        var ret := SendLower(dest, src, head, len - count, peek, from, count, d);
        count := count + ret;
      }
    }
    Transferred(src.size, src.buf[..], from, tail, peek, src.head, count, d, dest.Contents());
  }

  /** One half of queue_to_chardev. */
  method TransmitRun(src: Queue, head: nat, chunk: nat, peek: bool, ghost from: nat, ghost moved: nat)
    returns (sent: seq<byte>, head': nat)
    requires src.Valid() && from < src.size
    requires head == Cell(from + moved, src.size) && head + chunk <= src.size
      && moved + chunk <= Count(src.size, from, src.tail)
    requires src.head == if peek then from else head
    modifies src`head
    ensures src.Valid() && sent == Content(src.buf[..], from, src.tail)[moved..moved + chunk]
    ensures head' == Cell(from + moved + chunk, src.size) && src.head == if peek then from else head'
  {
    hide Content, Wrap, Count, RingSize, Cell;
    RunIsSlice(src.buf[..], from, src.tail, moved, chunk, head);
    sent := src.buf[head..head + chunk];
    WrapIsCell(src.size, head + chunk);
    CellAdd(from + moved, chunk, src.size);
    head' := Wrap(src.size, head + chunk);
    if !peek { src.head := head'; }
  }

  /** queue_to_chardev: what the device is asked to transmit. */
  method QueueToChardev(src: Queue, len: nat, peek: bool) returns (count: nat, sent: seq<byte>)
    requires src.Valid()
    modifies src`head
    ensures src.Valid() && count == Min(len, |old(src.Contents())|) && sent == old(src.Contents())[..count]
    ensures src.Contents() == if peek then old(src.Contents()) else old(src.Contents())[count..]
  {
    hide Content, Wrap, Count, RingSize, Cell;
    ghost var c, from := src.Contents(), src.head;
    var head, tail, left := src.head, src.tail, len;
    count, sent := 0, [];
    SpaceLeft(src.size, head, tail);
    CountAt(src.size, head, tail);
    if head != tail {
      if tail < head {
        var chunk := src.size - head;
        if chunk > left { chunk := left; }
        CellSmall(head, src.size);
        sent, head := TransmitRun(src, head, chunk, peek, from, 0);
        CellSmall(from + chunk, src.size);
        left := left - chunk;
        count := chunk;
      }
      if left > 0 {
        var chunk := tail - head;
        if chunk > left { chunk := left; }
        CellSmall(from + count, src.size);
        var more;
        more, head := TransmitRun(src, head, chunk, peek, from, count);
        SliceStep(c, count, chunk, chunk);
        sent := sent + more;
        left := left - chunk;
        count := count + chunk;
      }
    }
    CellSmall(from, src.size);
    Transferred(src.size, src.buf[..], from, tail, peek, src.head, count, [], sent);
  }
}
