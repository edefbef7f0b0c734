/** One producer and one consumer on a queue, a step at a time: each loads the other's index once, moves
    bytes one by one, and publishes its own index.  Any interleaving of the two is a run. */
module QueueSteps {
  import opened BinMaps
  import opened Bytes
  import opened RingIndex

  datatype Producer =
    | Resting
    | Writing(data: seq<byte>, done: nat)

  datatype Consumer =
    | Waiting
    | Reading(want: nat, got: seq<byte>, peek: bool)
    | Skipping(count: nat)

  /** The shared words, what each side is in the middle of, and the bytes published and consumed so far. */
  datatype State = State(buf: seq<byte>, head: nat, tail: nat, producer: Producer, consumer: Consumer,
                         produced: seq<byte>, consumed: seq<byte>)

  datatype Step =
    | LoadHead(data: seq<byte>)
    | StoreByte
    | PublishTail
    | LoadTail(len: nat, peek: bool)
    | LoadTailToSkip(len: nat)
    | FetchByte
    | PublishHead

  function Min(a: nat, b: nat): nat { if a < b then a else b }

  predicate Enabled(s: State, step: Step) {
    && |s.buf| > 0 && s.tail < |s.buf| && s.head < |s.buf|
    && match step
       case LoadHead(data) => s.producer.Resting?
       case StoreByte => s.producer.Writing? && s.producer.done < |s.producer.data|
       case PublishTail => s.producer.Writing? && s.producer.done == |s.producer.data|
       case LoadTail(len, peek) => s.consumer.Waiting?
       case LoadTailToSkip(len) => s.consumer.Waiting?
       case FetchByte => s.consumer.Reading? && |s.consumer.got| < s.consumer.want
       case PublishHead => s.consumer.Skipping? || (s.consumer.Reading? && |s.consumer.got| == s.consumer.want)
  }

  /** The cell a side touches in its next step on the buffer. */
  function StoreCell(s: State): nat
    requires Enabled(s, StoreByte)
  {
    Wrap(|s.buf|, s.tail + s.producer.done)
  }

  function FetchCell(s: State): nat
    requires Enabled(s, FetchByte)
  {
    Wrap(|s.buf|, s.head + |s.consumer.got|)
  }

  /** queue_write, queue_writechar: space, copy, publish.  queue_read, queue_readchar, queue_discard: the same from
      the other end. */
  ghost function Next(s: State, step: Step): State
    requires Enabled(s, step) && RingSize(|s.buf|)
  {
    WrapBelow(|s.buf|);
    match step
    case LoadHead(data) =>
      var space := Wrap(|s.buf|, s.head - s.tail - 1);
      s.(producer := Writing(data[..Min(space, |data|)], 0))
    case StoreByte =>
      s.(buf := s.buf[StoreCell(s) := s.producer.data[s.producer.done]],
        producer := s.producer.(done := s.producer.done + 1))
    case PublishTail =>
      s.(tail := Wrap(|s.buf|, s.tail + |s.producer.data|), producer := Resting,
        produced := s.produced + s.producer.data)
    case LoadTail(len, peek) =>
      s.(consumer := Reading(Min(Wrap(|s.buf|, s.tail - s.head), len), [], peek))
    case LoadTailToSkip(len) =>
      s.(consumer := Skipping(Min(Wrap(|s.buf|, s.tail - s.head), len)))
    case FetchByte =>
      s.(consumer := s.consumer.(got := s.consumer.got + [s.buf[FetchCell(s)]]))
    case PublishHead =>
      if s.consumer.Reading? && s.consumer.peek then
        s.(consumer := Waiting)
      else
        var count := if s.consumer.Skipping? then s.consumer.count else s.consumer.want;
        s.(head := Wrap(|s.buf|, s.head + count), consumer := Waiting, consumed := s.consumed + Taken(s, count))
  }

  lemma WrapBelow(size: nat)
    requires RingSize(size)
    ensures size > 0 && forall i {:trigger Wrap(size, i)} :: Wrap(size, i) < size
  {
    WrapMeans(size, 0);
    forall i { WrapMeans(size, i); }
  }

  /** The bytes a published read takes; a skip takes what lies in the ring without looking. */
  ghost function Taken(s: State, count: nat): seq<byte> {
    if s.consumer.Reading? then s.consumer.got
    else if |s.consumed| + count <= |s.produced| then s.produced[|s.consumed|..|s.consumed| + count]
    else []
  }

  /** The ring holds exactly what is published and not yet consumed. */
  ghost predicate RingHolds(s: State) {
    && RingSize(|s.buf|)
    && |s.consumed| <= |s.produced| <= |s.consumed| + |s.buf| - 1
    && s.consumed == s.produced[..|s.consumed|]
    && s.head == |s.consumed| % |s.buf| && s.tail == |s.produced| % |s.buf|
    && forall j {:trigger s.produced[j]} :: |s.consumed| <= j < |s.produced| ==> s.buf[j % |s.buf|] == s.produced[j]
  }

  /** A write in progress fits, and what it has stored so far lies behind the tail. */
  ghost predicate ProducerOk(s: State) {
    |s.buf| > 0 && s.producer.Writing? ==>
      var data := s.producer.data;
      && s.producer.done <= |data| && |s.produced| + |data| <= |s.consumed| + |s.buf| - 1
      && forall j {:trigger data[j]} :: 0 <= j < s.producer.done ==> s.buf[(|s.produced| + j) % |s.buf|] == data[j]
  }

  /** A read in progress has fetched a prefix of what is in the ring. */
  ghost predicate ConsumerOk(s: State) {
    match s.consumer
    case Waiting => true
    case Reading(want, got, peek) =>
      |s.consumed| + want <= |s.produced| && |got| <= want && got == s.produced[|s.consumed|..|s.consumed| + |got|]
    case Skipping(count) => |s.consumed| + count <= |s.produced|
  }

  ghost predicate Inv(s: State) {
    RingHolds(s) && ProducerOk(s) && ConsumerOk(s)
  }

  // ---- the indices loaded ----

  /** The loaded indices give the exact free space and the exact number of bytes. */
  lemma SpaceAndAvail(s: State)
    requires RingHolds(s)
    ensures |s.buf| > 0 && Wrap(|s.buf|, s.head - s.tail - 1) == |s.consumed| + |s.buf| - 1 - |s.produced|
    ensures Wrap(|s.buf|, s.tail - s.head) == |s.produced| - |s.consumed|
  {
    hide Wrap, RingSize;
    var n, h, t := |s.buf|, |s.consumed|, |s.produced|;
    WrapMeans(n, s.head - s.tail - 1);
    WrapMeans(n, s.tail - s.head);
    ModSub(h, t, -1, n);
    ModSub(t, h, 0, n);
    ModSmall(h - t - 1, n);
    ModSmall(t - h, n);
  }

  /** Where the two sides are working, in unwrapped positions. */
  lemma CellsAre(s: State)
    requires RingHolds(s)
    ensures |s.buf| > 0
    ensures Enabled(s, StoreByte) ==> StoreCell(s) == (|s.produced| + s.producer.done) % |s.buf|
    ensures Enabled(s, FetchByte) ==> FetchCell(s) == (|s.consumed| + |s.consumer.got|) % |s.buf|
  {
    hide Wrap, RingSize;
    var n := |s.buf|;
    WrapMeans(n, 0);
    if Enabled(s, StoreByte) {
      WrapMeans(n, s.tail + s.producer.done);
      ModAdd(|s.produced|, s.producer.done, n);
    }
    if Enabled(s, FetchByte) {
      WrapMeans(n, s.head + |s.consumer.got|);
      ModAdd(|s.consumed|, |s.consumer.got|, n);
    }
  }

  // ---- each step keeps the invariant ----

  lemma LoadHeadKeeps(s: State, data: seq<byte>)
    requires Inv(s) && Enabled(s, LoadHead(data))
    ensures Inv(Next(s, LoadHead(data)))
  {
    hide Wrap, RingSize;
    SpaceAndAvail(s);
  }

  lemma StoreKeeps(s: State)
    requires Inv(s) && Enabled(s, StoreByte)
    ensures Inv(Next(s, StoreByte))
  {
    hide Wrap, RingSize;
    var n, t, i := |s.buf|, |s.produced|, s.producer.done;
    CellsAre(s);
    WrapMeans(n, 0);
    var c := (t + i) % n;
    assert 0 <= c < n;
    forall j {:trigger s.produced[j]} | |s.consumed| <= j < t ensures j % n != c { CellsDiffer(j, t + i, n); }
    var data := s.producer.data;
    forall j {:trigger data[j]} | 0 <= j < i ensures (t + j) % n != c { CellsDiffer(t + j, t + i, n); }
  }

  lemma PublishTailKeeps(s: State)
    requires Inv(s) && Enabled(s, PublishTail)
    ensures Inv(Next(s, PublishTail))
  {
    hide Wrap, RingSize;
    var n, t, data := |s.buf|, |s.produced|, s.producer.data;
    WrapMeans(n, s.tail + |data|);
    ModAdd(t, |data|, n);
    var s' := Next(s, PublishTail);
    assert s'.produced[..|s.consumed|] == s.produced[..|s.consumed|];
    forall j {:trigger s'.produced[j]} | |s.consumed| <= j < |s'.produced| ensures s.buf[j % n] == s'.produced[j] {
      if j >= t { assert s'.produced[j] == data[j - t]; }
    }
  }

  lemma LoadTailKeeps(s: State, step: Step)
    requires Inv(s) && (step.LoadTail? || step.LoadTailToSkip?) && Enabled(s, step)
    ensures Inv(Next(s, step))
  {
    hide Wrap, RingSize;
    SpaceAndAvail(s);
  }

  lemma FetchKeeps(s: State)
    requires Inv(s) && Enabled(s, FetchByte)
    ensures Inv(Next(s, FetchByte))
  {
    hide Wrap, RingSize;
    CellsAre(s);
    WrapMeans(|s.buf|, 0);
    var h, got := |s.consumed|, s.consumer.got;
    assert s.buf[(h + |got|) % |s.buf|] == s.produced[h + |got|];
    assert s.produced[h..h + |got| + 1] == s.produced[h..h + |got|] + [s.produced[h + |got|]];
  }

  lemma PublishHeadKeeps(s: State)
    requires Inv(s) && Enabled(s, PublishHead)
    ensures Inv(Next(s, PublishHead))
  {
    hide Wrap, RingSize;
    if !(s.consumer.Reading? && s.consumer.peek) {
      var count := if s.consumer.Skipping? then s.consumer.count else s.consumer.want;
      var n, h := |s.buf|, |s.consumed|;
      WrapMeans(n, s.head + count);
      ModAdd(h, count, n);
      assert Taken(s, count) == s.produced[h..h + count];
      assert s.produced[..h] + s.produced[h..h + count] == s.produced[..h + count];
    }
  }

  lemma StepKeeps(s: State, step: Step)
    requires Inv(s) && Enabled(s, step)
    ensures Inv(Next(s, step))
  {
    hide Next, Inv;
    match step
    case LoadHead(data) => LoadHeadKeeps(s, data);
    case StoreByte => StoreKeeps(s);
    case PublishTail => PublishTailKeeps(s);
    case LoadTail(_, _) => LoadTailKeeps(s, step);
    case LoadTailToSkip(_) => LoadTailKeeps(s, step);
    case FetchByte => FetchKeeps(s);
    case PublishHead => PublishHeadKeeps(s);
  }

  // ---- whole runs ----

  ghost predicate CanStep(s: State, step: Step) {
    RingSize(|s.buf|) && Enabled(s, step)
  }

  ghost predicate Start(s: State) {
    RingSize(|s.buf|) && s.head == 0 && s.tail == 0 && s.producer.Resting? && s.consumer.Waiting? && s.produced == []
      && s.consumed == []
  }

  /** The state after any sequence of steps of the two sides; a step that is not enabled is not taken. */
  ghost function After(s: State, steps: seq<Step>): State
    decreases |steps|
  {
    if steps == [] then s
    else After(if CanStep(s, steps[0]) then Next(s, steps[0]) else s, steps[1..])
  }

  lemma {:induction false} RunKeeps(s: State, steps: seq<Step>)
    requires Inv(s)
    ensures Inv(After(s, steps))
    decreases |steps|
  {
    hide Inv, Next, CanStep;
    if steps != [] {
      if CanStep(s, steps[0]) {
        InvRing(s);
        Ready(s, steps[0]);
        StepKeeps(s, steps[0]);
        RunKeeps(Next(s, steps[0]), steps[1..]);
      } else {
        RunKeeps(s, steps[1..]);
      }
    }
  }

  lemma Ready(s: State, step: Step)
    requires CanStep(s, step)
    ensures Enabled(s, step) && RingSize(|s.buf|)
  {
  }

  lemma InvRing(s: State)
    requires Inv(s)
    ensures RingSize(|s.buf|)
  {
  }

  lemma StartHolds(s: State)
    requires Start(s)
    ensures Inv(s)
  {
    WrapMeans(|s.buf|, 0);
    ModSmall(0, |s.buf|);
  }

  /** What lies between head and tail is what has been produced and not yet consumed. */
  lemma ContentIs(s: State)
    requires RingHolds(s)
    ensures |s.buf| > 0 && s.produced == s.consumed + Content(s.buf, s.head, s.tail)
  {
    hide Wrap, RingSize;
    var n, h, t := |s.buf|, |s.consumed|, |s.produced|;
    WrapMeans(n, 0);
    ModSub(t, h, 0, n);
    ModSmall(t - h, n);
    var c := Content(s.buf, s.head, s.tail);
    forall i | 0 <= i < |c| ensures c[i] == s.produced[h + i] { ModAdd(h, i, n); }
    assert s.produced == s.produced[..h] + s.produced[h..];
    assert c == s.produced[h..];
  }

  /** In every interleaving the bytes consumed are a prefix of the bytes produced, the rest is in the
      ring, and the ring never holds more than its size less one. */
  lemma InOrderAlways(s: State, steps: seq<Step>)
    requires Start(s)
    ensures var s' := After(s, steps);
      |s'.buf| > 0 && s'.produced == s'.consumed + Content(s'.buf, s'.head, s'.tail)
        && |s'.produced| - |s'.consumed| < |s'.buf|
  {
    hide Content, RingSize, Next, CanStep;
    StartHolds(s);
    RunKeeps(s, steps);
    ContentIs(After(s, steps));
  }

  /** A head or tail loaded earlier only under-reports: what was planned still fits and is still there. */
  lemma StaleIsSafe(s: State, steps: seq<Step>)
    requires Start(s)
    ensures |After(s, steps).buf| > 0
    ensures var s' := After(s, steps);
      s'.producer.Writing? ==> |s'.producer.data| <= Wrap(|s'.buf|, s'.head - s'.tail - 1)
    ensures var s' := After(s, steps); s'.consumer.Reading? ==> s'.consumer.want <= Wrap(|s'.buf|, s'.tail - s'.head)
  {
    hide RingSize, Next, CanStep, Wrap;
    StartHolds(s);
    RunKeeps(s, steps);
    SpaceAndAvail(After(s, steps));
  }

  /** The cell the producer stores to is none of those the consumer may still read. */
  lemma NeverSameCell(s: State, steps: seq<Step>, j: nat)
    requires Start(s) && Enabled(After(s, steps), StoreByte)
    requires var s' := After(s, steps); |s'.consumed| <= j < |s'.produced|
    ensures var s' := After(s, steps); StoreCell(s') != j % |s'.buf|
    ensures var s' := After(s, steps); Enabled(s', FetchByte) ==> StoreCell(s') != FetchCell(s')
  {
    hide RingSize, Next, CanStep, Wrap;
    StartHolds(s);
    RunKeeps(s, steps);
    var s' := After(s, steps);
    CellsAre(s');
    CellsDiffer(j, |s'.produced| + s'.producer.done, |s'.buf|);
    if Enabled(s',
      FetchByte) { CellsDiffer(|s'.consumed| + |s'.consumer.got|, |s'.produced| + s'.producer.done, |s'.buf|); }
  }
}
