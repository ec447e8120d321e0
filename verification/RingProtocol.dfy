/**
 Producer and consumer over one ring, in interleaved steps: each works from its own
 index and a copy, possibly stale, of the other's; bytes move one at a time.
 */
module RingProtocol {
  import opened Words
  import opened Ring

  /** A frame: its bytes, the member it is for, and whether it must reach the wire. */
  datatype Frame = Frame(bytes: Bytes, member: Option<nat>, uplink: bool)

  predicate Sendable(f: Frame) {
    0 < |f.bytes| < LENGTHS && (f.member.Some? ==> f.member.value <= 14)
  }

  /** The frames that may be sent are those with a byte whose prefix says what was meant. */
  lemma SendableExactly(f: Frame)
    requires f.member.Some? ==> f.member.value < 256
    ensures Sendable(f) <==> f.bytes != [] && Marked(Mark(|f.bytes|, f.member, f.uplink)) == (|f.bytes|, f.member, f.uplink)
  {
    hide Mark, Marked;
    MarkReadsBack(|f.bytes|, f.member, f.uplink);
  }

  /** A frame as it crosses: length prefix, then the bytes. */
  function Encoded(f: Frame): (x: Bytes)
    ensures |x| == PREFIX + |f.bytes|
  {
    ToLe(Mark(|f.bytes|, f.member, f.uplink), PREFIX) + f.bytes
  }

  /** Every byte ever put in, in order. */
  function Stream(frames: seq<Frame>): Bytes {
    if frames == [] then [] else Stream(frames[..|frames| - 1]) + Encoded(frames[|frames| - 1])
  }

  datatype Producer =
    | Ready
    | Writing(frame: Frame, place: Framed, done: nat)

  datatype Consumer =
    | Waiting
    | Measuring(runs: (Run, Run), got: Bytes)
    | Reading(prefix: nat, place: Framed, got: Bytes)

  /** `mem` is the data area; `head` and `tail` are the published indices; `seenTail` and `seenHead` the copies. */
  datatype State = State(
    capacity: nat, mem: Bytes,
    head: nat, seenTail: nat, producer: Producer, sent: seq<Frame>,
    tail: nat, seenHead: nat, consumer: Consumer, received: seq<Frame>)

  datatype Step =
    | LookAtTail | Begin(frame: Frame) | WriteByte | Publish
    | LookAtHead | Measure | ReadPrefixByte | Decide | ReadByte | Release

  ghost predicate Start(s: State) {
    && 0 < s.capacity < U64 && |s.mem| == s.capacity
    && s.head == s.seenTail == s.tail == s.seenHead == 0
    && s.producer == Ready && s.consumer == Waiting && s.sent == s.received == []
  }

  /** Where byte `k` of a frame and its prefix goes, by the runs the frame was given. */
  function FrameByte(place: Framed, k: nat): nat
    requires place.prefix.0.length + place.prefix.1.length == PREFIX
    requires k < PREFIX + place.payload.0.length + place.payload.1.length
  {
    if k < PREFIX then Place(place.prefix, k) else Place(place.payload, k - PREFIX)
  }

  /** What the producer knows and what the consumer knows, as cursors. */
  function ProducerView(s: State): Cursor { Cursor(s.head, s.seenTail, s.capacity) }
  function ConsumerView(s: State): Cursor { Cursor(s.seenHead, s.tail, s.capacity) }

  ghost predicate InData(s: State, offset: nat) {
    DATA_OFFSET <= offset < DATA_OFFSET + s.capacity == DATA_OFFSET + |s.mem|
  }

  /** One step of either side; `s'` is what it leaves. */
  ghost predicate Next(s: State, step: Step, s': State) {
    match step
    case LookAtTail => s' == s.(seenTail := s.tail)
    case Begin(frame) =>
      && s.producer == Ready && Sendable(frame) && Believable(ProducerView(s))
      && s.head + PREFIX + |frame.bytes| < U64
      && var place := FrameToWrite(ProducerView(s), |frame.bytes|);
      && place.Some? && s' == s.(producer := Writing(frame, place.value, 0))
    case WriteByte =>
      && s.producer.Writing? && s.producer.done < |Encoded(s.producer.frame)|
      && Sized(s.producer.place, |s.producer.frame.bytes|)
      && var at := FrameByte(s.producer.place, s.producer.done);
      && InData(s, at)
      && s' == s.(mem := s.mem[at - DATA_OFFSET := Encoded(s.producer.frame)[s.producer.done]],
                  producer := s.producer.(done := s.producer.done + 1))
    case Publish =>
      && s.producer.Writing? && s.producer.done == |Encoded(s.producer.frame)|
      && s' == s.(head := s.producer.place.next, sent := s.sent + [s.producer.frame], producer := Ready)
    case LookAtHead => s' == s.(seenHead := s.head)
    case Measure =>
      && s.consumer == Waiting && Believable(ConsumerView(s))
      && var runs := LengthToRead(ConsumerView(s));
      && runs.Some? && s' == s.(consumer := Measuring(runs.value, []))
    case ReadPrefixByte =>
      && s.consumer.Measuring? && |s.consumer.got| < PREFIX
      && s.consumer.runs.0.length + s.consumer.runs.1.length == PREFIX
      && var at := Place(s.consumer.runs, |s.consumer.got|);
      && InData(s, at)
      && s' == s.(consumer := Measuring(s.consumer.runs, s.consumer.got + [s.mem[at - DATA_OFFSET]]))
    case Decide =>
      && s.consumer.Measuring? && |s.consumer.got| == PREFIX && Believable(ConsumerView(s))
      && var prefix := FromLe(s.consumer.got);
      && s.tail + PREFIX + Marked(prefix).0 < U64
      && var place := FrameToRead(ConsumerView(s), Marked(prefix).0);
      && s' == s.(consumer := if place.Some? then Reading(prefix, place.value, []) else Waiting)
    case ReadByte =>
      && s.consumer.Reading? && |s.consumer.got| < Marked(s.consumer.prefix).0
      && Sized(s.consumer.place, Marked(s.consumer.prefix).0)
      && var at := FrameByte(s.consumer.place, PREFIX + |s.consumer.got|);
      && InData(s, at)
      && s' == s.(consumer := Reading(s.consumer.prefix, s.consumer.place, s.consumer.got + [s.mem[at - DATA_OFFSET]]))
    case Release =>
      && s.consumer.Reading? && |s.consumer.got| == Marked(s.consumer.prefix).0
      && var (_, member, uplink) := Marked(s.consumer.prefix);
      && s' == s.(tail := s.consumer.place.next, consumer := Waiting,
                  received := s.received + [Frame(s.consumer.got, member, uplink)])
  }

  predicate Sized(place: Framed, length: nat) {
    && place.prefix.0.length + place.prefix.1.length == PREFIX
    && place.payload.0.length + place.payload.1.length == length
  }

  // ----- what every step keeps

  /** What has been written of the frame in hand, after everything published. */
  ghost function Filled(s: State): Bytes {
    if s.producer.Writing? && s.producer.done <= |Encoded(s.producer.frame)|
    then Stream(s.sent) + Encoded(s.producer.frame)[..s.producer.done] else Stream(s.sent)
  }

  /** An index at which some frame ends. */
  ghost predicate Boundary(frames: seq<Frame>, at: nat) {
    exists j | 0 <= j <= |frames| :: |Stream(frames[..j])| == at
  }

  ghost predicate Ordered(s: State) {
    && 0 < s.capacity < U64 && |s.mem| == s.capacity
    && s.seenTail <= s.tail <= s.seenHead <= s.head < U64
    && s.head - s.seenTail <= s.capacity
    && s.head == |Stream(s.sent)| && s.tail == |Stream(s.received)|
    && Boundary(s.sent, s.seenHead)
    && s.received <= s.sent && forall i | 0 <= i < |s.sent| :: Sendable(s.sent[i])
  }

  ghost predicate ProducerOk(s: State)
    requires Ordered(s)
  {
    s.producer.Writing? ==>
      var f, length := s.producer.frame, |s.producer.frame.bytes|;
      && Sendable(f) && s.producer.done <= |Encoded(f)|
      && s.head + PREFIX + length < U64
      && PREFIX + length <= s.capacity - (s.head - s.seenTail)
      && s.producer.place == Framed(RunsFrom(s.capacity, s.head, PREFIX), RunsFrom(s.capacity, s.head + PREFIX, length), s.head + PREFIX + length)
  }

  ghost predicate ConsumerOk(s: State)
    requires Ordered(s)
  {
    match s.consumer
    case Waiting => true
    case Measuring(runs, got) =>
      && runs == RunsFrom(s.capacity, s.tail, PREFIX) && s.tail + PREFIX <= s.seenHead
      && |got| <= PREFIX && got == Stream(s.sent)[s.tail..s.tail + |got|]
    case Reading(prefix, place, got) =>
      var length := Marked(prefix).0;
      && 0 < length && s.tail + PREFIX + length <= s.seenHead && |got| <= length
      && prefix == FromLe(Stream(s.sent)[s.tail..s.tail + PREFIX])
      && got == Stream(s.sent)[s.tail + PREFIX..s.tail + PREFIX + |got|]
      && place == Framed(RunsFrom(s.capacity, s.tail, PREFIX), RunsFrom(s.capacity, s.tail + PREFIX, length), s.tail + PREFIX + length)
  }

  /** The unread bytes, and those written but not yet published, are where their indices say. */
  ghost predicate Held(s: State)
    requires 0 < s.capacity == |s.mem|
  {
    forall k | s.tail <= k < |Filled(s)| :: s.mem[k % s.capacity] == Filled(s)[k]
  }

  ghost predicate Inv(s: State) {
    Ordered(s) && ProducerOk(s) && ConsumerOk(s) && Held(s)
  }

  lemma StartKeeps(s: State)
    requires Start(s)
    ensures Inv(s)
  {
    assert s.sent[..0] == [] && |Stream(s.sent[..0])| == 0;
  }

  lemma FilledSize(s: State)
    requires Ordered(s) && ProducerOk(s)
    ensures s.head <= |Filled(s)| <= s.seenTail + s.capacity
    ensures Filled(s)[..s.head] == Stream(s.sent)
  {
  }

  /** The byte about to be written is not one still to be read. */
  lemma WriteIsFree(s: State)
    requires Inv(s) && s.producer.Writing? && s.producer.done < |Encoded(s.producer.frame)|
    ensures Sized(s.producer.place, |s.producer.frame.bytes|)
    ensures FrameByte(s.producer.place, s.producer.done) == OffsetOf(s.capacity, s.head + s.producer.done)
    ensures forall k | s.tail <= k < s.head + s.producer.done ::
              OffsetOf(s.capacity, k) != FrameByte(s.producer.place, s.producer.done)
  {
    hide Held, ConsumerOk;
    var done, length := s.producer.done, |s.producer.frame.bytes|;
    RunsAreTheTransfer(s.capacity, s.head, PREFIX, done);
    RunsAreTheTransfer(s.capacity, s.head + PREFIX, length, if done < PREFIX then 0 else done - PREFIX);
    forall k | s.tail <= k < s.head + done
      ensures OffsetOf(s.capacity, k) != OffsetOf(s.capacity, s.head + done)
    {
      Apart(s.capacity, k, s.head + done);
    }
  }

  // ----- one lemma per step

  lemma LookTailKeeps(s: State)
    requires Inv(s)
    ensures Inv(s.(seenTail := s.tail))
  {
    hide Held, Stream, Boundary;
    HeldSame(s, s.(seenTail := s.tail));
  }

  lemma LookHeadKeeps(s: State)
    requires Inv(s)
    ensures Inv(s.(seenHead := s.head))
  {
    hide Held, Stream, Encoded;
    assert s.sent[..|s.sent|] == s.sent;
    HeldSame(s, s.(seenHead := s.head));
  }

  lemma HeldSame(s: State, s': State)
    requires 0 < s.capacity == |s.mem| && 0 < s'.capacity == |s'.mem| && Held(s)
    requires s'.mem == s.mem && s'.tail >= s.tail && s'.capacity == s.capacity && Filled(s') == Filled(s)
    ensures Held(s')
  {
  }

  lemma BeginKeeps(s: State, f: Frame, s': State)
    requires Inv(s) && Next(s, Begin(f), s')
    ensures Inv(s')
  {
    hide Held, Stream, Encoded;
    WriteFits(ProducerView(s), |f.bytes|);
    assert Encoded(f)[..0] == [];
    assert Filled(s') == Filled(s);
    HeldSame(s, s');
  }

  lemma WriteKeeps(s: State, s': State)
    requires Inv(s) && Next(s, WriteByte, s')
    ensures Inv(s')
  {
    hide Stream;
    WriteIsFree(s);
    var done, x := s.producer.done, Encoded(s.producer.frame);
    assert x[..done + 1] == x[..done] + [x[done]];
    assert Filled(s') == Filled(s) + [x[done]];
    forall k | s'.tail <= k < |Filled(s')|
      ensures s'.mem[k % s.capacity] == Filled(s')[k]
    {
      if k < |Filled(s)| {
        assert OffsetOf(s.capacity, k) != OffsetOf(s.capacity, s.head + done);
      }
    }
  }

  lemma PublishKeeps(s: State, s': State)
    requires Inv(s) && Next(s, Publish, s')
    ensures Inv(s')
  {
    hide Held, Encoded, Boundary, Stream;
    var x := Encoded(s.producer.frame);
    assert x[..|x|] == x;
    StreamGrows(s.sent, s.producer.frame);
    assert Filled(s') == Filled(s);
    HeldSame(s, s');
    PrefixSlices(Stream(s.sent), Stream(s'.sent));
    BoundaryStays(s.sent, s.producer.frame, s.seenHead);
  }

  lemma StreamGrows(frames: seq<Frame>, f: Frame)
    ensures Stream(frames + [f]) == Stream(frames) + Encoded(f)
  {
    assert (frames + [f])[..|frames|] == frames;
  }

  lemma BoundaryStays(frames: seq<Frame>, f: Frame, at: nat)
    requires Boundary(frames, at)
    ensures Boundary(frames + [f], at)
  {
    hide Stream;
    var j :| 0 <= j <= |frames| && |Stream(frames[..j])| == at;
    assert (frames + [f])[..j] == frames[..j];
  }

  lemma PrefixSlices(a: Bytes, b: Bytes)
    requires a <= b
    ensures forall i, j | 0 <= i <= j <= |a| :: b[i..j] == a[i..j]
  {
    forall i, j | 0 <= i <= j <= |a|
      ensures b[i..j] == a[i..j]
    {
      assert b[i..j] == b[..|a|][i..j];
    }
  }

  /** A step that changes only what the consumer has in hand keeps everything else. */
  lemma ConsumerOnly(s: State, c: Consumer)
    requires Inv(s)
    ensures var s' := s.(consumer := c); Ordered(s') && ProducerOk(s') && Held(s')
  {
    hide Held, Stream, Boundary, Encoded, RunsFrom;
    var s' := s.(consumer := c);
    assert Filled(s') == Filled(s);
    HeldSame(s, s');
  }

  lemma MeasureKeeps(s: State, s': State)
    requires Inv(s) && Next(s, Measure, s')
    ensures Inv(s')
  {
    hide Held, Stream, Boundary;
    ConsumerOnly(s, s'.consumer);
  }

  /** A byte read from the data area is the stream's byte at that index. */
  lemma ReadsStream(s: State, k: nat)
    requires Inv(s) && s.tail <= k < s.head
    ensures s.mem[k % s.capacity] == Stream(s.sent)[k]
  {
    hide Stream;
    FilledSize(s);
    assert Filled(s)[k] == Filled(s)[..s.head][k];
  }

  /** One more byte of a slice is the slice and that byte. */
  lemma SliceGrows(x: Bytes, from: nat, n: nat)
    requires from + n < |x|
    ensures x[from..from + n + 1] == x[from..from + n] + [x[from + n]]
  {
  }

  lemma ReadPrefixKeeps(s: State, s': State)
    requires Inv(s) && Next(s, ReadPrefixByte, s')
    ensures Inv(s')
  {
    hide Held, Stream, Boundary, Encoded, ProducerOk;
    var got := s.consumer.got;
    RunsAreTheTransfer(s.capacity, s.tail, PREFIX, |got|);
    ReadsStream(s, s.tail + |got|);
    ConsumerOnly(s, s'.consumer);
    SliceGrows(Stream(s.sent), s.tail, |got|);
    hide RunsFrom, Place, OffsetOf, Ordered;
  }

  lemma DecideKeeps(s: State, s': State)
    requires Inv(s) && Next(s, Decide, s')
    ensures Inv(s')
  {
    hide Held, Stream, Boundary, Encoded, ProducerOk;
    ReadFits(ConsumerView(s), Marked(FromLe(s.consumer.got)).0);
    ConsumerOnly(s, s'.consumer);
  }

  /** The byte a read takes is the next of the stream. */
  lemma ReadTakes(s: State, s': State)
    requires Inv(s) && Next(s, ReadByte, s')
    ensures var got := s.consumer.got;
            && s.tail + PREFIX + |got| < |Stream(s.sent)|
            && s' == s.(consumer := s.consumer.(got := got + [Stream(s.sent)[s.tail + PREFIX + |got|]]))
  {
    hide Held, Stream, Boundary, Encoded, ProducerOk, RunsFrom, Marked, FromLe, FrameByte, Place;
    var got, length := s.consumer.got, Marked(s.consumer.prefix).0;
    PayloadByte(s.capacity, s.tail, s.consumer.place, length, |got|);
    ReadsStream(s, s.tail + PREFIX + |got|);
  }

  /** Byte `k` of a frame's payload is where its index says. */
  lemma PayloadByte(capacity: nat, at: nat, place: Framed, length: nat, k: nat)
    requires 0 < capacity && PREFIX + length <= capacity && k < length && Sized(place, length)
    requires place.payload == RunsFrom(capacity, at + PREFIX, length)
    ensures FrameByte(place, PREFIX + k) == OffsetOf(capacity, at + PREFIX + k)
  {
    RunsAreTheTransfer(capacity, at + PREFIX, length, k);
  }

  lemma ReadKeeps(s: State, s': State)
    requires Inv(s) && Next(s, ReadByte, s')
    ensures Inv(s')
  {
    ReadTakes(s, s');
    hide Held, Stream, Boundary, Encoded, ProducerOk, RunsFrom, Marked, FromLe, Next;
    ConsumerOnly(s, s'.consumer);
    SliceGrows(Stream(s.sent), s.tail + PREFIX, |s.consumer.got|);
  }

  // ----- the frame at the tail

  /** Frame `i` is in the stream where the frames before it end. */
  lemma {:induction false} StreamAt(frames: seq<Frame>, i: nat)
    requires i < |frames|
    ensures var at := |Stream(frames[..i])|;
            && at + |Encoded(frames[i])| <= |Stream(frames)|
            && Stream(frames)[at..at + |Encoded(frames[i])|] == Encoded(frames[i])
    ensures |Stream(frames[..i + 1])| == |Stream(frames[..i])| + |Encoded(frames[i])|
  {
    hide Encoded;
    assert frames[..i + 1][..i] == frames[..i];
    var front := frames[..|frames| - 1];
    if i < |front| {
      StreamAt(front, i);
      assert front[..i] == frames[..i];
      PrefixSlices(Stream(front), Stream(frames));
    }
  }

  lemma {:induction false} StreamOrders(frames: seq<Frame>, i: nat, j: nat)
    requires i <= j <= |frames|
    ensures |Stream(frames[..i])| <= |Stream(frames[..j])|
    decreases j - i
  {
    if i < j {
      StreamAt(frames, i);
      StreamOrders(frames, i + 1, j);
    }
  }

  /** What the consumer is in front of is the first frame it has not received, and that frame is all there. */
  lemma NextFrame(s: State)
    requires Inv(s) && s.tail < s.seenHead
    ensures |s.received| < |s.sent|
    ensures var f := s.sent[|s.received|];
            && Sendable(f) && s.tail + |Encoded(f)| <= s.seenHead
            && Stream(s.sent)[s.tail..s.tail + |Encoded(f)|] == Encoded(f)
            && |Stream(s.received + [f])| == s.tail + |Encoded(f)|
            && s.received + [f] <= s.sent
  {
    hide Held, ConsumerOk, ProducerOk, Stream, Encoded;
    var n := |s.received|;
    assert s.sent[..n] == s.received;
    assert s.sent[..|s.sent|] == s.sent;
    var j :| 0 <= j <= |s.sent| && |Stream(s.sent[..j])| == s.seenHead;
    if j <= n {
      StreamOrders(s.sent, j, n);
    } else {
      StreamOrders(s.sent, n + 1, j);
      StreamAt(s.sent, n);
      assert s.sent[..n + 1] == s.received + [s.sent[n]];
    }
  }

  /** The prefix of an encoded frame says exactly what the frame is. */
  lemma PrefixSays(f: Frame)
    requires Sendable(f)
    ensures Encoded(f)[..PREFIX] == ToLe(Mark(|f.bytes|, f.member, f.uplink), PREFIX) && Encoded(f)[PREFIX..] == f.bytes
    ensures Marked(FromLe(Encoded(f)[..PREFIX])) == (|f.bytes|, f.member, f.uplink)
  {
    hide Mark, Marked, ToLe, FromLe, Span;
    Spans();
    LeRoundTrip(Mark(|f.bytes|, f.member, f.uplink), PREFIX);
    MarkReadsBack(|f.bytes|, f.member, f.uplink);
  }

  /** A frame whose length can be read can be read: the index never moves before the bytes. */
  lemma DecideReads(s: State, s': State)
    requires Inv(s) && Next(s, Decide, s')
    ensures s'.consumer.Reading?
  {
    hide Held, Stream, Encoded, Mark, Marked, FromLe;
    NextFrame(s);
    var f := s.sent[|s.received|];
    PrefixSays(f);
    PrefixIsSlice(Stream(s.sent), s.tail, Encoded(f));
    ReadFits(ConsumerView(s), |f.bytes|);
  }

  lemma PrefixIsSlice(stream: Bytes, at: nat, x: Bytes)
    requires at + |x| <= |stream| && stream[at..at + |x|] == x && PREFIX <= |x|
    ensures stream[at..at + PREFIX] == x[..PREFIX]
    ensures forall n | PREFIX <= n <= |x| :: stream[at + PREFIX..at + n] == x[PREFIX..n]
  {
    SliceOfSlice(stream, at, at + |x|, 0, PREFIX);
    forall n | PREFIX <= n <= |x|
      ensures stream[at + PREFIX..at + n] == x[PREFIX..n]
    {
      SliceOfSlice(stream, at, at + |x|, PREFIX, n);
    }
  }

  lemma SliceOfSlice(x: Bytes, i: nat, j: nat, a: nat, b: nat)
    requires i <= j <= |x| && a <= b <= j - i
    ensures x[i..j][a..b] == x[i + a..i + b]
  {
    var inner, outer := x[i..j][a..b], x[i + a..i + b];
    assert |inner| == |outer| && forall k | 0 <= k < |inner| :: inner[k] == outer[k];
  }

  lemma ReleaseKeeps(s: State, s': State)
    requires Inv(s) && Next(s, Release, s')
    ensures Inv(s')
    ensures s'.received == s.received + [s.sent[|s.received|]]
  {
    hide Held, Stream, Encoded, Mark, Marked, FromLe, Boundary;
    NextFrame(s);
    var f := s.sent[|s.received|];
    PrefixSays(f);
    PrefixIsSlice(Stream(s.sent), s.tail, Encoded(f));
    assert s.consumer.got == f.bytes;
    assert Filled(s') == Filled(s);
    HeldSame(s, s');
  }

  // ----- nothing goes out of range

  /** Both sides always believe their indices, and every byte they touch lies in the data area. */
  lemma StepsDefined(s: State)
    requires Inv(s)
    ensures Believable(ProducerView(s)) && Believable(ConsumerView(s))
    ensures s.producer.Writing? && s.producer.done < |Encoded(s.producer.frame)| ==>
              && Sized(s.producer.place, |s.producer.frame.bytes|)
              && InData(s, FrameByte(s.producer.place, s.producer.done))
    ensures s.consumer.Measuring? && |s.consumer.got| < PREFIX ==>
              && s.consumer.runs.0.length + s.consumer.runs.1.length == PREFIX
              && InData(s, Place(s.consumer.runs, |s.consumer.got|))
    ensures s.consumer.Measuring? && |s.consumer.got| == PREFIX ==> s.tail + PREFIX + Marked(FromLe(s.consumer.got)).0 < U64
    ensures s.consumer.Reading? && |s.consumer.got| < Marked(s.consumer.prefix).0 ==>
              && Sized(s.consumer.place, Marked(s.consumer.prefix).0)
              && InData(s, FrameByte(s.consumer.place, PREFIX + |s.consumer.got|))
  {
    hide Held, Stream, Encoded, Mark, Marked, FromLe;
    if s.producer.Writing? && s.producer.done < |Encoded(s.producer.frame)| {
      WriteIsFree(s);
    }
    match s.consumer
    case Waiting =>
    case Measuring(runs, got) =>
      RunsAreTheTransfer(s.capacity, s.tail, PREFIX, |got|);
      NextFrame(s);
      PrefixSays(s.sent[|s.received|]);
      PrefixIsSlice(Stream(s.sent), s.tail, Encoded(s.sent[|s.received|]));
    case Reading(prefix, place, got) =>
      RunsAreTheTransfer(s.capacity, s.tail, PREFIX, 0);
      RunsAreTheTransfer(s.capacity, s.tail + PREFIX, Marked(prefix).0, |got|);
  }

  // ----- whole runs

  /** Any step of either side keeps the invariant. */
  lemma StepKeeps(s: State, step: Step, s': State)
    requires Inv(s) && Next(s, step, s')
    ensures Inv(s')
    ensures s.sent <= s'.sent && s.received <= s'.received
  {
    hide Inv, Held, Stream, Encoded, FromLe;
    match step
    case LookAtTail => LookTailKeeps(s);
    case LookAtHead => LookHeadKeeps(s);
    case Begin(f) => BeginKeeps(s, f, s');
    case WriteByte => WriteKeeps(s, s');
    case Publish => PublishKeeps(s, s');
    case Measure => MeasureKeeps(s, s');
    case ReadPrefixByte => ReadPrefixKeeps(s, s');
    case Decide => DecideKeeps(s, s');
    case ReadByte => ReadKeeps(s, s');
    case Release => ReleaseKeeps(s, s');
  }

  ghost predicate Run(states: seq<State>, steps: seq<Step>) {
    && |states| == |steps| + 1 && Start(states[0])
    && forall i | 0 <= i < |steps| :: Next(states[i], steps[i], states[i + 1])
  }

  lemma {:induction false} RunKeeps(states: seq<State>, steps: seq<Step>, i: nat)
    requires Run(states, steps) && i < |states|
    ensures Inv(states[i])
  {
    hide Inv, Next;
    if i == 0 {
      StartKeeps(states[0]);
    } else {
      RunKeeps(states, steps, i - 1);
      StepKeeps(states[i - 1], steps[i - 1], states[i]);
    }
  }

  /**
   For every interleaving, at every moment: what has been received is what was sent,
   frame for frame from the first, byte for byte, each once and in order; and the
   indices meet only when all of it has been.
   */
  lemma FramesCrossOnceInOrder(states: seq<State>, steps: seq<Step>, i: nat)
    requires Run(states, steps) && i < |states|
    ensures states[i].received <= states[i].sent
    ensures states[i].tail == states[i].head <==> states[i].received == states[i].sent
  {
    hide Next;
    RunKeeps(states, steps, i);
    CaughtUp(states[i]);
  }

  /** The indices meet only when every frame sent has been received. */
  lemma CaughtUp(s: State)
    requires Inv(s)
    ensures s.tail == s.head <==> s.received == s.sent
  {
    hide Held, ConsumerOk, ProducerOk, Stream, Encoded, Boundary;
    var n := |s.received|;
    assert s.sent[..n] == s.received && s.sent[..|s.sent|] == s.sent;
    if n < |s.sent| {
      StreamAt(s.sent, n);
      StreamOrders(s.sent, n + 1, |s.sent|);
    }
  }

  /** For every interleaving, a byte being written is never one still to be read. */
  lemma WritesMissUnread(states: seq<State>, steps: seq<Step>, i: nat, k: nat)
    requires Run(states, steps) && i < |steps| && steps[i] == WriteByte && states[i].capacity > 0
    requires states[i].tail <= k < states[i].head
    ensures states[i + 1].mem != [] && |states[i + 1].mem| == |states[i].mem| == states[i].capacity
    ensures states[i + 1].mem[k % states[i].capacity] == states[i].mem[k % states[i].capacity]
  {
    hide Stream, Encoded;
    RunKeeps(states, steps, i);
    var s := states[i];
    assert Next(s, WriteByte, states[i + 1]);
    WriteIsFree(s);
    assert OffsetOf(s.capacity, k) != FrameByte(s.producer.place, s.producer.done);
  }
}
