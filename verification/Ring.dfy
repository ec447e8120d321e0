/** A ring buffer laid out in shared memory: where bytes go, and whether indices can be believed. */
module Ring {
  import opened Words
  import Digits

  const DATA_OFFSET: nat := 64
  const PREFIX: nat := 4
  const LENGTHS: nat := 0x100_0000

  // ----- layout

  predicate PowerOfTwo(n: nat) {
    n == 1 || (n > 0 && n % 2 == 0 && PowerOfTwo(n / 2))
  }

  /** The largest power of two not exceeding `n`. */
  function LargestPower(n: nat): (p: nat)
    requires n > 0
    ensures 0 < p <= n < 2 * p && PowerOfTwo(p)
  {
    if n == 1 then 1 else 2 * LargestPower(n / 2)
  }

  /** Capacity of a ring in a region of `length` bytes; `None` if there is no room for one byte. */
  function ForRegion(length: nat): (capacity: Option<nat>)
    ensures capacity.None? <==> length <= DATA_OFFSET
    ensures capacity.Some? ==> 0 < capacity.value <= length - DATA_OFFSET < 2 * capacity.value && PowerOfTwo(capacity.value)
  {
    if length <= DATA_OFFSET then None else Some(LargestPower(length - DATA_OFFSET))
  }

  /** Where the byte at free-running index `at` is. */
  function OffsetOf(capacity: nat, at: nat): nat
    requires capacity > 0
  {
    DATA_OFFSET + at % capacity
  }

  /** Bitwise and. */
  function And(a: nat, b: nat): nat {
    if a == 0 || b == 0 then 0 else 2 * And(a / 2, b / 2) + (a % 2) * (b % 2)
  }

  /** For a power of two, masking with one less is the remainder. */
  lemma {:induction false} MaskIsRemainder(at: nat, capacity: nat)
    requires PowerOfTwo(capacity)
    ensures And(at, capacity - 1) == at % capacity
  {
    if capacity == 1 {
      OneRemains(at);
    } else {
      var half := capacity / 2;
      assert capacity == 2 * half && PowerOfTwo(half);
      hide And, PowerOfTwo;
      MaskIsRemainder(at / 2, half);
      AndOdd(at, half);
      DoubledRemainder(at, half);
    }
  }

  lemma OneRemains(at: nat)
    ensures And(at, 0) == 0 && at % 1 == 0
  {
  }

  /** The lowest bit of an odd mask keeps the lowest bit; the rest of the mask keeps the rest. */
  lemma AndOdd(a: nat, half: nat)
    requires half > 0
    ensures And(a, 2 * half - 1) == 2 * And(a / 2, half - 1) + a % 2
  {
    var b := 2 * half - 1;
    assert b / 2 == half - 1 && b % 2 == 1;
  }

  lemma DoubledRemainder(n: nat, half: nat)
    requires half > 0
    ensures n % (2 * half) == 2 * ((n / 2) % half) + n % 2
  {
    var q, r := (n / 2) / half, (n / 2) % half;
    var m := q * half;
    assert n / 2 == m + r;
    assert q * (2 * half) == 2 * m;
    Digits.DivMod(n, 2 * half, q, 2 * r + n % 2);
  }

  // ----- cursors

  datatype Cursor = Cursor(head: nat, tail: nat, capacity: nat)

  function WrappingSub(a: nat, b: nat): (d: nat)
    requires a < U64 && b < U64
    ensures d == (a - b) % U64
  {
    if b <= a then a - b else a + U64 - b
  }

  /** Believes a pair of indices only if no more is outstanding than the ring holds. */
  function NewCursor(capacity: nat, head: nat, tail: nat): (c: Option<Cursor>)
    requires head < U64 && tail < U64
  {
    if WrappingSub(head, tail) > capacity then None else Some(Cursor(head, tail, capacity))
  }

  /** The free-running index `n` bytes past `index`. */
  function Past(index: nat, n: nat): (at: nat)
    ensures at < U64
  {
    (index + n) % U64
  }

  /** Believed exactly when the head is the tail and at most a capacity more, modulo 2^64. */
  lemma BelievedExactly(capacity: nat, head: nat, tail: nat)
    requires capacity < U64 && head < U64 && tail < U64
    ensures NewCursor(capacity, head, tail).Some? <==> exists n | 0 <= n <= capacity :: head == Past(tail, n)
  {
    assert head == Past(tail, WrappingSub(head, tail));
  }

  ghost predicate Believable(c: Cursor) {
    0 < c.capacity < U64 && c.head < U64 && c.tail < U64 && WrappingSub(c.head, c.tail) <= c.capacity
  }

  function Readable(c: Cursor): nat
    requires c.head < U64 && c.tail < U64
  {
    WrappingSub(c.head, c.tail)
  }

  function Writable(c: Cursor): nat
    requires Believable(c)
  {
    c.capacity - Readable(c)
  }

  // ----- runs

  datatype Run = Run(offset: nat, length: nat)

  function RunsFrom(capacity: nat, from: nat, count: nat): (Run, Run)
    requires capacity > 0
  {
    if count == 0 then (Run(DATA_OFFSET, 0), Run(DATA_OFFSET, 0))
    else
      var start := OffsetOf(capacity, from);
      var toEnd := DATA_OFFSET + capacity - start;
      var first := if count < toEnd then count else toEnd;
      (Run(start, first), Run(DATA_OFFSET, count - first))
  }

  function ReadRuns(c: Cursor, count: nat): (Run, Run)
    requires Believable(c)
  {
    RunsFrom(c.capacity, c.tail, if count < Readable(c) then count else Readable(c))
  }

  function WriteRuns(c: Cursor, count: nat): (Run, Run)
    requires Believable(c)
  {
    RunsFrom(c.capacity, c.head, if count < Writable(c) then count else Writable(c))
  }

  /** Where byte `k` of a transfer described by two runs goes. */
  function Place(runs: (Run, Run), k: nat): (at: nat)
    requires k < runs.0.length + runs.1.length
  {
    if k < runs.0.length then runs.0.offset + k else runs.1.offset + (k - runs.0.length)
  }

  lemma ModStep(a: nat, k: nat, d: nat)
    requires d > 0 && k < d
    ensures (a + k) % d == if a % d + k < d then a % d + k else a % d + k - d
  {
    var q, r := a / d, a % d;
    assert a == q * d + r;
    assert (q + 1) * d == q * d + d;
    if r + k < d {
      Digits.DivMod(a + k, d, q, r + k);
    } else {
      Digits.DivMod(a + k, d, q + 1, r + k - d);
    }
  }

  /**
   The two runs are the transfer: as many bytes as asked, byte `k` exactly where
   free-running index `from + k` lives, all inside the data area.
   */
  lemma RunsAreTheTransfer(capacity: nat, from: nat, count: nat, k: nat)
    requires 0 < capacity && count <= capacity
    ensures var runs := RunsFrom(capacity, from, count);
            && runs.0.length + runs.1.length == count
            && runs.0.offset + runs.0.length <= DATA_OFFSET + capacity
            && (runs.1.length > 0 ==> runs.1.offset + runs.1.length <= runs.0.offset)
            && (k < count ==> Place(runs, k) == OffsetOf(capacity, from + k))
  {
    if k < count {
      ModStep(from, k, capacity);
    }
  }

  /** Indices less than a capacity apart never share a byte. */
  lemma Apart(capacity: nat, a: nat, b: nat)
    requires capacity > 0 && a < b < a + capacity
    ensures OffsetOf(capacity, a) != OffsetOf(capacity, b)
  {
    ModStep(a, b - a, capacity);
  }

  // ----- framing

  /** A framed transfer: its two parts, and the index after it. */
  datatype Framed = Framed(prefix: (Run, Run), payload: (Run, Run), next: nat)

  /** Where a frame goes; refused rather than truncated when it does not fit. */
  function FrameToWrite(c: Cursor, length: nat): (f: Option<Framed>)
    requires Believable(c) && c.head + PREFIX + length < U64
  {
    if length == 0 || PREFIX + length > Writable(c) then None
    else
      var after := NewCursor(c.capacity, c.head + PREFIX, c.tail);
      if after.None? then None
      else Some(Framed(WriteRuns(c, PREFIX), WriteRuns(after.value, length), c.head + (PREFIX + length)))
  }

  function LengthToRead(c: Cursor): (r: Option<(Run, Run)>)
    requires Believable(c)
  {
    if Readable(c) >= PREFIX then Some(ReadRuns(c, PREFIX)) else None
  }

  /** Where a frame of `length` bytes is, once all of it has been published. */
  function FrameToRead(c: Cursor, length: nat): (f: Option<Framed>)
    requires Believable(c) && c.tail + PREFIX + length < U64
  {
    if length == 0 || PREFIX + length > Readable(c) then None
    else
      var after := NewCursor(c.capacity, c.head, c.tail + PREFIX);
      if after.None? then None
      else Some(Framed(ReadRuns(c, PREFIX), ReadRuns(after.value, length), c.tail + (PREFIX + length)))
  }

  /** A frame and its prefix are `PREFIX + length` consecutive bytes from the mover's index, or refused. */
  lemma WriteFits(c: Cursor, length: nat)
    requires Believable(c) && c.head + PREFIX + length < U64
    ensures FrameToWrite(c, length).Some? <==> 0 < length && PREFIX + length <= Writable(c)
    ensures FrameToWrite(c, length).Some? ==>
              && FrameToWrite(c, length).value.prefix == RunsFrom(c.capacity, c.head, PREFIX)
              && FrameToWrite(c, length).value.payload == RunsFrom(c.capacity, c.head + PREFIX, length)
              && FrameToWrite(c, length).value.next == c.head + PREFIX + length
  {
  }

  lemma ReadFits(c: Cursor, length: nat)
    requires Believable(c) && c.tail + PREFIX + length < U64
    ensures LengthToRead(c) == if PREFIX <= Readable(c) then Some(RunsFrom(c.capacity, c.tail, PREFIX)) else None
    ensures FrameToRead(c, length).Some? <==> 0 < length && PREFIX + length <= Readable(c)
    ensures FrameToRead(c, length).Some? ==>
              && FrameToRead(c, length).value.prefix == RunsFrom(c.capacity, c.tail, PREFIX)
              && FrameToRead(c, length).value.payload == RunsFrom(c.capacity, c.tail + PREFIX, length)
              && FrameToRead(c, length).value.next == c.tail + PREFIX + length
  {
  }

  // ----- the prefix

  /** The top byte of a prefix: the member's index plus one in its low bits, and the uplink bit. */
  function TopByte(member: Option<nat>, uplink: bool): (b: nat)
    ensures b < 256
  {
    var named := match member case None => 0 case Some(m) => (m + 1) % 256;
    if uplink && (named / 16) % 2 == 0 then named + 16 else named
  }

  /** Puts a member and the uplink flag into a length prefix. */
  function Mark(length: nat, member: Option<nat>, uplink: bool): (prefix: nat)
    ensures prefix < U32
  {
    length % LENGTHS + TopByte(member, uplink) * LENGTHS
  }

  /** Reads back the length, the member if one was named, and the uplink flag. */
  function Marked(prefix: nat): (nat, Option<nat>, bool) {
    var top := (prefix / LENGTHS) % 256;
    (prefix % LENGTHS, if top % 16 == 0 then None else Some(top % 16 - 1), (top / 16) % 2 == 1)
  }

  /** What a prefix says, bit by bit: 24 of length, four of member, one of uplink, and three that mean nothing. */
  lemma MarkedExactly(length: nat, member: nat, uplink: nat, rest: nat)
    requires length < LENGTHS && member < 16 && uplink < 2 && rest < 8
    ensures Marked(length + (member + 16 * uplink + 32 * rest) * LENGTHS)
         == (length, if member == 0 then None else Some(member - 1), uplink == 1)
  {
    Packed(length, member + 16 * uplink + 32 * rest);
  }

  /** What marking makes, bit by bit: the member's index plus one from bit 24 on, as far as there are bits, and bit 28 set for uplink. */
  lemma MarkExactly(length: nat, index: nat, uplink: bool, member: nat, bit: nat, rest: nat)
    requires index < 256 && member < 16 && bit < 2 && rest < 8 && (index + 1) % 256 == member + 16 * bit + 32 * rest
    ensures Mark(length, Some(index), uplink) == length % LENGTHS + (member + 16 * (if uplink then 1 else bit) + 32 * rest) * LENGTHS
    ensures Mark(length, None, uplink) == length % LENGTHS + (if uplink then 16 else 0) * LENGTHS
  {
  }

  /** A prefix reads back exactly when the length fits 24 bits and the member is none or at most 14. */
  lemma MarkReadsBack(length: nat, member: Option<nat>, uplink: bool)
    requires member.Some? ==> member.value < 256
    ensures Marked(Mark(length, member, uplink)) == (length, member, uplink)
            <==> length < LENGTHS && (member.Some? ==> member.value <= 14)
  {
    TopReadsBack(member, uplink);
    hide TopByte;
    Packed(length % LENGTHS, TopByte(member, uplink));
  }

  lemma TopReadsBack(member: Option<nat>, uplink: bool)
    requires member.Some? ==> member.value < 256
    ensures var top := TopByte(member, uplink);
            (if top % 16 == 0 then None else Some(top % 16 - 1)) == member && ((top / 16) % 2 == 1) == uplink
            <==> (member.Some? ==> member.value <= 14)
  {
    if member.Some? {
      if member.value <= 14 {
        SmallMember(member.value, uplink);
      } else {
        LargeMember(member.value, uplink);
      }
    }
  }

  lemma SmallMember(m: nat, uplink: bool)
    requires m <= 14
    ensures TopByte(Some(m), uplink) == m + 1 + if uplink then 16 else 0
  {
  }

  /** Four bits name no member past 14. */
  lemma LargeMember(m: nat, uplink: bool)
    requires 14 < m
    ensures var top := TopByte(Some(m), uplink); top % 16 == 0 || top % 16 - 1 != m
  {
    assert TopByte(Some(m), uplink) % 16 < 16;
  }

  lemma Packed(low: nat, top: nat)
    requires low < LENGTHS && top < 256
    ensures (low + top * LENGTHS) / LENGTHS % 256 == top && (low + top * LENGTHS) % LENGTHS == low
  {
    Digits.DivMod(low + top * LENGTHS, LENGTHS, top, low);
  }
}
