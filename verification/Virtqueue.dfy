/**
 The split virtqueue (section 2.4 of VIRTIO 1.0): a driver and a device sharing an
 available ring and a used ring, every load and store its own step, indices wrapping at
 16 bits.
 */
module Virtqueues {
  import opened Words
  import Ring
  import Digits

  datatype Used = Used(id: nat, length: nat)

  /** The memory both sides see: two rings of entries and the index that makes each visible. */
  datatype Memory = Memory(available: seq<nat>, availableIndex: nat, used: seq<Used>, usedIndex: nat)

  predicate Shaped(mem: Memory, size: nat) {
    0 < size && |mem.available| == |mem.used| == size
  }

  function Bump(index: nat): (next: nat)
    ensures next < U16
  {
    (index + 1) % U16
  }

  /** The head goes into the ring: the first half of publishing. */
  function HeadStored(mem: Memory, size: nat, index: nat, head: nat): Memory
    requires Shaped(mem, size)
  {
    mem.(available := mem.available[index % size := head])
  }

  /** The index that makes it visible: the second half. */
  function IndexStored(mem: Memory, index: nat): Memory {
    mem.(availableIndex := Bump(index))
  }

  /** The driver's half. */
  class Virtqueue {
    const size: nat
    var mem: Memory
    var availableIndex: nat
    var usedIndex: nat

    constructor (size: nat)
      requires 0 < size
      ensures this.size == size && Shaped(mem, size) && availableIndex == usedIndex == 0
      ensures mem.availableIndex == mem.usedIndex == 0
    {
      this.size := size;
      mem := Memory(seq(size, _ => 0), 0, seq(size, _ => Used(0, 0)), 0);
      availableIndex, usedIndex := 0, 0;
    }

    /** Publishes a chain: the head first, the index last. */
    method Publish(head: nat)
      requires Shaped(mem, size)
      modifies this
      ensures mem == IndexStored(HeadStored(old(mem), size, old(availableIndex), head), old(availableIndex))
      ensures availableIndex == Bump(old(availableIndex)) && usedIndex == old(usedIndex)
    {
      var slot := availableIndex % size;
      mem := mem.(available := mem.available[slot := head]);
      availableIndex := (availableIndex + 1) % U16;
      mem := mem.(availableIndex := availableIndex);
    }

    /** Takes the next completion, if the device has published one. */
    method CompletedWithLength() returns (r: Option<(nat, nat)>)
      requires Shaped(mem, size)
      modifies this`usedIndex
      ensures r.Some? <==> mem.usedIndex != old(usedIndex)
      ensures r.Some? ==> r.value == Shown(mem.used[old(usedIndex) % size])
      ensures forall s | Seen(s, mem, size, old(usedIndex)) :: r == Uncollected(s)
      ensures usedIndex == if r.Some? then Bump(old(usedIndex)) else old(usedIndex)
    {
      forall s | Seen(s, mem, size, usedIndex)
        ensures mem.usedIndex == usedIndex ==> Uncollected(s) == None
        ensures mem.usedIndex != usedIndex ==>
                  Uncollected(s) == Some(Shown(mem.used[usedIndex % size]))
      {
        NextCompletion(s);
      }
      if mem.usedIndex == usedIndex {
        return None;
      }
      var entry := mem.used[usedIndex % size];
      usedIndex := (usedIndex + 1) % U16;
      return Some((entry.id % U16, entry.length));
    }
  }

  // ----- the two sides together

  /** Where the driver is in taking a completion: it has seen the index, and then the entry's id. */
  datatype Collecting = Idle | Visible | GotId(id: nat)

  /** Where the device is in making one: it has stored the entry's id, and then its length. */
  datatype Filling = Quiet | Half(entry: Used) | Full(entry: Used)

  /**
   `storing`, `collecting` and `filling` are what each side is in the middle of.
   `seenAvailable` is the device's copy, perhaps stale, of the driver's index, and
   `noticed` the count it stands for. `published`, `taken`, `completed` and
   `collected` are what has happened so far, in order.
   */
  datatype State = State(
    size: nat, mem: Memory,
    availableIndex: nat, usedIndex: nat, storing: Option<nat>, collecting: Collecting,
    lastAvailable: nat, seenAvailable: nat, noticed: nat, filling: Filling,
    published: seq<nat>, taken: seq<nat>, completed: seq<Used>, collected: seq<(nat, nat)>)

  /** Each is one load or one store of shared memory. */
  datatype Step =
    | StoreHead(head: nat) | StoreIndex | LoadUsed | LoadId | LoadLength
    | LoadAvailable | Take | StoreUsedId(entry: Used) | StoreUsedLength | StoreUsedIndex

  ghost predicate Start(s: State) {
    && 0 < s.size < U16 && Ring.PowerOfTwo(s.size) && Shaped(s.mem, s.size)
    && s.mem.availableIndex == s.mem.usedIndex == s.availableIndex == s.usedIndex == 0
    && s.lastAvailable == s.seenAvailable == s.noticed == 0
    && s.storing.None? && s.collecting == Idle && s.filling == Quiet
    && s.published == s.taken == [] && s.completed == [] && s.collected == []
  }

  /** The used ring with one entry's id, or its length, stored. */
  function IdStored(mem: Memory, size: nat, id: nat): Memory
    requires Shaped(mem, size)
  {
    var i := mem.usedIndex % size;
    mem.(used := mem.used[i := mem.used[i].(id := id)])
  }

  function LengthStored(mem: Memory, size: nat, length: nat): Memory
    requires Shaped(mem, size)
  {
    var i := mem.usedIndex % size;
    mem.(used := mem.used[i := mem.used[i].(length := length)])
  }

  /** One load or store of either side. The driver keeps at most `size` chains in flight; the device completes only what it took. */
  ghost predicate Next(s: State, step: Step, s': State)
    requires Shaped(s.mem, s.size)
  {
    match step
    case StoreHead(head) =>
      && s.storing.None? && |s.published| - |s.collected| < s.size
      && s' == s.(mem := HeadStored(s.mem, s.size, s.availableIndex, head), storing := Some(head))
    case StoreIndex =>
      && s.storing.Some?
      && s' == s.(mem := IndexStored(s.mem, s.availableIndex), availableIndex := Bump(s.availableIndex),
                  storing := None, published := s.published + [s.storing.value])
    case LoadUsed =>
      s.collecting == Idle && s' == if s.mem.usedIndex == s.usedIndex then s else s.(collecting := Visible)
    case LoadId =>
      s.collecting == Visible && s' == s.(collecting := GotId(s.mem.used[s.usedIndex % s.size].id))
    case LoadLength =>
      && s.collecting.GotId?
      && s' == s.(collecting := Idle, usedIndex := Bump(s.usedIndex),
                  collected := s.collected + [(s.collecting.id % U16, s.mem.used[s.usedIndex % s.size].length)])
    case LoadAvailable => s' == s.(seenAvailable := s.mem.availableIndex, noticed := |s.published|)
    case Take =>
      && s.seenAvailable != s.lastAvailable
      && s' == s.(lastAvailable := Bump(s.lastAvailable),
                  taken := s.taken + [s.mem.available[s.lastAvailable % s.size]])
    case StoreUsedId(entry) =>
      && s.filling == Quiet && |s.completed| < |s.taken|
      && s' == s.(mem := IdStored(s.mem, s.size, entry.id), filling := Half(entry))
    case StoreUsedLength =>
      && s.filling.Half?
      && s' == s.(mem := LengthStored(s.mem, s.size, s.filling.entry.length), filling := Full(s.filling.entry))
    case StoreUsedIndex =>
      && s.filling.Full?
      && s' == s.(mem := s.mem.(usedIndex := Bump(s.mem.usedIndex)), filling := Quiet,
                  completed := s.completed + [s.filling.entry])
  }

  function Shown(e: Used): (nat, nat) {
    (e.id % U16, e.length)
  }

  /** Every counter is the length of its history, cut to 16 bits, and the histories nest. */
  ghost predicate Counts(s: State) {
    && 0 < s.size < U16 && Ring.PowerOfTwo(s.size) && Shaped(s.mem, s.size)
    && s.availableIndex == s.mem.availableIndex == |s.published| % U16
    && s.lastAvailable == |s.taken| % U16 && s.seenAvailable == s.noticed % U16
    && s.mem.usedIndex == |s.completed| % U16
    && s.usedIndex == |s.collected| % U16
    && |s.collected| <= |s.completed| <= |s.taken| <= s.noticed <= |s.published| <= |s.collected| + s.size
    && (s.storing.Some? ==> |s.published| < |s.collected| + s.size)
    && (s.filling != Quiet ==> |s.completed| < |s.taken|)
    && (s.collecting != Idle ==> |s.collected| < |s.completed|)
  }

  /** What is visible and not yet taken is in its ring, and so is what is half done. */
  ghost predicate Rings(s: State)
    requires Shaped(s.mem, s.size)
  {
    && (forall k | |s.taken| <= k < |s.published| :: s.mem.available[k % s.size] == s.published[k])
    && (s.storing.Some? ==> s.mem.available[|s.published| % s.size] == s.storing.value)
    && (forall k | |s.collected| <= k < |s.completed| :: s.mem.used[k % s.size] == s.completed[k])
    && (s.filling.Half? ==> s.mem.used[|s.completed| % s.size].id == s.filling.entry.id)
    && (s.filling.Full? ==> s.mem.used[|s.completed| % s.size] == s.filling.entry)
    && (s.collecting.GotId? && |s.collected| < |s.completed| ==> s.collecting.id == s.completed[|s.collected|].id)
  }

  ghost predicate Histories(s: State) {
    && s.taken <= s.published
    && |s.collected| <= |s.completed| && forall k | 0 <= k < |s.collected| :: s.collected[k] == Shown(s.completed[k])
  }

  ghost predicate Inv(s: State) {
    Counts(s) && Rings(s) && Histories(s)
  }

  // ----- arithmetic of wrapping

  /** A power of two below 2^16 divides it. */
  lemma {:induction false} PowerDivides(size: nat, whole: nat) returns (m: nat)
    requires Ring.PowerOfTwo(size) && Ring.PowerOfTwo(whole) && size <= whole
    ensures whole == m * size
  {
    if size == 1 {
      m := whole;
    } else {
      m := PowerDivides(size / 2, whole / 2);
    }
  }

  lemma WordIsPower()
    ensures Ring.PowerOfTwo(U16)
  {
    assert Ring.PowerOfTwo(16);
    assert Ring.PowerOfTwo(256);
    assert Ring.PowerOfTwo(4096);
  }

  /** Wrapping at 16 bits does not move a ring slot. */
  lemma SlotSurvivesWrap(k: nat, size: nat)
    requires 0 < size < U16 && Ring.PowerOfTwo(size)
    ensures (k % U16) % size == k % size
  {
    WordIsPower();
    var m := PowerDivides(size, U16);
    assert size * m == U16;
    Digits.SplitMod(k, size, m);
  }

  lemma SlotsApart(size: nat, a: nat, b: nat)
    requires size > 0 && a < b < a + size
    ensures a % size != b % size
  {
    Ring.ModStep(a, b - a, size);
  }

  /** Counts less than 2^16 apart are equal exactly when their low 16 bits are. */
  lemma WrapTells(a: nat, b: nat)
    requires a <= b < a + U16
    ensures a % U16 == b % U16 <==> a == b
  {
    if a < b {
      SlotsApart(U16, a, b);
    }
  }

  /** In every state the invariant allows the driver's copy of the index says whether a completion is left, and where it is. */
  lemma NextCompletion(s: State)
    requires Inv(s)
    ensures s.mem.usedIndex == s.usedIndex <==> |s.collected| == |s.completed|
    ensures |s.collected| < |s.completed| ==> s.mem.used[s.usedIndex % s.size] == s.completed[|s.collected|]
  {
    var n := |s.collected|;
    WrapTells(n, |s.completed|);
    SlotSurvivesWrap(n, s.size);
    if n < |s.completed| {
      assert s.mem.used[n % s.size] == s.completed[n];
    }
  }

  /** A state of the protocol as the driver sees it. */
  ghost predicate Seen(s: State, mem: Memory, size: nat, usedIndex: nat) {
    Inv(s) && s.mem == mem && s.size == size && s.usedIndex == usedIndex
  }

  /** The next completion the driver has not had. */
  ghost function Uncollected(s: State): Option<(nat, nat)> {
    if |s.collected| < |s.completed| then Some(Shown(s.completed[|s.collected|])) else None
  }

  // ----- what every step keeps

  lemma StartKeeps(s: State)
    requires Start(s)
    ensures Inv(s)
  {
  }

  lemma StoreHeadKeeps(s: State, head: nat, s': State)
    requires Inv(s) && Next(s, StoreHead(head), s')
    ensures Inv(s')
  {
    hide Ring.PowerOfTwo;
    SlotSurvivesWrap(|s.published|, s.size);
    forall k | |s.taken| <= k < |s.published|
      ensures k % s.size != |s.published| % s.size
    {
      SlotsApart(s.size, k, |s.published|);
    }
  }

  lemma StoreIndexKeeps(s: State, s': State)
    requires Inv(s) && Next(s, StoreIndex, s')
    ensures Inv(s')
  {
    hide Ring.PowerOfTwo;
    BumpCounts(|s.published|);
  }

  lemma BumpCounts(n: nat)
    ensures Bump(n % U16) == (n + 1) % U16
  {
  }

  lemma LoadAvailableKeeps(s: State, s': State)
    requires Inv(s) && Next(s, LoadAvailable, s')
    ensures Inv(s')
  {
  }

  /** The device sees an entry waiting only when one was published that it has not taken, and takes that one. */
  lemma TakeKeeps(s: State, s': State)
    requires Inv(s) && Next(s, Take, s')
    ensures Inv(s')
    ensures |s.taken| < |s.published| && s'.taken == s.published[..|s.taken| + 1]
  {
    hide Ring.PowerOfTwo;
    WrapTells(|s.taken|, s.noticed);
    SlotSurvivesWrap(|s.taken|, s.size);
    BumpCounts(|s.taken|);
    assert s.published[..|s.taken| + 1] == s.taken + [s.published[|s.taken|]];
  }

  /** The slot being filled is not one still to be collected. */
  lemma FillingApart(s: State)
    requires Inv(s) && |s.completed| < |s.taken|
    ensures s.mem.usedIndex % s.size == |s.completed| % s.size
    ensures forall k | |s.collected| <= k < |s.completed| :: k % s.size != |s.completed| % s.size
  {
    hide Ring.PowerOfTwo;
    SlotSurvivesWrap(|s.completed|, s.size);
    forall k | |s.collected| <= k < |s.completed|
      ensures k % s.size != |s.completed| % s.size
    {
      SlotsApart(s.size, k, |s.completed|);
    }
  }

  lemma StoreUsedIdKeeps(s: State, entry: Used, s': State)
    requires Inv(s) && Next(s, StoreUsedId(entry), s')
    ensures Inv(s')
  {
    hide Ring.PowerOfTwo;
    FillingApart(s);
  }

  lemma StoreUsedLengthKeeps(s: State, s': State)
    requires Inv(s) && Next(s, StoreUsedLength, s')
    ensures Inv(s')
  {
    hide Ring.PowerOfTwo;
    FillingApart(s);
  }

  lemma StoreUsedIndexKeeps(s: State, s': State)
    requires Inv(s) && Next(s, StoreUsedIndex, s')
    ensures Inv(s')
  {
    hide Ring.PowerOfTwo;
    BumpCounts(|s.completed|);
  }

  /** The driver goes on to collect only when a completion was published that it has not seen. */
  lemma LoadUsedKeeps(s: State, s': State)
    requires Inv(s) && Next(s, LoadUsed, s')
    ensures Inv(s') && (s'.collecting == Visible <==> |s.collected| < |s.completed|)
  {
    hide Ring.PowerOfTwo;
    WrapTells(|s.collected|, |s.completed|);
  }

  lemma LoadIdKeeps(s: State, s': State)
    requires Inv(s) && Next(s, LoadId, s')
    ensures Inv(s')
  {
    hide Ring.PowerOfTwo;
    SlotSurvivesWrap(|s.collected|, s.size);
  }

  /** What it collects is that completion, though the entry was read in two loads. */
  lemma LoadLengthKeeps(s: State, s': State)
    requires Inv(s) && Next(s, LoadLength, s')
    ensures Inv(s') && s'.collected == s.collected + [Shown(s.completed[|s.collected|])]
  {
    hide Ring.PowerOfTwo;
    SlotSurvivesWrap(|s.collected|, s.size);
    BumpCounts(|s.collected|);
  }

  lemma StepKeeps(s: State, step: Step, s': State)
    requires Inv(s) && Next(s, step, s')
    ensures Inv(s')
  {
    hide Inv, Rings;
    match step
    case StoreHead(head) => StoreHeadKeeps(s, head, s');
    case StoreIndex => StoreIndexKeeps(s, s');
    case LoadUsed => LoadUsedKeeps(s, s');
    case LoadId => LoadIdKeeps(s, s');
    case LoadLength => LoadLengthKeeps(s, s');
    case LoadAvailable => LoadAvailableKeeps(s, s');
    case Take => TakeKeeps(s, s');
    case StoreUsedId(entry) => StoreUsedIdKeeps(s, entry, s');
    case StoreUsedLength => StoreUsedLengthKeeps(s, s');
    case StoreUsedIndex => StoreUsedIndexKeeps(s, s');
  }

  // ----- whole runs

  ghost predicate Run(states: seq<State>, steps: seq<Step>) {
    && |states| == |steps| + 1 && Start(states[0])
    && forall i | 0 <= i < |steps| ::
         Shaped(states[i].mem, states[i].size) && Next(states[i], steps[i], states[i + 1])
  }

  lemma {:induction false} RunKeeps(states: seq<State>, steps: seq<Step>, i: nat)
    requires Run(states, steps) && i < |states|
    ensures Inv(states[i])
  {
    hide Inv, Next;
    if i == 0 {
      StartKeeps(states[0]);
    } else {
      RunKeeps(states, steps, i - 1);
      StepKeeps(states[i - 1], steps[i - 1], states[i]);
    }
  }

  /**
   For every interleaving, at every moment and across any number of index wraps: the
   device has taken exactly the first heads published, in order; the driver has
   collected exactly the first completions, in order and once each; `posted` less
   `seen`, wrapping, counts the chains not yet collected; and a side finds nothing
   new only when it has had everything.
   */
  lemma QueueIsExact(states: seq<State>, steps: seq<Step>, i: nat)
    requires Run(states, steps) && i < |states|
    ensures states[i].taken <= states[i].published
    ensures |states[i].collected| <= |states[i].completed|
    ensures forall k | 0 <= k < |states[i].collected| :: states[i].collected[k] == Shown(states[i].completed[k])
    ensures (states[i].availableIndex - states[i].usedIndex) % U16 == |states[i].published| - |states[i].collected|
    ensures states[i].mem.availableIndex == states[i].lastAvailable <==> states[i].taken == states[i].published
    ensures states[i].mem.usedIndex == states[i].usedIndex <==> |states[i].collected| == |states[i].completed|
  {
    hide Next, Ring.PowerOfTwo;
    RunKeeps(states, steps, i);
    WrapTells(|states[i].taken|, |states[i].published|);
    WrapTells(|states[i].collected|, |states[i].completed|);
    DifferenceCounts(|states[i].published|, |states[i].collected|);
  }

  lemma DifferenceCounts(a: nat, b: nat)
    requires b <= a < b + U16
    ensures (a % U16 - b % U16) % U16 == a - b
  {
    Ring.ModStep(b, a - b, U16);
  }
}
