/**
 What a write-back cache and the device under it hold, as values: the slots, the
 frames and the disk, the plain block map they stand for, and the four small
 changes every cache operation is made of.
 */
module CacheModel {
  import opened Words
  import opened Blocks

  datatype Slot = Slot(block: Option<nat>, dirty: bool, used: nat, pinned: bool)

  const EMPTY: Slot := Slot(None, false, 0, false)

  datatype State = State(slots: seq<Slot>, frames: seq<Block>, disk: Disk)

  /** The first slot holding `block`. */
  function Find(slots: seq<Slot>, block: nat): (r: Option<nat>)
    ensures r.Some? ==> r.value < |slots| && slots[r.value].block == Some(block)
    ensures r.None? ==> forall i | 0 <= i < |slots| :: slots[i].block != Some(block)
  {
    if slots == [] then None
    else if slots[0].block == Some(block) then Some(0)
    else match Find(slots[1..], block)
         case None => None
         case Some(i) => Some(i + 1)
  }

  predicate SlotOk(slot: Slot, frame: Block, disk: Disk) {
    match slot.block
    case None => !slot.dirty && !slot.pinned
    case Some(b) => b < |disk| && (slot.dirty || frame == disk[b])
  }

  /** No block is in two frames, and a clean frame is what the device holds. */
  ghost predicate Coherent(st: State) {
    && |st.slots| == |st.frames|
    && (forall i | 0 <= i < |st.slots| :: SlotOk(st.slots[i], st.frames[i], st.disk))
    && (forall i, j | 0 <= i < j < |st.slots| ::
          st.slots[i].block.Some? ==> st.slots[i].block != st.slots[j].block)
  }

  /** The bytes a reader of `block` is given. */
  ghost function Seen(st: State, block: nat): (b: Block)
    requires |st.slots| == |st.frames| && block < |st.disk|
  {
    match Find(st.slots, block)
    case Some(i) => st.frames[i]
    case None => st.disk[block]
  }

  /** The plain block map the cache stands for. */
  ghost function View(st: State): (v: Disk)
    requires |st.slots| == |st.frames|
    ensures |v| == |st.disk|
  {
    seq(|st.disk|, b requires 0 <= b < |st.disk| => Seen(st, b))
  }

  /** The blocks whose contents have not reached the device. */
  ghost function Dirty(slots: seq<Slot>): (s: set<nat>)
  {
    set i | 0 <= i < |slots| && slots[i].dirty && slots[i].block.Some? :: slots[i].block.value
  }

  lemma FindSlot(st: State, i: nat)
    requires Coherent(st) && i < |st.slots| && st.slots[i].block.Some?
    ensures Find(st.slots, st.slots[i].block.value) == Some(i)
    ensures forall j | 0 <= j < |st.slots| && st.slots[j].block == st.slots[i].block :: j == i
    ensures st.slots[i].block.value < |st.disk|
  {
    assert SlotOk(st.slots[i], st.frames[i], st.disk);
  }

  /** Where nothing is waiting, the device already holds what a reader sees. */
  lemma CleanAgrees(st: State, block: nat)
    requires Coherent(st) && block < |st.disk| && block !in Dirty(st.slots)
    ensures View(st)[block] == st.disk[block]
  {
    match Find(st.slots, block)
    case None =>
    case Some(i) =>
      assert SlotOk(st.slots[i], st.frames[i], st.disk);
  }

  // ----- the four small changes

  function Cleaned(st: State, i: nat): State
    requires i < |st.slots| == |st.frames| && st.slots[i].block.Some?
    requires st.slots[i].block.value < |st.disk|
  {
    st.(slots := st.slots[i := st.slots[i].(dirty := false)],
        disk := st.disk[st.slots[i].block.value := st.frames[i]])
  }

  /** Writing a frame back changes the device and nothing a reader sees. */
  lemma CleanKeeps(st: State, i: nat)
    requires Coherent(st) && i < |st.slots| && st.slots[i].block.Some?
    ensures Coherent(Cleaned(st, i))
    ensures View(Cleaned(st, i)) == View(st)
    ensures Cleaned(st, i).disk == st.disk[st.slots[i].block.value := View(st)[st.slots[i].block.value]]
    ensures Dirty(Cleaned(st, i).slots) == Dirty(st.slots) - {st.slots[i].block.value}
  {
    var st' := Cleaned(st, i);
    FindSlot(st, i);
    SameFind(st.slots, st'.slots);
    forall b | 0 <= b < |st.disk|
      ensures Seen(st', b) == Seen(st, b)
    {
    }
    assert forall j | 0 <= j < |st.slots| && j != i :: st'.slots[j] == st.slots[j];
    assert View(st') == View(st);
  }

  /** Slots that name the same blocks are found alike. */
  lemma {:induction false} SameFind(a: seq<Slot>, b: seq<Slot>)
    requires |a| == |b| && forall i | 0 <= i < |a| :: a[i].block == b[i].block
    ensures forall block: nat :: Find(a, block) == Find(b, block)
  {
    if a != [] {
      SameFind(a[1..], b[1..]);
    }
  }

  function Reloaded(st: State, i: nat, block: nat, used: nat): State
    requires i < |st.slots| == |st.frames| && block < |st.disk|
  {
    st.(slots := st.slots[i := Slot(Some(block), false, used, false)],
        frames := st.frames[i := st.disk[block]])
  }

  /** Giving a clean frame to another block shows a reader nothing new. */
  lemma ReloadKeeps(st: State, i: nat, block: nat, used: nat)
    requires Coherent(st) && i < |st.slots| && !st.slots[i].dirty
    requires block < |st.disk| && Find(st.slots, block).None?
    ensures Coherent(Reloaded(st, i, block, used))
    ensures View(Reloaded(st, i, block, used)) == View(st)
    ensures Dirty(Reloaded(st, i, block, used).slots) == Dirty(st.slots)
  {
    hide Find;
    var st' := Reloaded(st, i, block, used);
    assert forall j | 0 <= j < |st.slots| && j != i :: st'.slots[j] == st.slots[j] && st'.frames[j] == st.frames[j];
    forall b | 0 <= b < |st.disk|
      ensures Seen(st', b) == Seen(st, b)
    {
      match Find(st.slots, b)
      case None =>
        if b == block { FindSlot(st', i); }
      case Some(k) =>
        if k == i {
          assert SlotOk(st.slots[i], st.frames[i], st.disk);
          assert Find(st'.slots, b).None?;
        } else {
          FindSlot(st', k);
        }
    }
    assert View(st') == View(st);
  }

  function Overwritten(st: State, i: nat, block: nat, used: nat, bytes: Block): State
    requires i < |st.slots| == |st.frames|
  {
    st.(slots := st.slots[i := Slot(Some(block), true, used, st.slots[i].pinned)],
        frames := st.frames[i := bytes])
  }

  /** Whether frame `i` may take `block`: it is the block's own, or clean and the block is nowhere. */
  ghost predicate MayTake(st: State, i: nat, block: nat) {
    && Coherent(st) && i < |st.slots| && block < |st.disk|
    && (Find(st.slots, block) == Some(i) || (Find(st.slots, block).None? && !st.slots[i].dirty))
  }

  lemma OverwriteCoheres(st: State, i: nat, block: nat, used: nat, bytes: Block)
    requires MayTake(st, i, block)
    ensures Coherent(Overwritten(st, i, block, used, bytes))
    ensures Dirty(Overwritten(st, i, block, used, bytes).slots) == Dirty(st.slots) + {block}
  {
    var st' := Overwritten(st, i, block, used, bytes);
    assert forall j | 0 <= j < |st.slots| && j != i :: st'.slots[j] == st.slots[j] && st'.frames[j] == st.frames[j];
    assert st'.slots[i].block == Some(block);
    assert Find(st.slots, block) == Some(i) ==> st.slots[i].block == Some(block);
    assert forall j | 0 <= j < |st.slots| && j != i :: st.slots[j].block != Some(block);
  }

  /** A frame that may take a block takes its new bytes: one entry of the map changes. */
  lemma OverwriteSets(st: State, i: nat, block: nat, used: nat, bytes: Block)
    requires MayTake(st, i, block)
    ensures Coherent(Overwritten(st, i, block, used, bytes))
    ensures View(Overwritten(st, i, block, used, bytes)) == View(st)[block := bytes]
    ensures Dirty(Overwritten(st, i, block, used, bytes).slots) == Dirty(st.slots) + {block}
  {
    hide Find;
    var st' := Overwritten(st, i, block, used, bytes);
    OverwriteCoheres(st, i, block, used, bytes);
    FindSlot(st', i);
    forall b | 0 <= b < |st.disk| && b != block
      ensures Seen(st', b) == Seen(st, b)
    {
      match Find(st.slots, b)
      case None =>
      case Some(k) =>
        if k == i {
          assert SlotOk(st.slots[i], st.frames[i], st.disk);
          assert Find(st'.slots, b).None?;
        } else {
          FindSlot(st', k);
        }
    }
    assert View(st') == View(st)[block := bytes];
  }

  function Touched(st: State, i: nat, used: nat): State
    requires i < |st.slots|
  {
    st.(slots := st.slots[i := st.slots[i].(used := used)])
  }

  function PinSet(st: State, i: nat, pinned: bool): State
    requires i < |st.slots|
  {
    st.(slots := st.slots[i := st.slots[i].(pinned := pinned)])
  }

  /** Relabelling when a frame was wanted, or whether it is held, shows a reader nothing. */
  lemma RelabelKeeps(st: State, slots: seq<Slot>)
    requires Coherent(st) && |slots| == |st.slots|
    requires forall i | 0 <= i < |slots| ::
               slots[i].block == st.slots[i].block && slots[i].dirty == st.slots[i].dirty
               && (slots[i].block.None? ==> !slots[i].pinned)
    ensures Coherent(st.(slots := slots))
    ensures View(st.(slots := slots)) == View(st)
    ensures Dirty(slots) == Dirty(st.slots)
  {
    SameFind(st.slots, slots);
    assert forall i | 0 <= i < |slots| :: SlotOk(st.slots[i], st.frames[i], st.disk) ==> SlotOk(slots[i], st.frames[i], st.disk);
    assert View(st.(slots := slots)) == View(st);
  }

  // ----- who was wanted when

  /** When `block` was last wanted: its last place in the access history, plus one; zero if never. */
  ghost function LastWanted(wants: seq<nat>, block: nat): (k: nat)
    ensures k <= |wants|
    ensures k > 0 ==> wants[k - 1] == block
    ensures forall j | k <= j < |wants| :: wants[j] != block
  {
    if wants == [] then 0
    else if wants[|wants| - 1] == block then |wants|
    else LastWanted(wants[..|wants| - 1], block)
  }

  /** A slot's clock reading is the time its block was last wanted. */
  ghost predicate Timed(slots: seq<Slot>, wants: seq<nat>) {
    forall i | 0 <= i < |slots| && slots[i].block.Some? ::
      0 < slots[i].used == LastWanted(wants, slots[i].block.value)
  }

  /** Marking one slot wanted now keeps every clock reading true. */
  lemma WantKeepsTime(slots: seq<Slot>, wants: seq<nat>, i: nat, slot: Slot)
    requires Timed(slots, wants) && i < |slots| && slot.block.Some? && slot.used == |wants| + 1
    requires forall j | 0 <= j < |slots| && slots[j].block == slot.block :: j == i
    ensures Timed(slots[i := slot], wants + [slot.block.value])
  {
    var wants' := wants + [slot.block.value];
    assert wants'[..|wants|] == wants;
  }

  /** The same frames are pinned, and each still names the block it named. */
  ghost predicate PinsKept(before: seq<Slot>, after: seq<Slot>) {
    && |before| == |after|
    && forall i | 0 <= i < |before| ::
         after[i].pinned == before[i].pinned && (before[i].pinned ==> after[i].block == before[i].block)
  }

  // ----- what the device saw

  /** One device write of a waiting block, carrying the bytes a reader of it sees. */
  ghost predicate SpillStep(before: Disk, after: Disk, view: Disk, dirty: set<nat>) {
    exists b | b in dirty :: b < |view| == |before| && after == before[b := view[b]]
  }

  /** The device went from `before` to `after` by writes of waiting blocks and nothing else. */
  ghost predicate Spills(before: seq<Disk>, after: seq<Disk>, view: Disk, dirty: set<nat>) {
    && 0 < |before| <= |after|
    && after[..|before|] == before
    && forall k | |before| <= k < |after| :: SpillStep(after[k - 1], after[k], view, dirty)
  }

  lemma SpillsJoin(a: seq<Disk>, b: seq<Disk>, c: seq<Disk>, view: Disk, dirty: set<nat>, less: set<nat>)
    requires Spills(a, b, view, dirty) && Spills(b, c, view, less) && less <= dirty
    ensures Spills(a, c, view, dirty)
  {
    assert c[..|a|] == b[..|a|];
    forall k | |a| <= k < |c|
      ensures SpillStep(c[k - 1], c[k], view, dirty)
    {
      if k < |b| {
        assert SpillStep(b[k - 1], b[k], view, dirty);
        assert c[k - 1] == b[k - 1] && c[k] == b[k];
      } else {
        assert SpillStep(c[k - 1], c[k], view, less);
      }
    }
  }

  /**
   The promise of every step that only looks: a reader sees the same map, no more
   blocks wait than did, the device saw only writes of waiting blocks, and every
   pinned frame still holds its block.
   */
  ghost predicate Looks(st: State, h: seq<Disk>, st': State, h': seq<Disk>) {
    && Coherent(st) && Coherent(st')
    && View(st') == View(st)
    && Dirty(st'.slots) <= Dirty(st.slots)
    && Spills(h, h', View(st), Dirty(st.slots))
    && PinsKept(st.slots, st'.slots)
  }

  lemma LooksJoin(a: State, h: seq<Disk>, b: State, h': seq<Disk>, c: State, h'': seq<Disk>)
    requires Looks(a, h, b, h') && Looks(b, h', c, h'')
    ensures Looks(a, h, c, h'')
  {
    SpillsJoin(h, h', h'', View(a), Dirty(a.slots), Dirty(b.slots));
  }

  lemma CleanLooks(st: State, i: nat, h: seq<Disk>)
    requires Coherent(st) && i < |st.slots| && st.slots[i].block.Some? && st.slots[i].dirty
    requires 0 < |h| && h[|h| - 1] == st.disk
    ensures Looks(st, h, Cleaned(st, i), h + [Cleaned(st, i).disk]) && Coherent(Cleaned(st, i))
  {
    CleanKeeps(st, i);
    var b := st.slots[i].block.value;
    assert b in Dirty(st.slots);
    assert SpillStep(st.disk, Cleaned(st, i).disk, View(st), Dirty(st.slots));
  }

  lemma ReloadLooks(st: State, i: nat, block: nat, used: nat, h: seq<Disk>)
    requires Coherent(st) && i < |st.slots| && !st.slots[i].dirty && !st.slots[i].pinned
    requires block < |st.disk| && Find(st.slots, block).None? && 0 < |h|
    ensures Looks(st, h, Reloaded(st, i, block, used), h) && Coherent(Reloaded(st, i, block, used))
  {
    ReloadKeeps(st, i, block, used);
  }

  lemma TouchLooks(st: State, i: nat, used: nat, h: seq<Disk>)
    requires Coherent(st) && i < |st.slots| && 0 < |h|
    ensures Looks(st, h, Touched(st, i, used), h) && Coherent(Touched(st, i, used))
  {
    assert forall j | 0 <= j < |st.slots| :: SlotOk(st.slots[j], st.frames[j], st.disk);
    RelabelKeeps(st, Touched(st, i, used).slots);
  }

  /** Every device write stored, for its block, what a reader of it saw; other blocks kept theirs. */
  lemma {:induction false} SpillsLeave(h: seq<Disk>, h': seq<Disk>, view: Disk, dirty: set<nat>, k: nat, b: nat)
    requires Spills(h, h', view, dirty) && |h| - 1 <= k < |h'|
    requires b < |view| == |h[|h| - 1]|
    ensures |h'[k]| == |view|
    ensures h'[k][b] == h[|h| - 1][b] || (b in dirty && h'[k][b] == view[b])
  {
    assert h'[|h| - 1] == h'[..|h|][|h| - 1];
    if k >= |h| {
      SpillsLeave(h, h', view, dirty, k - 1, b);
      assert SpillStep(h'[k - 1], h'[k], view, dirty);
    }
  }

  /** Frame `i` may be reused: empty, or (no frame being empty) the unpinned one wanted longest ago. */
  ghost predicate LeastWanted(slots: seq<Slot>, wants: seq<nat>, i: nat) {
    && i < |slots| && !slots[i].pinned
    && (slots[i].block.Some? ==>
          && (forall j | 0 <= j < |slots| :: slots[j].block.Some?)
          && forall j | 0 <= j < |slots| && j != i && !slots[j].pinned ::
               LastWanted(wants, slots[i].block.value) < LastWanted(wants, slots[j].block.value))
  }

  ghost predicate AllPinned(slots: seq<Slot>) {
    forall i | 0 <= i < |slots| :: slots[i].pinned
  }

  /** Exactly one frame is free to use, and neither block is held in a pinned one. */
  ghost predicate Cramped(slots: seq<Slot>, from: nat, to: nat) {
    && (exists u | 0 <= u < |slots| :: OnlyUnpinned(slots, u))
    && forall i | 0 <= i < |slots| && slots[i].pinned ::
         slots[i].block != Some(from) && slots[i].block != Some(to)
  }

  ghost predicate OnlyUnpinned(slots: seq<Slot>, u: nat) {
    u < |slots| && !slots[u].pinned && forall i | 0 <= i < |slots| && i != u :: slots[i].pinned
  }

  /** The promise of a step that writes: one entry of the map changes, and only it may newly wait. */
  ghost predicate Sets(st: State, h: seq<Disk>, st': State, h': seq<Disk>, block: nat, bytes: Block) {
    && Coherent(st) && Coherent(st') && block < |st.disk|
    && View(st') == View(st)[block := bytes]
    && Dirty(st'.slots) <= Dirty(st.slots) + {block}
    && Spills(h, h', View(st), Dirty(st.slots))
    && PinsKept(st.slots, st'.slots)
  }

  lemma OverwriteIs(st: State, i: nat, block: nat, used: nat, bytes: Block, h: seq<Disk>)
    requires MayTake(st, i, block) && 0 < |h|
    requires st.slots[i].pinned ==> st.slots[i].block == Some(block)
    ensures Sets(st, h, Overwritten(st, i, block, used, bytes), h, block, bytes)
    ensures Coherent(Overwritten(st, i, block, used, bytes))
  {
    OverwriteSets(st, i, block, used, bytes);
  }

  /** Looking and then writing is writing. */
  lemma LooksThenSets(a: State, h: seq<Disk>, b: State, h': seq<Disk>, c: State, block: nat, bytes: Block)
    requires Looks(a, h, b, h') && Sets(b, h', c, h', block, bytes)
    ensures Sets(a, h, c, h', block, bytes)
  {
  }

  lemma LooksPins(st: State, h: seq<Disk>, st': State, h': seq<Disk>)
    requires Looks(st, h, st', h')
    ensures PinsKept(st.slots, st'.slots) && (AllPinned(st'.slots) <==> AllPinned(st.slots))
  {
  }

  /** Nobody outside holds any frame. */
  ghost predicate Free(slots: seq<Slot>) {
    forall i | 0 <= i < |slots| :: !slots[i].pinned
  }

  lemma FreeHelps(slots: seq<Slot>, from: nat, to: nat)
    requires 2 <= |slots|
    ensures Free(slots) ==> !AllPinned(slots) && !Cramped(slots, from, to)
  {
    if Free(slots) {
      assert !slots[0].pinned && !slots[1].pinned;
    }
  }
}
