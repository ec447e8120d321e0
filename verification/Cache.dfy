/** The block device and the write-back cache in front of it. */
module PageCache {
  import opened Words
  import opened Blocks
  import opened CacheModel

  const MAX_FRAMES: nat := 64
  const MIN_FRAMES: nat := 2

  /**
   A block device that may fail any read and refuse any write. A refused write
   changes nothing and a failed read hands back nothing. `history` is every
   state the device has been in, so a machine that stops leaves one of them, and
   `faults` counts the calls that failed.
   */
  class Device {
    var blocks: Disk
    var history: seq<Disk>
    var refused: bool
    var faults: nat

    ghost predicate Valid()
      reads this
    {
      && (refused ==> 0 < faults)
      && 0 < |history| && history[|history| - 1] == blocks
      && forall k | 0 <= k < |history| :: |history[k]| == |blocks|
    }

    constructor (disk: Disk)
      ensures Valid() && blocks == disk && history == [disk] && !refused && faults == 0
    {
      blocks, history, refused, faults := disk, [disk], false, 0;
    }

    /** A device that has failed has failed, and what it held it held. */
    twostate predicate Ages()
      reads this
    {
      (old(refused) ==> refused) && (refused ==> old(refused) || old(faults) < faults) && old(faults) <= faults && old(history) <= history
    }

    /** The device has failed since. */
    twostate predicate Failed()
      reads this
    {
      old(faults) < faults
    }

    method Read(block: nat) returns (r: Result<Block, FsError>)
      requires Valid()
      modifies this`faults
      ensures Valid()
      ensures block >= |blocks| ==> r == Err(OutOfRange)
      ensures block < |blocks| ==> r == Ok(blocks[block]) || r == Err(Interrupted)
      ensures faults == old(faults) + if r == Err(Interrupted) then 1 else 0
    {
      if block >= |blocks| {
        return Err(OutOfRange);
      }
      if * {
        faults := faults + 1;
        return Err(Interrupted);
      }
      return Ok(blocks[block]);
    }

    method Write(block: nat, bytes: Block) returns (r: Result<(), FsError>)
      requires Valid()
      modifies this
      ensures Valid()
      ensures block >= |old(blocks)| ==> r == Err(OutOfRange)
      ensures block < |old(blocks)| ==> r == Ok(()) || r == Err(Interrupted)
      ensures r.Ok? ==> blocks == old(blocks)[block := bytes] && history == old(history) + [blocks]
      ensures r.Err? ==> blocks == old(blocks) && history == old(history)
      ensures refused == (old(refused) || r == Err(Interrupted))
      ensures faults == old(faults) + if r == Err(Interrupted) then 1 else 0
    {
      if block >= |blocks| {
        return Err(OutOfRange);
      }
      if * {
        refused, faults := true, faults + 1;
        return Err(Interrupted);
      }
      blocks := blocks[block := bytes];
      history := history + [blocks];
      return Ok(());
    }
  }

  predicate IoError(e: FsError) {
    e == OutOfRange || e == Full || e == Interrupted
  }

  class Cache {
    const store: Device
    const count: nat
    var slots: seq<Slot>
    var frames: seq<Block>
    var clock: nat
    var hits: nat
    var misses: nat
    var written: nat
    ghost var wants: seq<nat>

    constructor (frameCount: nat, device: Device)
      requires MIN_FRAMES <= frameCount <= MAX_FRAMES && device.Valid()
      ensures Valid()
      ensures store == device && count == frameCount && wants == [] && hits == misses == written == 0
      ensures View() == device.blocks && Waiting() == {}
      ensures forall i | 0 <= i < count :: slots[i] == EMPTY
    {
      store, count := device, frameCount;
      slots := seq(frameCount, _ => EMPTY);
      frames := seq(frameCount, _ => ZERO);
      clock, hits, misses, written, wants := 0, 0, 0, 0, [];
      new;
      NothingResident(Now());
    }

    /** A cache over `memory` bytes of frames: as many whole blocks as they hold, no more than 64, and refused below two. */
    static method New(memory: nat, device: Device) returns (r: Result<Cache, FsError>)
      requires device.Valid()
      ensures r.Err? <==> memory < MIN_FRAMES * BLOCK
      ensures r.Err? ==> r.error == OutOfRange
      ensures r.Ok? ==> fresh(r.value) && r.value.Valid() && r.value.store == device && r.value.View() == device.blocks
                        && r.value.Waiting() == {} && r.value.hits == r.value.misses == r.value.written == 0
                        && r.value.count * BLOCK <= memory
                        && (r.value.count == MAX_FRAMES || memory < (r.value.count + 1) * BLOCK)
    {
      var frames := if memory / BLOCK < MAX_FRAMES then memory / BLOCK else MAX_FRAMES;
      if frames < MIN_FRAMES {
        return Err(OutOfRange);
      }
      var cache := new Cache(frames, device);
      return Ok(cache);
    }

    ghost function Repr(): set<object> {
      {this, store}
    }

    ghost function Now(): (st: State)
      reads this, store
    {
      State(slots, frames, store.blocks)
    }

    ghost predicate Valid()
      reads this, store
    {
      && MIN_FRAMES <= count <= MAX_FRAMES && |slots| == |frames| == count
      && store.Valid()
      && Coherent(Now())
      && |wants| == clock
      && Timed(slots, wants)
    }

    /** What a reader sees, block by block. */
    ghost function View(): (v: Disk)
      requires Valid()
      reads this, store
      ensures |v| == |store.blocks|
    {
      CacheModel.View(Now())
    }

    /** The blocks waiting to be written. */
    ghost function Waiting(): (s: set<nat>)
      reads this
    {
      Dirty(slots)
    }

    method Resident(block: nat) returns (r: Option<nat>)
      requires Valid()
      ensures r == Find(slots, block)
    {
      var i := 0;
      while i < count
        invariant 0 <= i <= count
        invariant forall j | 0 <= j < i :: slots[j].block != Some(block)
      {
        if slots[i].block == Some(block) {
          FindSlot(Now(), i);
          return Some(i);
        }
        i := i + 1;
      }
      return None;
    }

    /** The frame to use next: an empty one, or else the least recently wanted unpinned one. */
    method Victim() returns (r: Option<nat>)
      requires Valid()
      ensures r.None? <==> AllPinned(Now().slots)
      ensures r.Some? ==> LeastWanted(Now().slots, wants, r.value)
    {
      var free := 0;
      while free < count
        invariant 0 <= free <= count
        invariant forall i | 0 <= i < free :: slots[i].block.Some?
      {
        if slots[free].block.None? {
          assert SlotOk(Now().slots[free], Now().frames[free], Now().disk);
          return Some(free);
        }
        free := free + 1;
      }
      var oldest: Option<nat> := None;
      var i := 0;
      while i < count
        invariant 0 <= i <= count
        invariant oldest.Some? ==> oldest.value < i && !slots[oldest.value].pinned
        invariant oldest.None? ==> forall j | 0 <= j < i :: slots[j].pinned
        invariant oldest.Some? ==> forall j | 0 <= j < i && !slots[j].pinned :: slots[oldest.value].used <= slots[j].used
      {
        if !slots[i].pinned {
          if oldest.None? || slots[i].used < slots[oldest.value].used {
            oldest := Some(i);
          }
        }
        i := i + 1;
      }
      if oldest.Some? {
        forall j | 0 <= j < count && j != oldest.value && !slots[j].pinned
          ensures LastWanted(wants, slots[oldest.value].block.value) < LastWanted(wants, slots[j].block.value)
        {
          UsedApart(Now(), wants, oldest.value, j);
        }
      }
      return oldest;
    }

    /** Every operation that only looks leaves a reader seeing what it saw. */
    twostate predicate Looked()
      reads this, store
    {
      && old(Valid()) && Valid() && store.Ages()
      && Looks(old(Now()), old(store.history), Now(), store.history)
    }

    /** Writes one frame back, if it needs it; a refused write leaves it waiting. */
    method WriteBack(slot: nat) returns (r: Result<(), FsError>)
      requires Valid() && slot < count
      modifies this`written, this`slots, store
      ensures Looked()
      ensures r == Ok(()) || (r == Err(Interrupted) && store.refused && store.Failed())
      ensures r.Ok? ==> Now().slots == old(Now()).slots[slot := old(slots[slot]).(dirty := false)]
      ensures r.Err? ==> Now() == old(Now())
      ensures |store.blocks| == |old(store.blocks)|
      ensures |store.history| == |old(store.history)| + if r.Ok? && old(slots[slot]).dirty then 1 else 0
      ensures written == old(written) + |store.history| - |old(store.history)|
      ensures r.Ok? ==> store.history == old(store.history) + Spilled(old(Now()), slot)
    {
      hide Looks, Timed, Coherent;
      ghost var before := Now();
      ghost var history := store.history;
      if !slots[slot].dirty {
        LooksSame(before, history);
        return Ok(());
      }
      DirtyNames(before, slot);
      var wrote := store.Write(slots[slot].block.value, frames[slot]);
      if wrote.Err? {
        LooksSame(before, history);
        return wrote;
      }
      slots := slots[slot := slots[slot].(dirty := false)];
      written := written + 1;
      assert Now() == Cleaned(before, slot);
      CleanLooks(before, slot, history);
      CleanTimed(before.slots, slot, wants);
      return Ok(());
    }

    /** Marks a resident frame wanted now. */
    method Want(slot: nat)
      requires Valid() && slot < count && slots[slot].block.Some?
      modifies this`clock, this`wants, this`slots
      ensures Looked()
      ensures Now() == Touched(old(Now()), slot, clock)
      ensures wants == old(wants) + [slots[slot].block.value]
    {
      hide Looks, Timed, Coherent;
      ghost var before := Now();
      clock := clock + 1;
      slots := slots[slot := slots[slot].(used := clock)];
      assert Now() == Touched(before, slot, clock);
      TouchLooks(before, slot, clock, store.history);
      FindSlot(before, slot);
      WantKeepsTime(before.slots, wants, slot, slots[slot]);
      wants := wants + [slots[slot].block.value];
    }

    /** Reads `block` into a clean frame and gives the frame to it. */
    method Load(slot: nat, block: nat) returns (r: Result<(), FsError>)
      requires Valid() && slot < count && !slots[slot].dirty && !slots[slot].pinned
      requires block < |store.blocks| && Find(Now().slots, block).None?
      modifies this`clock, this`wants, this`misses, this`slots, this`frames, store`faults
      ensures Looked()
      ensures r == Ok(()) || (r == Err(Interrupted) && store.Failed())
      ensures r.Ok? ==> Now() == Reloaded(old(Now()), slot, block, clock) && wants == old(wants) + [block]
      ensures r.Err? ==> Now() == old(Now()) && wants == old(wants)
      ensures misses == old(misses) + if r.Ok? then 1 else 0
      ensures store.history == old(store.history)
    {
      hide Looks, Timed, Coherent;
      ghost var before := Now();
      var bytes := store.Read(block);
      if bytes.Err? {
        LooksSame(before, store.history);
        return Err(bytes.error);
      }
      frames := frames[slot := bytes.value];
      misses := misses + 1;
      clock := clock + 1;
      slots := slots[slot := Slot(Some(block), false, clock, false)];
      assert Now() == Reloaded(before, slot, block, clock);
      ReloadLooks(before, slot, block, clock, store.history);
      WantKeepsTime(before.slots, wants, slot, slots[slot]);
      wants := wants + [block];
      return Ok(());
    }

    /** Gives a frame nobody holds to `block`, writing back what it held first. */
    method Refill(slot: nat, block: nat) returns (r: Result<(), FsError>)
      requires Valid() && slot < count && !slots[slot].pinned && block < |store.blocks| && Find(Now().slots, block).None?
      modifies Repr()
      ensures Looked()
      ensures r == Ok(()) || (r == Err(Interrupted) && store.Failed() && wants == old(wants))
      ensures r.Ok? ==> wants == old(wants) + [block] && store.history == old(store.history) + Spilled(old(Now()), slot)
      ensures r.Ok? ==> slots[slot].block == Some(block) && !slots[slot].dirty && !slots[slot].pinned
      ensures r.Ok? ==> forall i | 0 <= i < count && i != slot :: slots[i] == old(slots)[i]
      ensures written == old(written) + |store.history| - |old(store.history)| && hits == old(hits)
      ensures misses == old(misses) + if r.Ok? then 1 else 0
    {
      hide Looks, Timed, Coherent, LeastWanted, Spilled;
      ghost var before, history := Now(), store.history;
      r := WriteBack(slot);
      if r.Err? {
        return;
      }
      ghost var cleaned, history' := Now(), store.history;
      SameFind(before.slots, cleaned.slots);
      r := Load(slot, block);
      LooksJoin(before, history, cleaned, history', Now(), store.history);
    }

    /** Finds a frame for `block`, reading it in if it is not there. */
    method Admit(block: nat) returns (r: Result<nat, FsError>)
      requires Valid()
      modifies Repr()
      ensures Looked()
      ensures r == Err(OutOfRange) <==> block >= |old(store.blocks)|
      ensures r == Err(Full) <==> block < |old(store.blocks)| && Find(old(Now()).slots, block).None? && AllPinned(old(Now()).slots)
      ensures r.Err? ==> wants == old(wants) && IoError(r.error)
      ensures r == Err(Interrupted) ==> store.Failed()
      ensures r.Ok? ==> wants == old(wants) + [block]
      ensures r.Ok? ==> r.value < count && slots[r.value].block == Some(block)
      ensures r.Ok? ==> forall i | 0 <= i < count && i != r.value :: slots[i] == old(slots)[i]
      ensures r.Ok? ==> slots[r.value].pinned == old(slots)[r.value].pinned
      ensures r.Ok? && slots[r.value].pinned ==> old(slots)[r.value].block == Some(block)
      ensures Find(old(Now()).slots, block).Some? && block < |old(store.blocks)| ==> r == Ok(Find(old(Now()).slots, block).value)
      ensures r.Ok? && Find(old(Now()).slots, block).None? ==> LeastWanted(old(Now()).slots, old(wants), r.value)
      ensures r.Ok? ==> Fetched(old(Now()), old(wants), old(store.history), Now(), store.history, block, r.value)
      ensures written == old(written) + |store.history| - |old(store.history)|
      ensures hits == old(hits) + if r.Ok? && Find(old(Now()).slots, block).Some? then 1 else 0
      ensures misses == old(misses) + if r.Ok? && Find(old(Now()).slots, block).None? then 1 else 0
    {
      hide Looks, Timed, Coherent, LeastWanted, Spilled;
      ghost var before := Now();
      ghost var history := store.history;
      if block >= |store.blocks| {
        LooksSame(before, history);
        return Err(OutOfRange);
      }
      var found := Resident(block);
      if found.Some? {
        hits := hits + 1;
        Want(found.value);
        return Ok(found.value);
      }
      var victim := Victim();
      if victim.None? {
        LooksSame(before, history);
        return Err(Full);
      }
      VictimUnpinned(before.slots, wants, victim.value);
      var refilled := Refill(victim.value, block);
      if refilled.Err? {
        return Err(refilled.error);
      }
      return Ok(victim.value);
    }

    /** Exactly one entry of what a reader sees changed. */
    twostate predicate Changed(block: nat, bytes: Block)
      reads this, store
    {
      && old(Valid()) && Valid() && store.Ages()
      && Sets(old(Now()), old(store.history), Now(), store.history, block, bytes)
    }

    /** The bytes of `block`. */
    method Page(block: nat) returns (r: Result<Block, FsError>)
      requires Valid()
      modifies Repr()
      ensures Looked()
      ensures r.Ok? ==> block < |View()| && r.value == View()[block] && wants == old(wants) + [block]
      ensures r.Ok? ==> Find(slots, block).Some?
                        && Fetched(old(Now()), old(wants), old(store.history), Now(), store.history, block, Find(slots, block).value)
      ensures r == Err(OutOfRange) <==> block >= |old(store.blocks)|
      ensures r == Err(Full) ==> AllPinned(old(slots))
      ensures r == Err(Interrupted) ==> store.Failed()
      ensures r.Err? ==> IoError(r.error)
    {
      var slot := Admit(block);
      if slot.Err? {
        return Err(slot.error);
      }
      FindSlot(Now(), slot.value);
      return Ok(frames[slot.value]);
    }

    /** Holds the frame `block` is in, and says which; every other pin stands. */
    method Pin(block: nat) returns (r: Result<nat, FsError>)
      requires Valid()
      modifies Repr()
      ensures Valid() && View() == old(View()) && Waiting() <= old(Waiting())
      ensures Spills(old(store.history), store.history, old(View()), old(Waiting()))
      ensures r.Err? ==> PinsKept(old(slots), slots) && IoError(r.error) && wants == old(wants)
      ensures r == Err(OutOfRange) <==> block >= |old(store.blocks)|
      ensures r == Err(Full) <==> block < |old(store.blocks)| && Find(old(slots), block).None? && AllPinned(old(slots))
      ensures r == Err(Interrupted) ==> store.Failed()
      ensures r.Ok? ==> wants == old(wants) + [block]
      ensures r.Ok? ==> r.value < count && slots[r.value].block == Some(block) && slots[r.value].pinned
                        && PinsKept(old(slots), slots[r.value := slots[r.value].(pinned := old(slots)[r.value].pinned)])
    {
      hide Timed, Spills, Coherent, AllPinned, LeastWanted;
      r := Admit(block);
      if r.Ok? {
        ghost var admitted := Now();
        slots := slots[r.value := slots[r.value].(pinned := true)];
        PinShows(admitted, r.value);
        PinTimed(admitted.slots, r.value, wants, true);
      }
    }

    /** Lets go of a frame; every other pin stands. */
    method Unpin(slot: nat)
      requires Valid()
      modifies this`slots
      ensures Valid() && View() == old(View()) && Waiting() == old(Waiting())
      ensures |slots| == |old(slots)|
      ensures slot < count ==> slots[slot] == old(slots[slot]).(pinned := false)
      ensures forall i | 0 <= i < count && i != slot :: slots[i] == old(slots[i])
    {
      if slot < count {
        ghost var before := Now();
        slots := slots[slot := slots[slot].(pinned := false)];
        RelabelKeeps(before, slots);
        PinTimed(before.slots, slot, wants, false);
      }
    }

    /** Forgets every frame nobody holds, writing nothing: a reader sees the device there. */
    method Forget()
      requires Valid()
      modifies this`slots
      ensures Valid() && PinsKept(old(slots), slots)
      ensures forall b | 0 <= b < |View()| ::
                View()[b] == if Find(slots, b).Some? then old(View())[b] else store.blocks[b]
      ensures forall i | 0 <= i < count :: slots[i].block.Some? <==> old(slots[i]).pinned
    {
      ghost var before := Now();
      var i := 0;
      while i < count
        invariant 0 <= i <= count == |slots|
        invariant forall j | 0 <= j < i :: slots[j] == if before.slots[j].pinned then before.slots[j] else EMPTY
        invariant forall j | i <= j < count :: slots[j] == before.slots[j]
      {
        if !slots[i].pinned {
          slots := slots[i := EMPTY];
        }
        i := i + 1;
      }
      ForgetKeeps(before, slots, wants);
    }

    /** Gives a frame that may take it the whole of `block`. */
    method Overwrite(slot: nat, block: nat, bytes: Block)
      requires Valid() && MayTake(Now(), slot, block)
      requires slots[slot].pinned ==> slots[slot].block == Some(block)
      modifies this`slots, this`frames, this`clock, this`wants
      ensures Changed(block, bytes)
      ensures wants == old(wants) + [block]
    {
      hide Sets, Timed, Coherent;
      ghost var before := Now();
      frames := frames[slot := bytes];
      clock := clock + 1;
      slots := slots[slot := Slot(Some(block), true, clock, slots[slot].pinned)];
      assert Now() == Overwritten(before, slot, block, clock, bytes);
      OverwriteIs(before, slot, block, clock, bytes, store.history);
      OnlyHolder(before, slot, block);
      WantKeepsTime(before.slots, wants, slot, slots[slot]);
      wants := wants + [block];
    }

    /** Replaces `block` entirely, without reading it first. */
    method Put(block: nat, from: Bytes) returns (r: Result<(), FsError>)
      requires Valid()
      modifies Repr()
      ensures r.Ok? ==> |from| >= BLOCK && Changed(block, from[..BLOCK]) && wants == old(wants) + [block]
      ensures r.Err? ==> Looked() && wants == old(wants)
      ensures r == Err(OutOfRange) <==> block >= |old(store.blocks)| || |from| < BLOCK
      ensures r == Err(Full) <==> block < |old(store.blocks)| && |from| >= BLOCK
                                  && Find(old(slots), block).None? && AllPinned(old(slots))
      ensures r.Err? ==> IoError(r.error) && (r.error == Interrupted ==> store.Failed())
      ensures written == old(written) + |store.history| - |old(store.history)| && misses == old(misses)
      ensures hits == old(hits) + if r.Ok? && Find(old(slots), block).Some? then 1 else 0
    {
      hide Looks, Sets, Timed, Coherent, LeastWanted;
      ghost var before, history := Now(), store.history;
      LooksSame(before, history);
      if block >= |store.blocks| || |from| < BLOCK {
        return Err(OutOfRange);
      }
      var found := Resident(block);
      if found.Some? {
        hits := hits + 1;
        Overwrite(found.value, block, from[..BLOCK]);
        return Ok(());
      }
      var victim := Victim();
      if victim.None? {
        return Err(Full);
      }
      VictimUnpinned(before.slots, wants, victim.value);
      var wrote := WriteBack(victim.value);
      if wrote.Err? {
        return wrote;
      }
      ghost var cleaned, history' := Now(), store.history;
      SameFind(before.slots, cleaned.slots);
      Overwrite(victim.value, block, from[..BLOCK]);
      LooksThenSets(before, history, cleaned, history', Now(), block, from[..BLOCK]);
      return Ok(());
    }

    /** Lets the caller change the bytes of `block` where they are. */
    method Edit(block: nat, change: Block -> Block) returns (r: Result<(), FsError>)
      requires Valid()
      modifies Repr()
      ensures r.Ok? ==> block < |old(View())| && Changed(block, change(old(View())[block])) && wants == old(wants) + [block]
      ensures r.Err? ==> Looked()
      ensures r == Err(OutOfRange) <==> block >= |old(store.blocks)|
      ensures r == Err(Full) ==> AllPinned(old(slots))
      ensures r.Err? ==> IoError(r.error) && (r.error == Interrupted ==> store.Failed())
    {
      hide Looks, Sets, Timed, Coherent, AllPinned, LeastWanted;
      ghost var before, history := Now(), store.history;
      var admitted := Admit(block);
      if admitted.Err? {
        return Err(admitted.error);
      }
      var slot := admitted.value;
      ghost var loaded, history' := Now(), store.history;
      FindSlot(loaded, slot);
      LooksSees(before, history, loaded, history');
      frames := frames[slot := change(frames[slot])];
      slots := slots[slot := slots[slot].(dirty := true)];
      EditIs(loaded, slot, Now().frames[slot], history');
      LooksThenSets(before, history, loaded, history', Now(), block, Now().frames[slot]);
      DirtyTimed(loaded.slots, slot, wants);
      return Ok(());
    }

    /** Admits a block and wants it again, so that it is the last to be given away. */
    method AdmitTwice(block: nat) returns (r: Result<nat, FsError>)
      requires Valid()
      modifies Repr()
      ensures Looked()
      ensures r == Err(OutOfRange) <==> block >= |old(store.blocks)|
      ensures r == Err(Full) ==> AllPinned(old(slots))
      ensures r.Err? ==> IoError(r.error) && (r.error == Interrupted ==> store.Failed())
      ensures r.Ok? ==> wants == old(wants) + [block, block] && Brought(old(slots), slots, block, r.value) && slots[r.value].used == |wants|
      ensures r.Ok? ==> Fetched(old(Now()), old(wants), old(store.history), Now(), store.history, block, r.value)
    {
      hide Looks, Timed, LeastWanted, Coherent, Fetched, AllPinned, Spilled, CacheModel.View;
      ghost var before, history := Now(), store.history;
      r := Admit(block);
      if r.Err? {
        return;
      }
      ghost var mid, midway := Now(), store.history;
      Want(r.value);
      TouchFetched(before, old(wants), history, mid, midway, block, r.value, clock);
      LooksJoin(before, history, mid, midway, Now(), store.history);
    }

    /** Admits two blocks in turn, so that bringing in the second spares the first if it can. */
    method AdmitBoth(from: nat, to: nat) returns (r: Result<(nat, nat), FsError>, ghost mid: State, ghost midway: seq<Disk>)
      requires Valid() && from != to
      modifies Repr()
      ensures Looked()
      ensures r.Err? && r.error == OutOfRange ==> from >= |old(store.blocks)| || to >= |old(store.blocks)|
      ensures r.Err? && r.error == Full ==> AllPinned(old(slots))
      ensures r.Err? ==> IoError(r.error) && (r.error == Interrupted ==> store.Failed())
      ensures r.Ok? ==> r.value.0 < count && r.value.1 < count && slots[r.value.1].block == Some(to)
      ensures r.Ok? ==> wants == old(wants) + [from, from, to]
      ensures r.Ok? ==> (r.value.0 == r.value.1 <==> Cramped(old(slots), from, to))
      ensures r.Ok? && r.value.0 != r.value.1 ==> slots[r.value.0].block == Some(from)
      ensures r.Ok? ==> && Looks(old(Now()), old(store.history), mid, midway) && midway[|midway| - 1] == mid.disk
                        && Fetched(old(Now()), old(wants), old(store.history), mid, midway, from, r.value.0)
                        && Fetched(mid, old(wants) + [from, from], midway, Now(), store.history, to, r.value.1)
    {
      hide Looks, Timed, LeastWanted, Coherent, Cramped, Fetched, AllPinned, Spilled, CacheModel.View;
      ghost var before, history := Now(), store.history;
      var source := AdmitTwice(from);
      mid, midway := Now(), store.history;
      if source.Err? {
        return Err(source.error), mid, midway;
      }
      ghost var wants1 := wants;
      LooksSees(before, history, mid, midway);
      LooksPins(before, history, mid, midway);
      var destination := Admit(to);
      LooksJoin(before, history, mid, midway, Now(), store.history);
      if destination.Err? {
        return Err(destination.error), mid, midway;
      }
      Squeezed(before.slots, mid, wants1, from, to, source.value, destination.value);
      return Ok((source.value, destination.value)), mid, midway;
    }

    /** Copies one block over another without leaving the cache. */
    method Copy(from: nat, to: nat) returns (r: Result<(), FsError>, ghost trail: Trail)
      requires Valid()
      modifies Repr()
      ensures from == to ==> r == Ok(()) && Looked()
      ensures r.Ok? && from != to ==>
                && from < |old(View())| && to < |old(View())| && Changed(to, old(View())[from])
                && wants == old(wants) + [from, from, to]
      ensures r.Err? ==> Looked() && IoError(r.error) && (r.error == Interrupted ==> store.Failed())
      ensures r == Err(Full) ==> AllPinned(old(slots))
      ensures r == Err(OutOfRange) ==>
                from != to && (from >= |old(store.blocks)| || to >= |old(store.blocks)| || Cramped(old(slots), from, to))
      ensures from != to && Cramped(old(slots), from, to) ==> r.Err?
      ensures r.Ok? && from != to ==> Copied(old(Now()), old(wants), old(store.history), trail, slots, store.history, from, to)
    {
      hide Looks, Sets, Timed, Cramped, Coherent, Fetched;
      ghost var before, history := Now(), store.history;
      trail := Trail(before, history, before, 0, 0);
      if from == to {
        LooksSame(before, history);
        return Ok(()), trail;
      }
      var pair, mid, midway := AdmitBoth(from, to);
      if pair.Err? {
        return Err(pair.error), trail;
      }
      var (source, destination) := pair.value;
      if source == destination {
        return Err(OutOfRange), trail;
      }
      ghost var both, history' := Now(), store.history;
      FindSlot(both, source);
      FindSlot(both, destination);
      LooksSees(before, history, both, history');
      frames := frames[destination := frames[source]];
      slots := slots[destination := slots[destination].(dirty := true)];
      EditIs(both, destination, Now().frames[destination], history');
      LooksThenSets(before, history, both, history', Now(), to, Now().frames[destination]);
      DirtyTimed(both.slots, destination, wants);
      return Ok(()), Trail(mid, midway, both, source, destination);
    }

    /** Writes every waiting block back; afterwards the device is what a reader sees. */
    method Flush() returns (r: Result<nat, FsError>)
      requires Valid()
      modifies Repr()
      ensures Looked()
      ensures r.Ok? ==> Waiting() == {} && store.blocks == View() && r.value == |store.history| - |old(store.history)|
      ensures r.Err? ==> r == Err(Interrupted) && store.refused && store.Failed()
      ensures wants == old(wants) && written == old(written) + |store.history| - |old(store.history)|
    {
      hide Looks, Timed, Coherent;
      ghost var before, history := Now(), store.history;
      LooksSame(before, history);
      var went, slot := 0, 0;
      while slot < count
        invariant 0 <= slot <= count
        invariant Valid() && wants == old(wants) && store.Ages()
        invariant Looks(before, history, Now(), store.history)
        invariant forall j | 0 <= j < slot :: !slots[j].dirty
        invariant went == |store.history| - |history| && written == old(written) + went
      {
        if slots[slot].dirty {
          ghost var now, history' := Now(), store.history;
          var wrote := WriteBack(slot);
          LooksJoin(before, history, now, history', Now(), store.history);
          if wrote.Err? {
            return Err(wrote.error);
          }
          went := went + 1;
        }
        slot := slot + 1;
      }
      AllClean(Now());
      return Ok(went);
    }
  }

  /** What giving a frame up puts on the device. */
  ghost function Spilled(st: State, i: nat): seq<Disk> {
    if i < |st.slots| == |st.frames| && st.slots[i].dirty && st.slots[i].block.Some? && st.slots[i].block.value < |st.disk|
    then [st.disk[st.slots[i].block.value := st.frames[i]]] else []
  }

  /** Frame `i` holds `block`, every other frame what it did; a block not there took the frame wanted longest ago. */
  ghost predicate Fetched(st: State, wants: seq<nat>, h: seq<Disk>, st': State, h': seq<Disk>, block: nat, i: nat) {
    && i < |st.slots| == |st'.slots| && st'.slots[i].block == Some(block)
    && (forall j | 0 <= j < |st.slots| && j != i :: st'.slots[j] == st.slots[j])
    && match Find(st.slots, block)
       case Some(k) => i == k && st'.slots[i].dirty == st.slots[i].dirty && h' == h
       case None => LeastWanted(st.slots, wants, i) && !st'.slots[i].dirty && h' == h + Spilled(st, i)
  }

  lemma TouchFetched(st: State, wants: seq<nat>, h: seq<Disk>, st': State, h': seq<Disk>, block: nat, i: nat, used: nat)
    requires Fetched(st, wants, h, st', h', block, i)
    ensures i < |st'.slots| && Fetched(st, wants, h, Touched(st', i, used), h', block, i)
  {
    hide LeastWanted, Spilled;
  }

  /** What a copy went through: the cache and the device between its two admissions, and after both. */
  datatype Trail = Trail(mid: State, midway: seq<Disk>, both: State, source: nat, destination: nat)

  /** Both blocks were fetched in turn, and the second then waits. */
  ghost predicate Copied(st: State, wants: seq<nat>, h: seq<Disk>, t: Trail, slots: seq<Slot>, h': seq<Disk>, from: nat, to: nat) {
    && Looks(st, h, t.mid, t.midway) && t.midway[|t.midway| - 1] == t.mid.disk
    && Fetched(st, wants, h, t.mid, t.midway, from, t.source)
    && Fetched(t.mid, wants + [from, from], t.midway, t.both, h', to, t.destination)
    && t.source != t.destination
    && slots == t.both.slots[t.destination := t.both.slots[t.destination].(dirty := true)]
  }

  lemma DirtyNames(st: State, i: nat)
    requires Coherent(st) && i < |st.slots| && st.slots[i].dirty
    ensures st.slots[i].block.Some? && st.slots[i].block.value < |st.disk|
  {
    assert SlotOk(st.slots[i], st.frames[i], st.disk);
  }

  lemma PinShows(st: State, i: nat)
    requires Coherent(st) && i < |st.slots| && st.slots[i].block.Some?
    ensures Coherent(PinSet(st, i, true)) && View(PinSet(st, i, true)) == View(st)
    ensures Dirty(PinSet(st, i, true).slots) == Dirty(st.slots)
  {
    assert forall j | 0 <= j < |st.slots| :: SlotOk(st.slots[j], st.frames[j], st.disk);
    RelabelKeeps(st, PinSet(st, i, true).slots);
  }

  lemma PinTimed(slots: seq<Slot>, i: nat, wants: seq<nat>, pinned: bool)
    requires Timed(slots, wants) && i < |slots|
    ensures Timed(slots[i := slots[i].(pinned := pinned)], wants)
  {
  }

  ghost predicate Forgotten(before: seq<Slot>, after: seq<Slot>) {
    |after| == |before|
    && forall j | 0 <= j < |after| :: after[j] == if before[j].pinned then before[j] else EMPTY
  }

  lemma ForgetKeeps(st: State, slots: seq<Slot>, wants: seq<nat>)
    requires Coherent(st) && Timed(st.slots, wants) && Forgotten(st.slots, slots)
    ensures Coherent(st.(slots := slots)) && Timed(slots, wants) && PinsKept(st.slots, slots)
    ensures forall i | 0 <= i < |slots| :: slots[i].block.Some? <==> st.slots[i].pinned
    ensures forall b | 0 <= b < |st.disk| ::
              View(st.(slots := slots))[b] == if Find(slots, b).Some? then View(st)[b] else st.disk[b]
  {
    hide Find, Timed;
    assert forall j | 0 <= j < |slots| :: SlotOk(st.slots[j], st.frames[j], st.disk);
    ForgetTimed(st.slots, slots, wants);
    forall b | 0 <= b < |st.disk| && Find(slots, b).Some?
      ensures Find(st.slots, b) == Find(slots, b)
    {
      FindSlot(st, Find(slots, b).value);
    }
  }

  lemma ForgetTimed(before: seq<Slot>, after: seq<Slot>, wants: seq<nat>)
    requires Timed(before, wants) && Forgotten(before, after)
    ensures Timed(after, wants)
  {
  }

  lemma OnlyHolder(st: State, i: nat, block: nat)
    requires MayTake(st, i, block)
    ensures forall j | 0 <= j < |st.slots| && st.slots[j].block == Some(block) :: j == i
  {
  }

  /** Marking a frame changed and changing it is an overwrite of its own block. */
  lemma EditIs(st: State, i: nat, bytes: Block, h: seq<Disk>)
    requires Coherent(st) && i < |st.slots| && st.slots[i].block.Some? && 0 < |h|
    ensures var st' := st.(slots := st.slots[i := st.slots[i].(dirty := true)], frames := st.frames[i := bytes]);
            Sets(st, h, st', h, st.slots[i].block.value, bytes) && Coherent(st')
  {
    FindSlot(st, i);
    assert SlotOk(st.slots[i], st.frames[i], st.disk);
    OverwriteIs(st, i, st.slots[i].block.value, st.slots[i].used, bytes, h);
  }

  lemma DirtyTimed(slots: seq<Slot>, i: nat, wants: seq<nat>)
    requires Timed(slots, wants) && i < |slots|
    ensures Timed(slots[i := slots[i].(dirty := true)], wants)
  {
  }

  lemma LooksSees(a: State, h: seq<Disk>, b: State, h': seq<Disk>)
    requires Looks(a, h, b, h')
    ensures |a.slots| == |a.frames| && |b.slots| == |b.frames| && View(b) == View(a)
    ensures |b.disk| == |a.disk|
  {
  }

  lemma AllClean(st: State)
    requires Coherent(st) && forall i | 0 <= i < |st.slots| :: !st.slots[i].dirty
    ensures Dirty(st.slots) == {} && View(st) == st.disk
  {
    forall b | 0 <= b < |st.disk|
      ensures View(st)[b] == st.disk[b]
    {
      CleanAgrees(st, b);
    }
  }

  /** `before` became `after` by bringing `from` into frame `i`, which changes no pin. */
  ghost predicate Brought(before: seq<Slot>, after: seq<Slot>, from: nat, i: nat) {
    && |after| == |before| && i < |after| && after[i].block == Some(from)
    && after[i].pinned == before[i].pinned && (before[i].pinned ==> before[i].block == Some(from))
    && forall j | 0 <= j < |before| && j != i :: after[j] == before[j]
  }

  /** `copy` meets itself exactly when one frame is usable and neither block is held elsewhere. */
  lemma Squeezed(slots: seq<Slot>, wanted: State, wants: seq<nat>, from: nat, to: nat, source: nat, destination: nat)
    requires Coherent(wanted) && Brought(slots, wanted.slots, from, source) && from != to
    requires Timed(wanted.slots, wants) && wanted.slots[source].used == |wants|
    requires destination < |slots|
    requires Find(wanted.slots, to).Some? ==> destination == Find(wanted.slots, to).value
    requires Find(wanted.slots, to).None? ==> LeastWanted(wanted.slots, wants, destination)
    ensures source == destination <==> Cramped(slots, from, to)
  {
    if source == destination {
      MetItself(slots, wanted, wants, from, to, source);
    } else {
      assert slots[destination] == wanted.slots[destination];
      if slots[destination].pinned || slots[source].pinned {
        assert !Cramped(slots, from, to);
      }
    }
  }

  lemma MetItself(slots: seq<Slot>, wanted: State, wants: seq<nat>, from: nat, to: nat, source: nat)
    requires Coherent(wanted) && Brought(slots, wanted.slots, from, source) && from != to
    requires Timed(wanted.slots, wants) && wanted.slots[source].used == |wants|
    requires Find(wanted.slots, to).None? && LeastWanted(wanted.slots, wants, source)
    ensures Cramped(slots, from, to)
  {
    forall i | 0 <= i < |slots| && i != source
      ensures slots[i].pinned && slots[i].block != Some(from) && slots[i].block != Some(to)
    {
      FindSlot(wanted, source);
      assert slots[i] == wanted.slots[i];
      assert LastWanted(wants, from) == |wants|;
    }
    assert OnlyUnpinned(slots, source);
  }

  lemma VictimUnpinned(slots: seq<Slot>, wants: seq<nat>, i: nat)
    requires LeastWanted(slots, wants, i)
    ensures i < |slots| && !slots[i].pinned && !AllPinned(slots)
  {
  }

  lemma LooksSame(st: State, h: seq<Disk>)
    requires Coherent(st) && 0 < |h|
    ensures Looks(st, h, st, h)
  {
  }

  lemma CleanTimed(slots: seq<Slot>, i: nat, wants: seq<nat>)
    requires Timed(slots, wants) && i < |slots|
    ensures Timed(slots[i := slots[i].(dirty := false)], wants)
  {
  }

  /** An empty cache shows the device and has nothing waiting. */
  lemma NothingResident(st: State)
    requires |st.slots| == |st.frames| && forall i | 0 <= i < |st.slots| :: st.slots[i] == EMPTY
    ensures Coherent(st) && View(st) == st.disk && Dirty(st.slots) == {}
  {
    forall b | 0 <= b < |st.disk|
      ensures Seen(st, b) == st.disk[b]
    {
      assert Find(st.slots, b).None?;
    }
  }

  /** Two resident frames were never last wanted at the same moment. */
  lemma UsedApart(st: State, wants: seq<nat>, i: nat, j: nat)
    requires Coherent(st) && Timed(st.slots, wants) && i < |st.slots| && j < |st.slots| && i != j
    requires st.slots[i].block.Some? && st.slots[j].block.Some?
    ensures st.slots[i].used != st.slots[j].used
    ensures st.slots[i].used == LastWanted(wants, st.slots[i].block.value)
    ensures st.slots[j].used == LastWanted(wants, st.slots[j].block.value)
  {
  }
}
