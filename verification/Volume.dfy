/** Writing to a filesystem through the journal and the cache. */
module Volumes {
  import opened Words
  import opened Blocks
  import opened Superblocks
  import opened CacheModel
  import opened PageCache
  import opened Journal
  import opened Recovery
  import opened Ledger

  /** The homes of a transaction being built: distinct, in range and outside the log. */
  ghost predicate Stageable(sb: Superblock, staged: seq<nat>) {
    |staged| <= MAX_STAGED && AllInRange(sb, staged) && Outside(sb, staged) && Distinct(staged)
  }

  /** The number of transaction `k` after number `n`: one more each time, and one again past 2^64 - 1, so never zero. */
  function Number(n: nat, k: nat): nat {
    if k == 0 then n else (n + k - 1) % (U64 - 1) + 1
  }

  /** Numbers go up by one, and past the last start again at one. */
  lemma NumberFollows(n: nat, k: nat)
    requires n < U64
    ensures Number(n, 1) == if n + 1 < U64 then n + 1 else 1
    ensures 0 < Number(n, k + 1) < U64 && Number(Number(n, k), 1) == Number(n, k + 1)
  {
    if k > 0 {
      Shifts(n + k - 1, 1);
    }
  }

  lemma NumberIsNext(n: nat)
    requires n < U64
    ensures Number(n, 1) == var next := (n + 1) % U64; if next < 1 then 1 else next
  {
  }

  lemma Shifts(a: nat, b: nat)
    ensures (a % (U64 - 1) + b) % (U64 - 1) == (a + b) % (U64 - 1)
  {
    var q := a / (U64 - 1);
    assert a + b == a % (U64 - 1) + b + q * (U64 - 1);
    Rounds(a % (U64 - 1) + b, q);
  }

  lemma {:induction false} Rounds(a: nat, q: nat)
    ensures (a + q * (U64 - 1)) % (U64 - 1) == a % (U64 - 1)
  {
    if q > 0 {
      Rounds(a, q - 1);
      assert a + q * (U64 - 1) == a + (q - 1) * (U64 - 1) + (U64 - 1);
    }
  }

  /** No number comes back within 2^64 - 1 transactions. */
  lemma NumbersApart(n: nat, i: nat, j: nat)
    requires n < U64 && 0 < i < j < i + (U64 - 1)
    ensures Number(n, i) != Number(n, j)
  {
    var a, d := n + i - 1, j - i;
    Shifts(a, d);
    var r := a % (U64 - 1);
    assert (r + d) % (U64 - 1) == if r + d < U64 - 1 then r + d else r + d - (U64 - 1);
  }

  /** Among the states from the last of the first `since` on is one that commits `c`. */
  ghost predicate Announced(sb: Superblock, h: seq<Disk>, since: nat, c: Journal.Commit) {
    exists i | since - 1 <= i < |h| :: 0 <= i && Sane(sb, |h[i]|) && Committed(sb, h[i]) == Some(c)
  }

  class Volume {
    const cache: Cache
    const sb: Superblock
    var sequence: nat
    var staged: seq<nat>
    ghost var book: Book
    ghost var open: bool
    ghost const calm: bool

    /** Opens a volume over whatever waits in the cache, the device being at rest under what is shown. */
    constructor (cache: Cache, sb: Superblock, sequence: nat, ghost s: Stand)
      requires cache.Valid() && |cache.store.blocks| < U32 && sequence < U64
      requires Sane(sb, |cache.store.blocks|) && Builds(sb, cache.View(), cache.store.blocks, cache.Waiting(), s)
      requires ReadHead(cache.View()[0], |cache.store.blocks|) == Ok(sb)
      ensures Valid() && this.cache == cache && this.sb == sb && this.sequence == sequence && staged == [] && !open
      ensures s.state != [] && book == Opened(cache.store.history, s)
      ensures calm == (!cache.store.refused && Silent(sb, cache.View(), cache.store.blocks))
    {
      hide Secure, Timed, Committed, Spills, Coherent, ReadHead, CacheModel.View, Dirty, At, FromLe, Announces, Builds;
      BuildsRoot(sb, cache.View(), cache.store.blocks, cache.Waiting(), s);
      this.cache, this.sb, this.sequence, this.staged := cache, sb, sequence, [];
      this.book := Opened(cache.store.history, s);
      this.open := false;
      this.calm := !cache.store.refused && Silent(sb, cache.View(), cache.store.blocks);
      new;
      OpenedSecure(sb, cache.store.history, cache.View(), cache.Waiting(), s);
      CalmerSecure(sb, book, cache.View(), cache.Waiting(), cache.store.history,
                   Silent(sb, cache.View(), cache.store.blocks), Steady());
    }

    ghost function Repr(): set<object> {
      {this} + cache.Repr()
    }

    ghost predicate Steady()
      reads this, cache.store
    {
      calm && !cache.store.refused
    }

    /** The crash claim, and what keeps it. */
    ghost predicate Safe()
      reads this, cache, cache.store
    {
      && cache.Valid()
      && Secure(sb, book, cache.View(), cache.Waiting(), cache.store.history, Steady())
    }

    ghost predicate Valid()
      reads this, cache, cache.store
    {
      && Safe()
      && Quiet(sb, book.phase, cache.store.blocks, Steady())
      && Sane(sb, |cache.store.blocks|) && |cache.store.blocks| < U32 && sequence < U64
      && Stageable(sb, staged)
      && ReadHead(book.root, |cache.store.blocks|) == Ok(sb)
      && (open ==> book.phase.Building? && 0 < sequence)
    }

    /** The commit block shown is on the device. */
    ghost predicate Arrived()
      requires cache.Valid()
      reads this, cache, cache.store
    {
      sb.journalStart < |cache.store.blocks| && cache.View()[sb.journalStart] == cache.store.blocks[sb.journalStart]
    }

    /** The marks only grow, and new ones are of the phase the call began in. */
    twostate predicate Noted()
      reads this
    {
      Added(old(book), book)
    }

    /** Notes what the device went through during a call that only looked. */
    ghost method NoteLook(st: State, h: seq<Disk>, steady: bool)
      requires cache.Valid() && Looks(st, h, cache.Now(), cache.store.history)
      requires Secure(sb, book, View(st), Dirty(st.slots), h, steady) && (Steady() ==> steady)
      modifies this`book
      ensures Safe() && Noted() && Alike(old(book), book) && cache.View() == View(st)
      ensures Free(st.slots) ==> Free(cache.slots)
      ensures cache.Waiting() <= Dirty(st.slots)
      ensures Quiet(sb, book.phase, h[|h| - 1], steady) ==> Quiet(sb, book.phase, cache.store.blocks, Steady())
    {
      hide Secure, Coherent, Timed, Added, After, Dirty, SpillStep, At;
      var st', h' := cache.Now(), cache.store.history;
      LooksSpills(st, h, st', h');
      LookNoted(sb, book, st, h, st', h', steady);
      if Quiet(sb, book.phase, h[|h| - 1], steady) {
        QuietKept(sb, book, View(st), Dirty(st.slots), h, h', steady);
      }
      book := After(sb, book, st, h, h');
      CalmerSecure(sb, book, View(st), Dirty(st'.slots), h', steady, Steady());
    }

    /** Begins a transaction; refuses while one is committed and unapplied. */
    method Begin() returns (r: Result<(), FsError>)
      requires Valid()
      modifies Repr()
      ensures Valid() && Noted() && cache.View() == old(cache.View())
      ensures r.Ok? ==> open && staged == [] && Committed(sb, cache.View()).None?
      ensures sequence == if r.Ok? then Number(old(sequence), 1) else old(sequence)
      ensures Committed(sb, old(cache.View())).Some? ==> r.Err?
      ensures cache.store.Ages() && (Free(old(cache.slots)) ==> Free(cache.slots))
      ensures r.Err? && Free(old(cache.slots)) && Committed(sb, old(cache.View())).None? ==> cache.store.Failed()
      ensures Alike(old(book), book)
    {
      hide Free, AllPinned, Cramped, Looks, Secure, Coherent, Timed, Added, Committed, ReadHead, CacheModel.View,
        Dirty, At, FromLe, Announces, Spills, Number;
      ghost var st, h, steady := cache.Now(), cache.store.history, Steady();
      FreeHelps(cache.slots, 0, 0);
      var pending := ReadCommitted(cache, sb);
      NoteLook(st, h, steady);
      if pending.Err? {
        return Err(pending.error);
      }
      if pending.value.Some? {
        return Err(NeedsRecovery);
      }
      if book.phase.Committing? {
        ShownCommits(sb, book, cache.View(), cache.Waiting(), cache.store.history, Steady());
        assert false;
      }
      staged := [];
      NumberIsNext(sequence);
      var next := (sequence + 1) % U64;
      sequence := if next < 1 then 1 else next;
      open := true;
      return Ok(());
    }

    /** Notes what the device went through during a call that wrote one block. */
    ghost method NoteWrite(st: State, h: seq<Disk>, block: nat, bytes: Block, steady: bool)
      requires cache.Valid() && Sets(st, h, cache.Now(), cache.store.history, block, bytes)
      requires Secure(sb, book, View(st), Dirty(st.slots), h, steady) && (Steady() ==> steady)
      requires book.phase.Building? && 0 < block && block != sb.journalStart && Quiet(sb, book.phase, h[|h| - 1], steady)
      modifies this`book
      ensures Safe() && Noted() && Kept(old(book), book) && book.txn == old(book.txn)
      ensures book.phase == Building(Eased(sb, old(book.phase.now), block))
      ensures block < |View(st)| && cache.View() == View(st)[block := bytes]
      ensures Free(st.slots) ==> Free(cache.slots)
      ensures Quiet(sb, book.phase, cache.store.blocks, Steady())
    {
      hide Secure, Coherent, Timed, Added, After, Dirty, SpillStep, At, Sets, Spills, Announces, Free, CacheModel.View;
      var st', h' := cache.Now(), cache.store.history;
      SetsSees(st, h, st', h', block, bytes);
      WriteNoted(sb, book, st, h, st', h', block, bytes, steady);
      var noted, phase := After(sb, book, st, h, h'), Building(Eased(sb, book.phase.now, block));
      AddedTurns(book, noted, book.txn, phase);
      book := noted.(phase := phase);
      CalmerSecure(sb, book, cache.View(), cache.Waiting(), h', steady, Steady());
    }

    /**
     Copies `home` into the next slot, to be changed there; a block already staged
     keeps its slot. Nothing checks that the log has a block for the slot: past the
     log it is file data that is overwritten.
     */
    method Stage(home: nat) returns (r: Result<nat, FsError>)
      requires Valid() && open && InRange(sb, home) && !InLog(sb, home)
      modifies Repr()
      ensures Valid() && Noted() && Kept(old(book), book) && book.txn == old(book.txn) && open && sequence == old(sequence)
      ensures home in old(staged) ==> r.Ok? && staged == old(staged) && cache.View() == old(cache.View()) && book == old(book)
      ensures home !in old(staged) && |old(staged)| == MAX_STAGED ==> r == Err(Full)
      ensures r.Ok? ==> r.value < |staged| && staged[r.value] == home
      ensures r.Ok? && home !in old(staged) ==>
                && staged == old(staged) + [home] && r.value == |old(staged)| && SlotBlock(r.value) < |old(cache.View())|
                && cache.View() == old(cache.View())[SlotBlock(r.value) := old(cache.View())[home]]
                && book.phase == if home == SlotBlock(r.value) then old(book.phase) else Building(Eased(sb, old(book.phase.now), SlotBlock(r.value)))
      ensures r.Err? ==> staged == old(staged) && cache.View() == old(cache.View()) && Alike(old(book), book)
      ensures cache.store.Ages() && (Free(old(cache.slots)) ==> Free(cache.slots))
      ensures r.Err? && Free(old(cache.slots)) ==>
                cache.store.Failed() || |old(staged)| == MAX_STAGED || SlotBlock(|old(staged)|) >= |old(cache.View())|
    {
      hide Free, AllPinned, Cramped, Looks, Sets, Secure, Coherent, Timed, Added, ReadHead, After, CacheModel.View,
        Dirty, At, FromLe, Announces, Spills, Copied, Fetched, Quiet, SpillStep, Committed;
      for slot := 0 to |staged|
        invariant home !in staged[..slot]
      {
        if staged[slot] == home {
          AddedSame(book);
          return Ok(slot);
        }
      }
      if |staged| == MAX_STAGED {
        AddedSame(book);
        return Err(Full);
      }
      var slot := |staged|;
      ghost var st, h, steady := cache.Now(), cache.store.history, Steady();
      FreeHelps(cache.slots, home, SlotBlock(slot));
      var copied, _ := cache.Copy(home, SlotBlock(slot));
      if copied.Err? {
        NoteLook(st, h, steady);
        return Err(copied.error);
      }
      if home == SlotBlock(slot) {
        NoteLook(st, h, steady);
      } else {
        NoteWrite(st, h, SlotBlock(slot), View(st)[home], steady);
      }
      staged := staged + [home];
      return Ok(slot);
    }

    /** The block a staged slot lives in. */
    function SlotBlock(slot: nat): nat {
      sb.journalStart + 1 + slot
    }

    /** Changes a staged block where it is. */
    method EditStaged(slot: nat, change: Block -> Block) returns (r: Result<(), FsError>)
      requires Valid() && open && slot < |staged|
      modifies Repr()
      ensures Valid() && Noted() && Kept(old(book), book) && open && staged == old(staged) && sequence == old(sequence)
      ensures r.Ok? ==>
                && SlotBlock(slot) < |old(cache.View())| && book.txn == old(book.txn)
                && cache.View() == old(cache.View())[SlotBlock(slot) := change(old(cache.View())[SlotBlock(slot)])]
                && book.phase == Building(Eased(sb, old(book.phase.now), SlotBlock(slot)))
      ensures r.Err? ==> cache.View() == old(cache.View()) && Alike(old(book), book)
      ensures cache.store.Ages() && (Free(old(cache.slots)) ==> Free(cache.slots))
      ensures r.Err? && Free(old(cache.slots)) && SlotBlock(slot) < |old(cache.View())| ==> cache.store.Failed()
    {
      r := EditData(SlotBlock(slot), change);
    }

    /**
     Changes any block but the superblock and the commit block at its home, unjournalled;
     unless it is in the log it is loose until the next commit. On a volume whose commit
     failed, a block may only be opened so and left as it is.
     */
    method EditData(block: nat, change: Block -> Block) returns (r: Result<(), FsError>)
      requires Valid()
      requires book.phase.Building? ==> 0 < block && block != sb.journalStart
      requires book.phase.Committing? && block < |cache.View()| ==> change(cache.View()[block]) == cache.View()[block]
      modifies Repr()
      ensures Valid() && Noted() && Kept(old(book), book) && open == old(open) && staged == old(staged) && sequence == old(sequence)
      ensures r.Ok? ==>
                && block < |old(cache.View())| && book.txn == old(book.txn)
                && cache.View() == old(cache.View())[block := change(old(cache.View())[block])]
                && book.phase == match old(book.phase) case Building(now) => Building(Eased(sb, now, block)) case p => p
      ensures r.Err? ==> cache.View() == old(cache.View()) && Alike(old(book), book)
      ensures cache.store.Ages() && (Free(old(cache.slots)) ==> Free(cache.slots))
      ensures r.Err? && Free(old(cache.slots)) && block < |old(cache.View())| ==> cache.store.Failed()
    {
      hide Free, AllPinned, Cramped, Looks, Sets, Secure, Coherent, Timed, Added, ReadHead, After, CacheModel.View,
        Dirty, At, FromLe, Announces, Spills;
      ghost var st, h, steady := cache.Now(), cache.store.history, Steady();
      FreeHelps(cache.slots, 0, 0);
      r := cache.Edit(block, change);
      if r.Err? {
        NoteLook(st, h, steady);
      } else if book.phase.Building? {
        NoteWrite(st, h, block, change(View(st)[block]), steady);
      } else {
        NoteOpened(st, h, block, steady);
      }
    }

    /** Notes what the device went through during a call that opened one block to be changed and left it as it was. */
    ghost method NoteOpened(st: State, h: seq<Disk>, block: nat, steady: bool)
      requires cache.Valid() && |st.slots| == |st.frames| && block < |View(st)|
      requires Sets(st, h, cache.Now(), cache.store.history, block, View(st)[block])
      requires Secure(sb, book, View(st), Dirty(st.slots), h, steady) && (Steady() ==> steady) && book.phase.Committing?
      modifies this`book
      ensures Safe() && Noted() && Alike(old(book), book) && cache.View() == View(st)
      ensures Free(st.slots) ==> Free(cache.slots)
    {
      hide Secure, Coherent, Timed, Added, After, Dirty, SpillStep, At, Sets, Spills, Announces, Free, CacheModel.View;
      var st', h' := cache.Now(), cache.store.history;
      SetsSees(st, h, st', h', block, View(st)[block]);
      OpenNoted(sb, book, st, h, st', h', block, steady);
      book := After(sb, book, st, h, h');
      CalmerSecure(sb, book, cache.View(), cache.Waiting(), h', steady, Steady());
    }

    /** Everything waiting, onto the device. */
    method Sync() returns (r: Result<(), FsError>)
      requires Safe()
      modifies Repr()
      ensures Safe() && Noted() && Alike(old(book), book) && cache.View() == old(cache.View())
      ensures open == old(open) && staged == old(staged) && sequence == old(sequence)
      ensures r.Ok? ==> cache.Waiting() == {} && cache.store.blocks == cache.View()
      ensures r.Err? ==> cache.store.refused && cache.store.Failed()
      ensures cache.Waiting() <= old(cache.Waiting())
      ensures cache.store.Ages() && (Free(old(cache.slots)) ==> Free(cache.slots))
      ensures old(Quiet(sb, book.phase, cache.store.blocks, Steady())) ==> Quiet(sb, book.phase, cache.store.blocks, Steady())
      ensures |old(cache.store.history)| < |cache.store.history| || cache.store.blocks == old(cache.store.blocks)
      ensures old(Arrived()) ==> Arrived()
      ensures |cache.store.blocks| == |old(cache.store.blocks)|
      ensures sb.journalStart < |cache.store.blocks| && !Arrived() ==>
                cache.store.blocks[sb.journalStart] == old(cache.store.blocks)[sb.journalStart]
    {
      hide Free, AllPinned, Cramped, Looks, Sets, Secure, Coherent, Timed, Added, ReadHead, After, CacheModel.View,
        Dirty, At, FromLe, Announces, Spills;
      ghost var st, h, steady := cache.Now(), cache.store.history, Steady();
      var went := cache.Flush();
      LooksSpills(st, h, cache.Now(), cache.store.history);
      SpillsGrow(h, cache.store.history, View(st), Dirty(st.slots));
      ArrivedStays(sb, h, cache.store.history, View(st), Dirty(st.slots));
      NoteLook(st, h, steady);
      return if went.Ok? then Ok(()) else Err(went.error);
    }

    /** Builds the commit block over a payload already on the device, and shows it in the cache. */
    method Prepare() returns (r: Result<(), FsError>)
      requires Valid() && book.phase.Building? && 0 < sequence && staged != [] && cache.Waiting() == {}
      modifies Repr()
      ensures Safe() && Noted() && open == old(open) && staged == old(staged) && sequence == old(sequence) && book.txn == old(book.txn)
      ensures r.Err? ==> Valid() && Alike(old(book), book) && cache.View() == old(cache.View())
      ensures r.Ok? ==> |staged| < sb.journalBlocks && book.phase.Committing? && book.phase.was == old(book.phase.now)
                        && Reaches(book.phase.will, Promised(sb, old(cache.View()), staged))
      ensures r.Ok? ==> Shown(sb, old(cache.View()), cache.View(), staged) && Kept(old(book), book)
      ensures r.Ok? ==> Sane(sb, |cache.View()|) && Committed(sb, cache.View()) == Some(Journal.Commit(sequence, |staged|))
      ensures r.Ok? ==> cache.Waiting() <= {sb.journalStart} && cache.store.blocks == old(cache.store.blocks)
      ensures cache.store.Ages() && (Free(old(cache.slots)) ==> Free(cache.slots))
      ensures r.Err? && Free(old(cache.slots)) ==> cache.store.Failed() || |staged| >= sb.journalBlocks
    {
      hide Free, AllPinned, Cramped, Looks, Sets, Secure, Coherent, Timed, Added, ReadHead, After, CacheModel.View,
        Dirty, At, FromLe, Announces, Spills, Next, Describes, Committed, Homes, Page, SpillStep, Quiet, Fetched, Sum, Shown,
        Promised, Reaches;
      ghost var st, h, steady := cache.Now(), cache.store.history, Steady();
      FreeHelps(cache.slots, 0, 0);
      var head := BuildCommit(cache, sb, sequence, staged);
      LooksSpills(st, h, cache.Now(), cache.store.history);
      NothingWaits(st, h, cache.store.history);
      NoteLook(st, h, steady);
      if head.Err? {
        return Err(head.error);
      }
      ghost var book1 := book;
      r := ShowCommit(head.value);
      AddedJoin(old(book), book1, book);
    }

    /** Shows a commit block over a payload already on the device. */
    method ShowCommit(head: Bytes) returns (r: Result<(), FsError>)
      requires Valid() && book.phase.Building? && 0 < sequence && cache.Waiting() == {} && 0 < |staged| < sb.journalBlocks
      requires |head| == HEAD && Describes(head, sequence, staged, Payload(sb, cache.View(), |staged|))
      modifies Repr()
      ensures Safe() && Noted() && open == old(open) && staged == old(staged) && sequence == old(sequence) && book.txn == old(book.txn)
      ensures r.Err? ==> Valid() && Alike(old(book), book) && cache.View() == old(cache.View())
      ensures r.Ok? ==> book.phase.Committing? && book.phase.was == old(book.phase.now)
                        && Reaches(book.phase.will, Promised(sb, old(cache.View()), staged))
      ensures r.Ok? ==> Shown(sb, old(cache.View()), cache.View(), staged) && Kept(old(book), book)
      ensures r.Ok? ==> Sane(sb, |cache.View()|) && Committed(sb, cache.View()) == Some(Journal.Commit(sequence, |staged|))
      ensures r.Ok? ==> cache.Waiting() <= {sb.journalStart} && cache.store.blocks == old(cache.store.blocks)
      ensures cache.store.Ages() && (Free(old(cache.slots)) ==> Free(cache.slots))
      ensures r.Err? && Free(old(cache.slots)) ==> cache.store.Failed()
    {
      hide Free, AllPinned, Cramped, Looks, Sets, Secure, Coherent, Timed, Added, ReadHead, After, CacheModel.View,
        Dirty, At, FromLe, Announces, Spills, Next, Describes, Committed, Homes, Page, SpillStep, Quiet, Fetched, Sum;
      ghost var st, h, steady := cache.Now(), cache.store.history, Steady();
      FreeHelps(cache.slots, 0, 0);
      r := cache.Edit(sb.journalStart, _ => Page(head));
      if r.Err? {
        NoteLook(st, h, steady);
        return;
      }
      ghost var st', h' := cache.Now(), cache.store.history;
      SetsSees(st, h, st', h', sb.journalStart, Page(head));
      NothingWaits(st, h, h');
      ghost var phase := Committing(book.phase.now, Pledge(sb, View(st), staged, Page(head)));
      PrepareNoted(sb, book, st, h, st', h', head, sequence, staged, steady);
      ShownBy(sb, View(st), head, sequence, staged);
      CommitReadsBack(sb, View(st), head, sequence, staged);
      AddedSame(book);
      AddedTurns(book, book, book.txn, phase);
      book := book.(phase := phase);
      CalmerSecure(sb, book, cache.View(), cache.Waiting(), h', steady, Steady());
    }

    /** One logged block to its home, the commit having landed. */
    method Carry(slot: nat) returns (r: Result<(), FsError>)
      requires Safe() && book.phase.Committing? && slot < |staged| < sb.journalBlocks
      requires Sane(sb, |cache.store.blocks|) && Landed(sb, cache.View(), cache.store.blocks) && Stageable(sb, staged)
      requires Count(cache.View()[sb.journalStart]) <= MAX_STAGED && Homes(cache.View()[sb.journalStart]) == staged
      modifies Repr()
      ensures Safe() && Noted() && Alike(old(book), book)
      ensures open == old(open) && staged == old(staged) && sequence == old(sequence)
      ensures r.Err? ==> cache.View() == old(cache.View())
      ensures r.Ok? ==> cache.View() == old(cache.View())[staged[slot] := old(cache.View())[sb.journalStart + 1 + slot]]
      ensures |cache.View()| == |cache.store.blocks| && Landed(sb, cache.View(), cache.store.blocks)
      ensures cache.store.Ages() && (Free(old(cache.slots)) ==> Free(cache.slots))
      ensures r.Err? && Free(old(cache.slots)) ==> cache.store.Failed()
    {
      hide Free, AllPinned, Cramped, Looks, Sets, Secure, Coherent, Timed, Added, ReadHead, After, CacheModel.View,
        Dirty, At, FromLe, Announces, Spills, Committed, Homes, SpillStep, Copied, Fetched, Quiet;
      ghost var st, h, steady := cache.Now(), cache.store.history, Steady();
      SecureSizes(sb, book, View(st), Dirty(st.slots), h, steady);
      FreeHelps(cache.slots, sb.journalStart + 1 + slot, staged[slot]);
      ghost var trail: Trail;
      r, trail := cache.Copy(sb.journalStart + 1 + slot, staged[slot]);
      if r.Err? {
        LooksSpills(st, h, cache.Now(), cache.store.history);
        ArrivedStays(sb, h, cache.store.history, View(st), Dirty(st.slots));
        NoteLook(st, h, steady);
        return;
      }
      ghost var st', h' := cache.Now(), cache.store.history;
      ghost var bytes := View(st)[sb.journalStart + 1 + slot];
      SetsSees(st, h, st', h', staged[slot], bytes);
      CarryNoted(sb, book, st, h, st', h', staged[slot], bytes, steady);
      book := After(sb, book, st, h, h');
      CalmerSecure(sb, book, cache.View(), cache.Waiting(), h', steady, Steady());
    }

    /** Zeroes the commit block in the cache. If every home is on the device, the commit is done. */
    method ZeroCommit() returns (r: Result<(), FsError>)
      requires Safe() && book.phase.Committing? && cache.Waiting() == {} && Sane(sb, |cache.store.blocks|)
      modifies Repr()
      ensures cache.Valid() && open == old(open) && staged == old(staged) && sequence == old(sequence)
      ensures |cache.View()| == |old(cache.View())| && cache.store.blocks == old(cache.store.blocks)
      ensures r.Ok? ==> cache.View() == old(cache.View())[sb.journalStart := ZERO]
      ensures r.Err? ==> Safe() && Noted() && Alike(old(book), book) && cache.View() == old(cache.View())
      ensures r.Ok? && old(SameOutside(sb, cache.View(), book.phase.will.state)) ==>
                Safe() && Noted() && Kept(old(book), book) && Cleared(old(book), book) && book.marks == old(book.marks)
      ensures cache.store.Ages() && (Free(old(cache.slots)) ==> Free(cache.slots))
      ensures r.Err? && Free(old(cache.slots)) ==> cache.store.Failed()
    {
      hide Free, AllPinned, Cramped, Looks, Sets, Secure, Coherent, Timed, Added, ReadHead, After, CacheModel.View,
        Dirty, At, FromLe, Announces, Spills, Committed, Homes, SameOutside, SpillStep, Fetched;
      ghost var st, h, steady := cache.Now(), cache.store.history, Steady();
      FreeHelps(cache.slots, 0, 0);
      r := cache.Put(sb.journalStart, ZERO);
      ghost var st', h' := cache.Now(), cache.store.history;
      if r.Err? {
        LooksSpills(st, h, st', h');
        NothingWaits(st, h, h');
        NoteLook(st, h, steady);
        return;
      }
      assert ZERO[..BLOCK] == ZERO;
      SetsSees(st, h, st', h', sb.journalStart, ZERO);
      NothingWaits(st, h, h');
      if SameOutside(sb, View(st), book.phase.will.state) {
        ClearNoted(sb, book, st, h, st', h', steady);
        AddedSame(book);
        AddedTurns(book, book, book.txn + 1, Building(book.phase.will));
        book := book.(txn := book.txn + 1, phase := Building(book.phase.will));
        CalmerSecure(sb, book, cache.View(), cache.Waiting(), h', steady, Steady());
      }
    }

    /** Zeroes the commit block on the device. If every home is there, the commit is done. */
    method ClearCommit() returns (r: Result<(), FsError>)
      requires Safe() && book.phase.Committing? && cache.Waiting() == {} && Sane(sb, |cache.store.blocks|)
      modifies Repr()
      ensures cache.Valid() && open == old(open) && staged == old(staged) && sequence == old(sequence)
      ensures |cache.View()| == |old(cache.View())|
      ensures r.Ok? ==> cache.View() == old(cache.View())[sb.journalStart := ZERO] && cache.store.blocks == cache.View() && cache.Waiting() == {}
      ensures old(SameOutside(sb, cache.View(), book.phase.will.state)) ==>
                && Safe() && Noted() && Kept(old(book), book)
                && (r.Ok? ==> Cleared(old(book), book) && Newest(book))
                && (r.Err? ==> || (Alike(old(book), book) && cache.View() == old(cache.View()) && Arrived())
                               || (&& Cleared(old(book), book) && cache.store.refused && cache.store.Failed()
                                   && cache.View()[sb.journalStart] == ZERO))
                && (book.phase.Building? ==> Quiet(sb, book.phase, cache.store.blocks, Steady()))
      ensures cache.store.Ages() && (Free(old(cache.slots)) ==> Free(cache.slots))
      ensures r.Err? && Free(old(cache.slots)) ==> cache.store.Failed()
    {
      hide Free, AllPinned, Looks, Secure, Coherent, Timed, Added, ReadHead, CacheModel.View, Dirty, At, FromLe, Announces, Spills,
        Committed, Homes, SameOutside, Newest;
      ghost var due := SameOutside(sb, cache.View(), book.phase.will.state);
      ClearingChanges(sb, book, cache.View(), cache.Waiting(), cache.store.history, Steady());
      ShowsDevice(cache);
      r := ZeroCommit();
      if r.Err? {
        return;
      }
      ghost var book1, st, h, steady := book, cache.Now(), cache.store.history, Steady();
      var went := cache.Flush();
      LooksSpills(st, h, cache.Now(), cache.store.history);
      r := if went.Ok? then Ok(()) else Err(went.error);
      if due {
        NoteLook(st, h, steady);
        AddedPhases(old(book), book1, book);
        ZeroAnnouncesNothing();
        if r.Ok? {
          SpillsGrow(h, cache.store.history, View(st), Dirty(st.slots));
          GrownIsNewest(sb, book1, View(st), Dirty(st.slots), h, steady, book, cache.View(), cache.Waiting(), cache.store.history, Steady());
        }
      }
    }

    /** The logged blocks of the slots in `order` to their homes, one after another, whatever slots it misses. */
    method CarryAll(order: seq<nat>) returns (r: Result<(), FsError>)
      requires Safe() && book.phase.Committing? && Slots(order, |staged|) && |staged| < sb.journalBlocks
      requires Sane(sb, |cache.store.blocks|) && Landed(sb, cache.View(), cache.store.blocks) && Stageable(sb, staged)
      requires Count(cache.View()[sb.journalStart]) <= MAX_STAGED && Homes(cache.View()[sb.journalStart]) == staged
      modifies Repr()
      ensures Safe() && Noted() && Alike(old(book), book)
      ensures open == old(open) && staged == old(staged) && sequence == old(sequence)
      ensures |cache.View()| == |old(cache.View())| == |cache.store.blocks| && Landed(sb, cache.View(), cache.store.blocks)
      ensures r.Ok? ==> CarriedHome(sb, old(cache.View()), cache.View(), staged, order)
      ensures cache.store.Ages() && (Free(old(cache.slots)) ==> Free(cache.slots))
      ensures r.Err? && Free(old(cache.slots)) ==> cache.store.Failed()
    {
      hide Free, AllPinned, Cramped, Looks, Sets, Secure, Coherent, Timed, Added, ReadHead, After, CacheModel.View,
        Dirty, At, FromLe, Announces, Committed, Spills, Homes, CarriedHome, Next, Landed;
      ghost var view := cache.View();
      AddedSame(book);
      CarriedNone(sb, view, staged);
      for k := 0 to |order|
        invariant Safe() && Noted() && Alike(old(book), book)
        invariant open == old(open) && staged == old(staged) && sequence == old(sequence)
        invariant |cache.View()| == |cache.store.blocks| == |view| && Landed(sb, cache.View(), cache.store.blocks)
        invariant CarriedHome(sb, view, cache.View(), staged, order[..k])
        invariant cache.store.Ages() && (Free(old(cache.slots)) ==> Free(cache.slots))
      {
        ghost var before, book1 := cache.View(), book;
        CarriedLog(sb, view, before, staged, order[..k]);
        var carried := Carry(order[k]);
        AddedJoin(old(book), book1, book);
        if carried.Err? {
          return carried;
        }
        CarriedMore(sb, view, before, staged, order, k);
      }
      assert order[..|order|] == order;
      return Ok(());
    }

    /** Carries the blocks of the slots in `order` home, and puts the homes on the device. */
    method CarryDown(order: seq<nat>) returns (r: Result<(), FsError>)
      requires Safe() && book.phase.Committing? && Slots(order, |staged|) && |staged| < sb.journalBlocks
      requires Sane(sb, |cache.store.blocks|) && Landed(sb, cache.View(), cache.store.blocks) && Stageable(sb, staged)
      requires Count(cache.View()[sb.journalStart]) <= MAX_STAGED && Homes(cache.View()[sb.journalStart]) == staged
      modifies Repr()
      ensures Safe() && Noted() && Alike(old(book), book) && Arrived()
      ensures open == old(open) && staged == old(staged) && sequence == old(sequence) && |cache.View()| == |old(cache.View())|
      ensures r.Ok? ==> CarriedHome(sb, old(cache.View()), cache.View(), staged, order)
      ensures r.Ok? ==> cache.Waiting() == {} && cache.store.blocks == cache.View()
      ensures cache.store.Ages() && (Free(old(cache.slots)) ==> Free(cache.slots))
      ensures r.Err? && Free(old(cache.slots)) ==> cache.store.Failed()
    {
      hide Free, Secure, Coherent, Timed, Added, ReadHead, CacheModel.View, Dirty, At, FromLe, Announces, Committed, Homes, Quiet,
        CarriedHome, Stageable;
      ghost var book0 := book;
      r := CarryAll(order);
      if r.Err? {
        return;
      }
      ghost var book1 := book;
      r := Sync();
      AddedJoin(book0, book1, book);
    }

    /**
     Carries the blocks of the slots in `order` home, puts the homes on the device, and
     only then clears the log. If the order fulfils the commit, the commit is done.
     */
    method Apply(order: seq<nat>) returns (r: Result<(), FsError>)
      requires Safe() && book.phase.Committing? && Slots(order, |staged|) && |staged| < sb.journalBlocks
      requires Sane(sb, |cache.store.blocks|) && cache.store.blocks == cache.View() && Stageable(sb, staged)
      requires Count(cache.View()[sb.journalStart]) <= MAX_STAGED && Homes(cache.View()[sb.journalStart]) == staged
      requires SameOutside(sb, Next(sb, cache.View(), staged), book.phase.will.state)
      modifies Repr()
      ensures cache.Valid() && open == old(open) && staged == old(staged) && sequence == old(sequence)
      ensures |cache.View()| == |old(cache.View())|
      ensures r.Ok? ==> cache.store.blocks == cache.View() && Finished(sb, old(cache.View()), cache.View(), staged, order)
      ensures Fulfils(sb, old(cache.View()), staged, order) ==>
                && Safe() && Noted() && Kept(old(book), book)
                && (r.Ok? ==> Cleared(old(book), book) && Newest(book))
                && (r.Err? ==> || (Alike(old(book), book) && Arrived())
                               || (&& Cleared(old(book), book) && cache.store.refused && cache.store.Failed()
                                   && cache.View()[sb.journalStart] == ZERO))
                && (book.phase.Building? ==> Quiet(sb, book.phase, cache.store.blocks, Steady()))
      ensures cache.store.Ages() && (Free(old(cache.slots)) ==> Free(cache.slots))
      ensures r.Err? && Free(old(cache.slots)) ==> cache.store.Failed()
    {
      hide Free, AllPinned, Cramped, Looks, Sets, Secure, Coherent, Timed, Added, ReadHead, After, CacheModel.View,
        Dirty, At, FromLe, Announces, Committed, Spills, Homes, Next, Quiet, Newest, CarriedHome, Fulfils, Finished, SameOutside, Stageable, SpillStep;
      ghost var book0, view := book, cache.View();
      r := CarryDown(order);
      if r.Err? {
        return;
      }
      ghost var book1, carried := book, cache.View();
      if Fulfils(sb, view, staged, order) {
        CarriedIsNext(sb, view, carried, staged, order);
      }
      r := ClearCommit();
      if r.Ok? {
        CarriedFinishes(sb, view, carried, staged, order);
      }
      if Fulfils(sb, view, staged, order) {
        AddedJoin(book0, book1, book);
      }
    }

    /** Puts the payload on the device, then the commit block over it; `mid` is the book when the commit was shown. */
    method Publish() returns (r: Result<(), FsError>, ghost mid: Book)
      requires Valid() && !open && book.phase.Building? && 0 < sequence && staged != []
      modifies Repr()
      ensures Valid() && !open && staged == old(staged) && sequence == old(sequence)
      ensures Added(old(book), mid) && Added(mid, book) && mid.txn == old(book.txn) && Alike(mid, book)
      ensures (mid.phase == old(book.phase) && cache.View() == old(cache.View()))
              || (&& mid.phase.Committing? && mid.phase.was == old(book.phase.now)
                  && Reaches(mid.phase.will, Promised(sb, old(cache.View()), staged)) && |staged| < sb.journalBlocks
                  && cache.Waiting() <= {sb.journalStart} && Shown(sb, old(cache.View()), cache.View(), staged)
                  && Sane(sb, |cache.View()|) && Committed(sb, cache.View()) == Some(Journal.Commit(sequence, |staged|)))
      ensures r.Ok? ==> mid.phase.Committing? && cache.store.blocks == cache.View()
      ensures r.Err? && mid.phase.Committing? ==> cache.store.refused && cache.store.Failed()
      ensures mid.phase.Committing? && !Arrived() ==>
                |cache.store.blocks| == |old(cache.View())| && cache.store.blocks[sb.journalStart] == old(cache.View())[sb.journalStart]
      ensures cache.store.Ages() && (Free(old(cache.slots)) ==> Free(cache.slots))
      ensures r.Err? && Free(old(cache.slots)) ==> cache.store.Failed() || |staged| >= sb.journalBlocks
    {
      hide Free, AllPinned, Cramped, Looks, Sets, Secure, Coherent, Timed, Added, ReadHead, After, CacheModel.View,
        Dirty, At, FromLe, Announces, Committed, Spills, Homes, Next, Shown, Promised, Reaches;
      ghost var book0 := book;
      r := Sync();
      AddedSame(book);
      mid := book;
      if r.Err? {
        return;
      }
      r := Prepare();
      AddedJoin(book0, mid, book);
      AddedSame(book);
      mid := book;
      if r.Err? {
        return;
      }
      ShownMeans(sb, old(cache.View()), cache.View(), staged);
      r := Sync();
    }

    /** Commits what is staged, of which there is some, in an order that has as many slots. */
    method CommitStaged(order: seq<nat>) returns (r: Result<(), FsError>)
      requires Valid() && !open && book.phase.Building? && 0 < sequence && staged != [] && Slots(order, |staged|)
      modifies Repr()
      ensures cache.Valid() && !open && |cache.View()| == |old(cache.View())| && sequence == old(sequence)
      ensures r.Ok? ==> Announced(sb, cache.store.history, |old(cache.store.history)|, Journal.Commit(sequence, |old(staged)|))
      ensures r.Ok? ==>
                && staged == [] && cache.store.blocks == cache.View()
                && Finished(sb, old(cache.View()), cache.View(), old(staged), order)
                && (Fulfils(sb, old(cache.View()), old(staged), order)
                    <==> SameOutside(sb, cache.View(), Promised(sb, old(cache.View()), old(staged))))
      ensures Fulfils(sb, old(cache.View()), old(staged), order) ==>
                && Valid() && Outcome(old(book), book, Promised(sb, old(cache.View()), old(staged)))
                && (r.Ok? ==>
                      && book.txn == old(book.txn) + 1 && Newest(book)
                      && book.phase.Building? && Reaches(book.phase.now, Promised(sb, old(cache.View()), old(staged))))
                && (book.phase.Committing? && !Arrived() ==>
                      && cache.store.refused && cache.store.Failed() && staged == old(staged) && cache.Waiting() <= {sb.journalStart}
                      && Shown(sb, old(cache.View()), cache.View(), staged)
                      && Sane(sb, |cache.View()|) && Committed(sb, cache.View()) == Some(Journal.Commit(sequence, |staged|))
                      && cache.store.blocks[sb.journalStart] == old(cache.View())[sb.journalStart])
                && (book.phase.Building? && r.Err? ==>
                      cache.View()[sb.journalStart] == old(cache.View())[sb.journalStart] || cache.View()[sb.journalStart] == ZERO)
      ensures |old(staged)| >= sb.journalBlocks ==> r.Err? && Valid() && Alike(old(book), book)
      ensures cache.store.Ages() && (Free(old(cache.slots)) ==> Free(cache.slots))
      ensures r.Err? && Free(old(cache.slots)) ==> cache.store.Failed() || |old(staged)| >= sb.journalBlocks
    {
      hide Free, AllPinned, Cramped, Looks, Sets, Secure, Coherent, Timed, Added, ReadHead, After, CacheModel.View,
        Dirty, At, FromLe, Announces, Committed, Spills, Homes, Next, SameOutside, Outcome, Shown, Fulfils, Promised, Newest,
        Finished, Slots;
      ghost var book0, view, next := book, cache.View(), Promised(sb, cache.View(), staged);
      ghost var mid: Book;
      r, mid := Publish();
      OutcomeOf(book0, mid, book, next);
      if r.Err? {
        return;
      }
      ghost var shown, book1, h := cache.View(), book, cache.store.history;
      assert h[|h| - 1] == shown;
      ShownMeans(sb, view, shown, staged);
      FulfilsShown(sb, view, shown, staged, order);
      r := Apply(order);
      if Fulfils(sb, view, staged, order) {
        AddedJoin(mid, book1, book);
        OutcomeOf(book0, mid, book, next);
      }
      assert cache.store.history[|h| - 1] == shown;
      if r.Ok? {
        FinishedExactly(sb, view, shown, cache.View(), staged, order);
        staged := [];
      }
    }

    /**
     Puts the payload on the device, commits, applies, and clears. If the order fulfils
     the commit, every state the device passes through is marked with the old durable
     state or the new one; if it does not, and nothing fails, a change is lost.
     */
    method Commit(order: seq<nat>) returns (r: Result<(), FsError>)
      requires Valid() && open && (|order| == |staged| ==> Slots(order, |staged|))
      modifies Repr()
      ensures cache.Valid() && !open && |cache.View()| == |old(cache.View())| && sequence == old(sequence)
      ensures r.Ok? && old(staged) != [] ==>
                Announced(sb, cache.store.history, |old(cache.store.history)|, Journal.Commit(sequence, |old(staged)|))
      ensures old(staged) == [] ==> r == Ok(()) && Valid() && book == old(book) && cache.View() == old(cache.View())
      ensures r.Ok? && old(staged) != [] ==>
                && staged == [] && cache.store.blocks == cache.View()
                && Finished(sb, old(cache.View()), cache.View(), old(staged), Ordering(order, |old(staged)|))
                && (Fulfils(sb, old(cache.View()), old(staged), Ordering(order, |old(staged)|))
                    <==> SameOutside(sb, cache.View(), Promised(sb, old(cache.View()), old(staged))))
      ensures Fulfils(sb, old(cache.View()), old(staged), Ordering(order, |old(staged)|)) ==>
                && Valid() && Outcome(old(book), book, Promised(sb, old(cache.View()), old(staged)))
                && (r.Ok? && old(staged) != [] ==>
                      && book.txn == old(book.txn) + 1 && Newest(book)
                      && book.phase.Building? && Reaches(book.phase.now, Promised(sb, old(cache.View()), old(staged))))
                && (book.phase.Committing? && !Arrived() ==>
                      && cache.store.refused && cache.store.Failed() && staged == old(staged) && cache.Waiting() <= {sb.journalStart}
                      && Shown(sb, old(cache.View()), cache.View(), staged)
                      && Sane(sb, |cache.View()|) && Committed(sb, cache.View()) == Some(Journal.Commit(sequence, |staged|))
                      && cache.store.blocks[sb.journalStart] == old(cache.View())[sb.journalStart])
                && (book.phase.Building? && r.Err? ==>
                      cache.View()[sb.journalStart] == old(cache.View())[sb.journalStart] || cache.View()[sb.journalStart] == ZERO)
      ensures |old(staged)| >= sb.journalBlocks ==> r.Err? && Valid() && Alike(old(book), book)
      ensures cache.store.Ages() && (Free(old(cache.slots)) ==> Free(cache.slots))
      ensures r.Err? && Free(old(cache.slots)) ==> cache.store.Failed() || |old(staged)| >= sb.journalBlocks
    {
      hide Free, Secure, Coherent, Timed, ReadHead, CacheModel.View, Dirty, Quiet, Stageable, SameOutside, Outcome, Shown, Fulfils, Promised,
        Newest, Finished, Ordering, Reaches, Slots, Announced, Committed;
      ghost var next := Promised(sb, cache.View(), staged);
      AddedSame(book);
      OutcomeOf(book, book, book, next);
      open := false;
      if |staged| == 0 {
        return Ok(());
      }
      OrderingSlots(order, |staged|);
      r := CommitStaged(Ordering(order, |staged|));
    }
  }

  /**
   A commit of two blocks in the order [0, 0]: unless the device fails or a frame is
   held it succeeds, the log is cleared, the first home is changed and the second never
   will be.
   */
  method CommitFirstTwice(v: Volume) returns (r: Result<(), FsError>)
    requires v.Valid() && v.open && |v.staged| == 2 < v.sb.journalBlocks
    requires v.staged[1] < |v.cache.View()| && v.SlotBlock(1) < |v.cache.View()|
    requires v.cache.View()[v.staged[1]] != v.cache.View()[v.SlotBlock(1)]
    modifies v.Repr()
    ensures r.Err? && Free(old(v.cache.slots)) ==> v.cache.store.Failed()
    ensures r.Ok? ==>
              && var d, first, second := v.cache.store.blocks, old(v.staged[0]), old(v.staged[1]);
              && Sane(v.sb, |d|) && |d| == |old(v.cache.View())| && first < |d| && second < |d| && d[v.sb.journalStart] == ZERO
              && d[first] == old(v.cache.View()[v.SlotBlock(0)]) && d[second] == old(v.cache.View()[v.staged[1]])
              && !SameOutside(v.sb, d, Promised(v.sb, old(v.cache.View()), old(v.staged)))
  {
    hide Secure, Coherent, Timed, ReadHead, CacheModel.View, Dirty, Free, Quiet, Newest, Outcome, Promised, SameOutside, Reaches, Announces,
      Committed, At;
    HomesApart(v.sb, v.cache.View(), v.staged);
    assert 1 !in [0, 0] && 0 in [0, 0];
    r := v.Commit([0, 0]);
  }

  /** The order a commit uses: the one asked for, if it has the right length. */
  function Ordering(order: seq<nat>, n: nat): seq<nat> {
    if |order| == n then order else Straight(n)
  }

  lemma OrderingSlots(order: seq<nat>, n: nat)
    requires |order| == n ==> Slots(order, n)
    ensures Slots(Ordering(order, n), n)
  {
  }

  /** The logged blocks of the slots in `order` are home, the log is cleared, and nothing else changed. */
  ghost predicate Finished(sb: Superblock, view: Disk, view': Disk, homes: seq<nat>, order: seq<nat>) {
    Sane(sb, |view|) && CarriedHome(sb, view[sb.journalStart := ZERO], view', homes, order)
  }

  lemma CarriedFinishes(sb: Superblock, view: Disk, view': Disk, homes: seq<nat>, order: seq<nat>)
    requires CarriedHome(sb, view, view', homes, order)
    ensures Finished(sb, view, view'[sb.journalStart := ZERO], homes, order)
  {
    forall i | 0 <= i < |homes|
      ensures homes[i] != sb.journalStart
    {
      assert !InLog(sb, homes[i]);
    }
  }

  lemma FulfilsShown(sb: Superblock, view: Disk, shown: Disk, homes: seq<nat>, order: seq<nat>)
    requires Shown(sb, view, shown, homes) && Stageable(sb, homes)
    ensures Fulfils(sb, view, homes, order) <==> Fulfils(sb, shown, homes, order)
  {
    hide Committed, Homes, At;
    forall i | 0 <= i < |homes|
      ensures homes[i] < |view| && shown[homes[i]] == view[homes[i]] && shown[sb.journalStart + 1 + i] == view[sb.journalStart + 1 + i]
    {
      assert InRange(sb, homes[i]) && !InLog(sb, homes[i]);
    }
  }

  /** What a finished commit leaves is what it promised exactly when its order fulfils it. */
  lemma FinishedExactly(sb: Superblock, view: Disk, shown: Disk, view': Disk, homes: seq<nat>, order: seq<nat>)
    requires Shown(sb, view, shown, homes) && Stageable(sb, homes) && Slots(order, |homes|)
    requires Finished(sb, shown, view', homes, order)
    ensures Finished(sb, view, view', homes, order)
    ensures Fulfils(sb, view, homes, order) <==> SameOutside(sb, view', Promised(sb, view, homes))
  {
    hide Committed, Homes, At, Next, Last, Stageable, Shown;
    ShownDiffers(sb, view, shown, homes);
    assert shown[sb.journalStart := ZERO] == view[sb.journalStart := ZERO];
    var cleared := view[sb.journalStart := ZERO];
    HomesApart(sb, view, homes);
    forall i | 0 <= i < |homes|
      ensures cleared[homes[i]] == view[homes[i]] && Promised(sb, view, homes)[homes[i]] == view[sb.journalStart + 1 + i]
    {
      NextHome(sb, view, homes, i);
    }
    forall b | 0 <= b < |view| && !InLog(sb, b) && b !in homes
      ensures Promised(sb, view, homes)[b] == view'[b]
    {
    }
  }

  lemma ShownDiffers(sb: Superblock, view: Disk, shown: Disk, homes: seq<nat>)
    requires Shown(sb, view, shown, homes)
    ensures Sane(sb, |view|) && |shown| == |view| && |homes| < sb.journalBlocks && shown == view[sb.journalStart := shown[sb.journalStart]]
  {
    hide Committed, Homes, At;
  }

  lemma HomesApart(sb: Superblock, view: Disk, homes: seq<nat>)
    requires Stageable(sb, homes) && Sane(sb, |view|)
    ensures forall i | 0 <= i < |homes| :: homes[i] < |view| && !InLog(sb, homes[i])
  {
    forall i | 0 <= i < |homes|
      ensures homes[i] < |view| && !InLog(sb, homes[i])
    {
      assert InRange(sb, homes[i]);
    }
  }

  /** A staged slot lies in the log exactly when the log has a block for it; past that it is file data. */
  lemma SlotInLog(sb: Superblock, device: nat, slot: nat)
    requires Sane(sb, device)
    ensures InLog(sb, sb.journalStart + 1 + slot) <==> slot + 1 < sb.journalBlocks
    ensures !InLog(sb, sb.journalStart + 1 + slot) ==> sb.dataStart <= sb.journalStart + 1 + slot
  {
  }

  lemma CalmerSecure(sb: Superblock, book: Book, view: Disk, dirty: set<nat>, history: seq<Disk>, calm: bool, calm': bool)
    requires Secure(sb, book, view, dirty, history, calm) && (calm' ==> calm)
    ensures Secure(sb, book, view, dirty, history, calm')
  {
  }

  /** `view'` is `view` with a whole commit of `homes` in the commit block. */
  ghost predicate Shown(sb: Superblock, view: Disk, view': Disk, homes: seq<nat>) {
    && Sane(sb, |view|) && |view'| == |view|
    && view' == view[sb.journalStart := view'[sb.journalStart]]
    && Count(view'[sb.journalStart]) == |homes| <= MAX_STAGED && |homes| < sb.journalBlocks && Homes(view'[sb.journalStart]) == homes
    && Committed(sb, view').Some?
  }

  lemma ShownBy(sb: Superblock, view: Disk, head: Bytes, sequence: nat, homes: seq<nat>)
    requires Sane(sb, |view|) && |head| == HEAD && 0 < sequence && 0 < |homes| < sb.journalBlocks
    requires Describes(head, sequence, homes, Payload(sb, view, |homes|))
    ensures Shown(sb, view, view[sb.journalStart := Page(head)], homes)
  {
    hide At, Sum, Committed;
    CommitReadsBack(sb, view, head, sequence, homes);
  }

  lemma ShownMeans(sb: Superblock, view: Disk, view': Disk, homes: seq<nat>)
    requires Shown(sb, view, view', homes) && Stageable(sb, homes)
    ensures Count(view'[sb.journalStart]) <= MAX_STAGED && Homes(view'[sb.journalStart]) == homes && |view'| == |view|
    ensures |homes| < sb.journalBlocks && SameOutside(sb, Next(sb, view', homes), Promised(sb, view, homes))
  {
    hide Committed, At, Homes;
    forall b | 0 <= b < |view| && !InLog(sb, b)
      ensures Next(sb, view', homes)[b] == Next(sb, view, homes)[b]
    {
    }
  }

  /** Nothing but slots is in `order`. */
  predicate Slots(order: seq<nat>, n: nat) {
    forall k | 0 <= k < |order| :: order[k] < n
  }

  /** Each slot the order misses has a home that already holds its logged block. */
  predicate Fulfils(sb: Superblock, view: Disk, homes: seq<nat>, order: seq<nat>) {
    && Slots(order, |homes|)
    && forall i | 0 <= i < |homes| && i !in order ::
         homes[i] < |view| && sb.journalStart + 1 + i < |view| && view[homes[i]] == view[sb.journalStart + 1 + i]
  }

  /** Every slot is in `order`, and nothing else is. */
  predicate Covers(order: seq<nat>, n: nat) {
    Slots(order, n) && forall slot | 0 <= slot < n :: slot in order
  }

  /** An order of every slot fulfils whatever commit it is of. */
  lemma CoversFulfils(sb: Superblock, view: Disk, homes: seq<nat>, order: seq<nat>)
    requires |order| == |homes| ==> Covers(order, |homes|)
    ensures Fulfils(sb, view, homes, Ordering(order, |homes|))
  {
    StraightCovers(|homes|);
  }

  function Straight(n: nat): (order: seq<nat>) {
    seq(n, i => i)
  }

  lemma StraightCovers(n: nat)
    ensures Covers(Straight(n), n)
  {
    forall slot | 0 <= slot < n
      ensures slot in Straight(n)
    {
      assert Straight(n)[slot] == slot;
    }
  }

  /** The logged blocks of the slots in `done` are home, and nothing else changed. */
  ghost predicate CarriedHome(sb: Superblock, view: Disk, view': Disk, homes: seq<nat>, done: seq<nat>) {
    && Sane(sb, |view|) && |view'| == |view| && Stageable(sb, homes) && |homes| < sb.journalBlocks
    && (forall b | 0 <= b < |view| && b !in homes :: view'[b] == view[b])
    && forall i | 0 <= i < |homes| ::
         view'[homes[i]] == if i in done then view[sb.journalStart + 1 + i] else view[homes[i]]
  }

  lemma CarriedLog(sb: Superblock, view: Disk, view': Disk, homes: seq<nat>, done: seq<nat>)
    requires CarriedHome(sb, view, view', homes, done)
    ensures |view'| == |view| && forall b | 0 <= b < |view| && InLog(sb, b) :: view'[b] == view[b]
  {
  }

  lemma CarriedNone(sb: Superblock, view: Disk, homes: seq<nat>)
    requires Sane(sb, |view|) && Stageable(sb, homes) && |homes| < sb.journalBlocks
    ensures CarriedHome(sb, view, view, homes, [])
  {
  }

  lemma CarriedMore(sb: Superblock, view: Disk, view': Disk, homes: seq<nat>, order: seq<nat>, k: nat)
    requires k < |order| && order[k] < |homes| && CarriedHome(sb, view, view', homes, order[..k])
    ensures CarriedHome(sb, view, view'[homes[order[k]] := view'[sb.journalStart + 1 + order[k]]], homes, order[..k + 1])
  {
    CarriedLog(sb, view, view', homes, order[..k]);
    assert forall i :: i in order[..k + 1] <==> i in order[..k] || i == order[k];
  }

  lemma CarriedIsNext(sb: Superblock, view: Disk, view': Disk, homes: seq<nat>, order: seq<nat>)
    requires CarriedHome(sb, view, view', homes, order) && Fulfils(sb, view, homes, order)
    ensures view' == Next(sb, view, homes)
  {
    hide Next, CarriedHome;
    OrderExactly(sb, view, view', homes, order);
  }

  /** An order carries out the commit exactly when each slot it misses has a home that already holds its logged block. */
  lemma OrderExactly(sb: Superblock, view: Disk, view': Disk, homes: seq<nat>, order: seq<nat>)
    requires CarriedHome(sb, view, view', homes, order)
    ensures view' == Next(sb, view, homes)
            <==> forall i | 0 <= i < |homes| && i !in order :: view[homes[i]] == view[sb.journalStart + 1 + i]
  {
    hide Next, Last, Stageable;
    forall i | 0 <= i < |homes|
      ensures homes[i] < |view| && Next(sb, view, homes)[homes[i]] == view[sb.journalStart + 1 + i]
    {
      NextHome(sb, view, homes, i);
    }
    forall b | 0 <= b < |view| && b !in homes
      ensures Next(sb, view, homes)[b] == view'[b]
    {
    }
    assert (forall i | 0 <= i < |homes| :: view'[homes[i]] == Next(sb, view, homes)[homes[i]]) ==> view' == Next(sb, view, homes);
  }

  lemma NextHome(sb: Superblock, view: Disk, homes: seq<nat>, i: nat)
    requires Sane(sb, |view|) && Stageable(sb, homes) && i < |homes| < sb.journalBlocks
    ensures homes[i] < |view| && Next(sb, view, homes)[homes[i]] == view[sb.journalStart + 1 + i]
  {
    hide Next;
    assert InRange(sb, homes[i]) && homes[i] in homes;
    var k := Last(homes, homes[i]) - 1;
    assert homes[k] == homes[i];
  }

  /** What one commit may have come to: nothing, the commit block shown (and perhaps landed), or done. */
  ghost predicate Outcome(book: Book, book': Book, next: Disk) {
    && book.phase.Building? && Kept(book, book')
    && |book.marks| <= |book'.marks| && book'.marks[..|book.marks|] == book.marks
    && (forall i | |book.marks| <= i < |book'.marks| ::
          || book'.marks[i] == Mark(book.txn, book.phase.now)
          || (book'.marks[i].txn == book.txn + 1 && Reaches(book'.marks[i].stand, next)))
    && (|| (book'.txn == book.txn && book'.phase == book.phase)
        || (&& book'.txn == book.txn && book'.phase.Committing? && book'.phase.was == book.phase.now
            && Reaches(book'.phase.will, next))
        || (book'.txn == book.txn + 1 && book'.phase.Building? && Reaches(book'.phase.now, next)))
  }

  /** The stand is the state `next`, everywhere. */
  ghost predicate Reaches(s: Stand, next: Disk) {
    s.state == next && s.loose == {} && s.origin.Known?
  }

  /** What a commit of `staged` promises; one the log cannot hold is refused, and promises nothing. */
  ghost function Promised(sb: Superblock, view: Disk, staged: seq<nat>): Disk
    requires Sane(sb, |view|)
  {
    if |staged| < sb.journalBlocks then Next(sb, view, staged) else view
  }

  /** A commit's outcome, from what was noted while building and what was noted from then on. */
  lemma OutcomeOf(book: Book, mid: Book, book': Book, next: Disk)
    requires book.phase.Building? && Added(book, mid) && Added(mid, book') && mid.txn == book.txn
    requires mid.phase == book.phase
             || (mid.phase.Committing? && mid.phase.was == book.phase.now && Reaches(mid.phase.will, next))
    requires Alike(mid, book') || Cleared(mid, book')
    ensures Outcome(book, book', next)
  {
    forall i | |book.marks| <= i < |book'.marks|
      ensures || book'.marks[i] == Mark(book.txn, book.phase.now)
              || (book'.marks[i].txn == book.txn + 1 && Reaches(book'.marks[i].stand, next))
    {
      if i < |mid.marks| {
        assert book'.marks[i] == book'.marks[..|mid.marks|][i];
      }
    }
    assert book'.marks[..|book.marks|] == mid.marks[..|book.marks|];
  }

  /** The commit that was under way is done. */
  ghost predicate Cleared(book: Book, book': Book) {
    book.phase.Committing? && book'.txn == book.txn + 1 && book'.phase == Building(book.phase.will)
  }

  /** While committing, clearing the commit block changes it. */
  lemma ClearingChanges(sb: Superblock, book: Book, view: Disk, dirty: set<nat>, h: seq<Disk>, calm: bool)
    requires Secure(sb, book, view, dirty, h, calm) && book.phase.Committing?
    ensures Sane(sb, |view|) && view[sb.journalStart] != ZERO
  {
    hide Secure, At, Sum, Committed;
    ShownCommits(sb, book, view, dirty, h, calm);
    CommittedMeans(sb, view);
    ZeroAnnouncesNothing();
  }

  lemma ShowsDevice(cache: Cache)
    requires cache.Valid() && cache.Waiting() == {}
    ensures cache.View() == cache.store.blocks
  {
    hide Coherent, Timed;
    NothingWaits(cache.Now(), [], []);
  }

  /** A commit block on the device as shown stays so, and no other comes there. */
  lemma ArrivedStays(sb: Superblock, h: seq<Disk>, h': seq<Disk>, view: Disk, dirty: set<nat>)
    requires Spills(h, h', view, dirty) && 0 < |h| && |h[|h| - 1]| == |view|
    ensures sb.journalStart < |view| ==>
              && 0 < |h'| && |h'[|h'| - 1]| == |view|
              && (h'[|h'| - 1][sb.journalStart] == h[|h| - 1][sb.journalStart] || h'[|h'| - 1][sb.journalStart] == view[sb.journalStart])
  {
    hide SpillStep;
    if sb.journalStart < |view| && |h'| > |h| {
      SpillsLeave(h, h', view, dirty, |h'| - 1, sb.journalStart);
    }
  }

  lemma SpillsGrow(h: seq<Disk>, h': seq<Disk>, view: Disk, dirty: set<nat>)
    requires Spills(h, h', view, dirty)
    ensures |h| < |h'| || h' == h
  {
  }

  lemma AddedJoin(a: Book, b: Book, c: Book)
    requires Added(a, b) && Added(b, c) && Alike(a, b)
    ensures Added(a, c)
  {
  }

  lemma AddedPhases(a: Book, b: Book, c: Book)
    requires Added(a, b) && Added(b, c) && Possible(b.phase, b.txn) <= Possible(a.phase, a.txn)
    ensures Added(a, c)
  {
  }

  lemma AddedSame(book: Book)
    ensures Added(book, book)
  {
  }

  lemma SetsSees(st: State, h: seq<Disk>, st': State, h': seq<Disk>, block: nat, bytes: Block)
    requires Sets(st, h, st', h', block, bytes)
    ensures |st.slots| == |st.frames| && |st'.slots| == |st'.frames| && block < |st.disk|
    ensures View(st') == View(st)[block := bytes]
    ensures Dirty(st'.slots) <= Dirty(st.slots) + {block}
    ensures Spills(h, h', View(st), Dirty(st.slots))
    ensures Free(st.slots) ==> Free(st'.slots)
  {
  }

  lemma LooksSpills(st: State, h: seq<Disk>, st': State, h': seq<Disk>)
    requires Looks(st, h, st', h')
    ensures |st.slots| == |st.frames| && |st'.slots| == |st'.frames| && View(st') == View(st)
    ensures Dirty(st'.slots) <= Dirty(st.slots)
    ensures Spills(h, h', View(st), Dirty(st.slots))
    ensures Free(st.slots) ==> Free(st'.slots)
  {
  }
}
