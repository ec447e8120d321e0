/**
 Why a cache whose commit block has not reached the device must not be mounted: the
 replay may put one home on the device before it, and a machine that stops there
 mounts to neither state.
 */
module Tearing {
  import opened Words
  import opened Blocks
  import opened Superblocks
  import opened CacheModel
  import opened PageCache
  import opened Journal
  import opened Recovery
  import opened Ledger
  import opened Volumes
  import opened Mounting

  /** A disk that recovers neither to where it was nor to where it will be. */
  ghost predicate Torn(sb: Superblock, e: Disk, was: Stand, will: Stand) {
    !RecoversTo(sb, e, was) && !RecoversTo(sb, e, will)
  }

  /** A disk a replay may leave before the commit block lands: some homes carried, the rest as they were. */
  ghost predicate PartCarried(sb: Superblock, view: Disk, d: Disk, will: Stand, e: Disk)
    requires Sane(sb, |d|) && |view| == |d| == |will.state| && Committed(sb, view).Some?
  {
    |e| == |d| && forall b | 0 <= b < |d| :: e[b] == d[b] || (b in Homes(view[sb.journalStart]) && e[b] == will.state[b])
  }

  /** The commit changes this home, which the journal covers. */
  ghost predicate Changes(sb: Superblock, view: Disk, d: Disk, was: Stand, will: Stand, b: nat)
    requires Sane(sb, |d|) && |view| == |d| == |will.state| && Committed(sb, view).Some?
  {
    b < |d| && b in Homes(view[sb.journalStart]) && will.state[b] != d[b]
  }

  /** A commit in the cache that has not landed, over a device that commits nothing. */
  ghost predicate Unlanded(sb: Superblock, view: Disk, d: Disk, was: Stand, will: Stand) {
    && Commits(sb, view, d, was, will) && Sane(sb, |d|) && |view| == |d| == |will.state|
    && !Landed(sb, view, d) && Committed(sb, d).None? && Committed(sb, view).Some?
  }

  /** Such a disk recovers to itself. */
  lemma PartRecovers(sb: Superblock, view: Disk, d: Disk, was: Stand, will: Stand, e: Disk)
    requires Unlanded(sb, view, d, was, will) && PartCarried(sb, view, d, will, e)
    ensures Committed(sb, e).None? && Recovered(sb, e) == Ok(e) && Contained(sb, e)
    ensures e[0] == d[0] == was.state[0] == will.state[0]
  {
    hide Committed, Genuine, Traced, Sum, At;
    var homes := Homes(view[sb.journalStart]);
    forall b | 0 <= b < |d| && InLog(sb, b)
      ensures e[b] == d[b]
    {
      assert b !in homes;
    }
    assert SameLog(sb, d, e);
    SameLogCommits(sb, d, e);
    assert 0 !in homes;
  }

  /** It recovers to where it was exactly when no home the journal covers has changed. */
  lemma KeepsOld(sb: Superblock, view: Disk, d: Disk, was: Stand, will: Stand, e: Disk)
    requires Unlanded(sb, view, d, was, will) && PartCarried(sb, view, d, will, e)
    ensures RecoversTo(sb, e, was) <==> forall b: nat | Changes(sb, view, d, was, will, b) && b !in was.loose :: e[b] == d[b]
  {
    hide Committed, Genuine, Traced, Recovered, Contained, Homes;
    PartRecovers(sb, view, d, was, will, e);
    HomesOutside(sb, view, d, was, will);
    assert forall b: nat | b < |d| && e[b] != d[b] :: Changes(sb, view, d, was, will, b);
    assert forall b: nat | b < |d| && !InLog(sb, b) && b !in was.loose :: d[b] == was.state[b];
  }

  lemma HomesOutside(sb: Superblock, view: Disk, d: Disk, was: Stand, will: Stand)
    requires Unlanded(sb, view, d, was, will)
    ensures forall b: nat | Changes(sb, view, d, was, will, b) :: !InLog(sb, b)
    ensures Rests(sb, d, was) && forall b: nat | b < |d| && !InLog(sb, b) && b !in Homes(view[sb.journalStart]) :: d[b] == will.state[b]
  {
    hide Committed, Rests;
  }

  /** It recovers to where it will be exactly when every home has changed that will. */
  lemma KeepsNew(sb: Superblock, view: Disk, d: Disk, was: Stand, will: Stand, e: Disk)
    requires Unlanded(sb, view, d, was, will) && PartCarried(sb, view, d, will, e)
    ensures RecoversTo(sb, e, will) <==> forall b: nat | Changes(sb, view, d, was, will, b) :: e[b] != d[b]
  {
    hide Committed, Rests, Recovered, Contained, Homes;
    PartRecovers(sb, view, d, was, will, e);
    HomesOutside(sb, view, d, was, will);
    assert forall b: nat | b < |d| && !InLog(sb, b) && d[b] != will.state[b] :: Changes(sb, view, d, was, will, b);
  }

  /** Some disk a mount may leave on its way is torn. */
  ghost predicate CanTear(sb: Superblock, view: Disk, d: Disk, was: Stand, will: Stand)
    requires Sane(sb, |view|) && |view| == |d|
  {
    exists e :: OnTheWay(sb, view, d, e) && Torn(sb, e, was, will)
  }

  /** The commit changes two homes, one of which the journal covers. */
  ghost predicate ChangesTwo(sb: Superblock, view: Disk, d: Disk, was: Stand, will: Stand)
    requires Sane(sb, |d|) && |view| == |d| == |will.state| && Committed(sb, view).Some?
  {
    exists early: nat, late: nat ::
      Changes(sb, view, d, was, will, early) && Changes(sb, view, d, was, will, late) && early != late && early !in was.loose
  }

  /** Before the commit has landed, what a mount may leave is part carried, or recovers to where the disk will be. */
  lemma UnlandedWay(sb: Superblock, view: Disk, d: Disk, was: Stand, will: Stand, e: Disk)
    requires Unlanded(sb, view, d, was, will) && OnTheWay(sb, view, d, e)
    ensures PartCarried(sb, view, d, will, e) || RecoversTo(sb, e, will)
  {
    hide Rests, Committed, Recovered, Contained, Homes, RecoversTo, Within, Allowed, Promises;
    UnlandedSizes(sb, view, d, was, will);
    PendingIs(sb, view);
    if Recovered(sb, view) == Ok(e) {
      RecoveredReaches(sb, view, d, was, will, e);
    } else {
      WithinWay(sb, view, d, was, will, e);
      if e[sb.journalStart] == view[sb.journalStart] {
        LandedOnTheWay(sb, view, d, was, will, e);
      }
    }
  }

  /** Block by block, what a replay may leave of a commit that has not landed. */
  lemma WithinWay(sb: Superblock, view: Disk, d: Disk, was: Stand, will: Stand, e: Disk)
    requires Unlanded(sb, view, d, was, will) && Within(e, Allowed(sb, view, d, Homes(view[sb.journalStart])))
    ensures |e| == |d| && (e[sb.journalStart] == d[sb.journalStart] || e[sb.journalStart] == view[sb.journalStart])
    ensures forall b | 0 <= b < |d| && b != sb.journalStart ::
              e[b] == d[b] || (b in Homes(view[sb.journalStart]) && e[b] == will.state[b])
  {
    hide Committed, Homes, Commits, Allowed, InLog;
    UnlandedSizes(sb, view, d, was, will);
    var homes := Homes(view[sb.journalStart]);
    forall b | 0 <= b < |d|
      ensures e[b] == d[b] || e[b] == view[b] || (b in homes && e[b] == will.state[b])
    {
      var i := AllowedIs(sb, view, d, homes, b, e[b]);
      if i < |homes| {
        UnlandedHome(sb, view, d, was, will, homes, i);
      }
    }
  }

  lemma LandedOnTheWay(sb: Superblock, view: Disk, d: Disk, was: Stand, will: Stand, e: Disk)
    requires Unlanded(sb, view, d, was, will) && |e| == |d| && e[sb.journalStart] == view[sb.journalStart]
    requires forall b | 0 <= b < |d| && b != sb.journalStart ::
               e[b] == d[b] || (b in Homes(view[sb.journalStart]) && e[b] == will.state[b])
    ensures RecoversTo(sb, e, will)
  {
    hide Rests, Committed, Homes, Stands, RecoversTo, Final;
    assert Commits(sb, view, e, was, will);
    LandedStands(sb, view, e, was, will);
  }

  /** What a commit shown recovers to is what it promises, and it then recovers to itself. */
  lemma RecoveredReaches(sb: Superblock, view: Disk, d: Disk, was: Stand, will: Stand, e: Disk)
    requires Commits(sb, view, d, was, will) && Recovered(sb, view) == Ok(e)
    ensures RecoversTo(sb, e, will) && SameOutside(sb, e, will.state) && Committed(sb, e).None? && e[sb.journalStart] == ZERO
  {
    hide Rests, Committed, Homes, Landed, Replay;
    var homes := Homes(view[sb.journalStart]);
    RecoveredStays(sb, view);
    RecoveredNone(sb, e);
    RecoveredSome(sb, view);
    forall b | 0 <= b < |view| && !InLog(sb, b)
      ensures e[b] == will.state[b]
    {
      RecoveredAt(sb, view, b);
    }
  }

  /** Once the commit has landed, a mount passes only through disks that stand where the commit promised. */
  lemma LandedWay(sb: Superblock, view: Disk, d: Disk, was: Stand, will: Stand, e: Disk)
    requires Commits(sb, view, d, was, will) && Sane(sb, |d|) && |view| == |d| && Landed(sb, view, d) && OnTheWay(sb, view, d, e)
    ensures Stands(sb, e, will) && Upright(sb, e, will.origin)
  {
    hide Rests, Committed, Recovered, Contained, Homes, RecoversTo, Within, Allowed, Commits, Forged, Genuine, Announces, Upright;
    CommitsPromise(sb, view, d, was, will);
    if Recovered(sb, view) == Ok(e) {
      RecoveredReaches(sb, view, d, was, will, e);
      PromiseIsGenuine(sb, view, will);
      ZeroAnnouncesNothing();
      NothingAnnounced(sb, e, will.origin);
    } else {
      PendingIs(sb, view);
      LandedWithin(sb, view, d, was, will, e);
      LandedStands(sb, view, e, was, will);
      LandedUpright(sb, view, e, was, will);
    }
  }

  lemma CommitsPromise(sb: Superblock, view: Disk, d: Disk, was: Stand, will: Stand)
    requires Commits(sb, view, d, was, will)
    ensures Promises(sb, view, will) && Sane(sb, |view|) && |view| == |d| == |will.state| && Committed(sb, view).Some?
    ensures 0 !in will.loose && Contained(sb, view)
  {
    hide Rests, Committed, Homes, Landed;
  }

  lemma LandedWithin(sb: Superblock, view: Disk, d: Disk, was: Stand, will: Stand, e: Disk)
    requires Commits(sb, view, d, was, will) && Sane(sb, |d|) && |view| == |d| && Landed(sb, view, d)
    requires Committed(sb, view).Some? && Within(e, Allowed(sb, view, d, Homes(view[sb.journalStart])))
    ensures Commits(sb, view, e, was, will) && |e| == |d| && Landed(sb, view, e)
  {
    hide Rests, Committed, Homes, Final, Allowed;
    var homes := Homes(view[sb.journalStart]);
    forall b | 0 <= b < |d| && b !in homes
      ensures e[b] == d[b] || e[b] == view[b]
    {
      var i := AllowedIs(sb, view, d, homes, b, e[b]);
    }
  }

  lemma PartIsOnTheWay(sb: Superblock, view: Disk, d: Disk, was: Stand, will: Stand, e: Disk)
    requires Unlanded(sb, view, d, was, will) && PartCarried(sb, view, d, will, e)
    ensures OnTheWay(sb, view, d, e)
  {
    hide Rests, Committed, Homes, Recovered, Last;
    var homes := Homes(view[sb.journalStart]);
    PendingIs(sb, view);
    forall b | 0 <= b < |d|
      ensures e[b] in Allowed(sb, view, d, homes)[b]
    {
      if e[b] != d[b] {
        var i := Last(homes, b) - 1;
        LoggedAt(sb, view, will, homes, i);
      }
    }
  }

  /**
   A mount of a cache whose commit has not landed can leave a disk that recovers neither
   way exactly when the commit changes two homes, one of which the journal covers.
   */
  lemma TearsExactly(sb: Superblock, view: Disk, d: Disk, was: Stand, will: Stand)
    requires Unlanded(sb, view, d, was, will)
    ensures CanTear(sb, view, d, was, will) <==> ChangesTwo(sb, view, d, was, will)
  {
    hide RecoversTo, PartCarried, Commits, Committed, ChangesTwo, Homes, OnTheWay;
    if CanTear(sb, view, d, was, will) {
      var e :| OnTheWay(sb, view, d, e) && Torn(sb, e, was, will);
      UnlandedWay(sb, view, d, was, will, e);
      TornNeedsTwo(sb, view, d, was, will, e);
    }
    if ChangesTwo(sb, view, d, was, will) {
      var early, late := TwoHomes(sb, view, d, was, will);
      OneHomeTears(sb, view, d, was, will, early, late);
      PartIsOnTheWay(sb, view, d, was, will, d[early := will.state[early]]);
    }
  }

  lemma TwoHomes(sb: Superblock, view: Disk, d: Disk, was: Stand, will: Stand) returns (early: nat, late: nat)
    requires Sane(sb, |d|) && |view| == |d| == |will.state| && Committed(sb, view).Some? && ChangesTwo(sb, view, d, was, will)
    ensures Changes(sb, view, d, was, will, early) && Changes(sb, view, d, was, will, late) && early != late && early !in was.loose
  {
    hide Committed, Changes;
    early, late :|
      Changes(sb, view, d, was, will, early) && Changes(sb, view, d, was, will, late) && early != late && early !in was.loose;
  }

  lemma TornNeedsTwo(sb: Superblock, view: Disk, d: Disk, was: Stand, will: Stand, e: Disk)
    requires Unlanded(sb, view, d, was, will) && PartCarried(sb, view, d, will, e) && Torn(sb, e, was, will)
    ensures ChangesTwo(sb, view, d, was, will)
  {
    hide RecoversTo, Commits, Homes, Committed;
    KeepsOld(sb, view, d, was, will, e);
    KeepsNew(sb, view, d, was, will, e);
    var early: nat :| Changes(sb, view, d, was, will, early) && early !in was.loose && e[early] != d[early];
    var late: nat :| Changes(sb, view, d, was, will, late) && e[late] == d[late];
    assert early != late;
  }

  lemma OneHomeTears(sb: Superblock, view: Disk, d: Disk, was: Stand, will: Stand, early: nat, late: nat)
    requires Unlanded(sb, view, d, was, will) && early != late && early !in was.loose
    requires Changes(sb, view, d, was, will, early) && Changes(sb, view, d, was, will, late)
    ensures var e := d[early := will.state[early]]; PartCarried(sb, view, d, will, e) && Torn(sb, e, was, will)
  {
    hide RecoversTo, Commits, Homes;
    var e := d[early := will.state[early]];
    KeepsOld(sb, view, d, was, will, e);
    KeepsNew(sb, view, d, was, will, e);
    assert e[early] != d[early] && e[late] == d[late];
  }

  // ----- a replay that does it

  lemma Wanted(wants: seq<nat>, x: nat, y: nat)
    ensures LastWanted(wants + [x], y) == if x == y then |wants| + 1 else LastWanted(wants, y)
  {
    assert (wants + [x])[..|wants|] == wants;
  }

  /** Three frames, none held: `q`, `i` and `t` hold what they hold, and `dirty` says which wait. */
  ghost predicate Three(st: State, q: nat, i: nat, t: nat) {
    && |st.slots| == 3 && Coherent(st) && Free(st.slots)
    && q < 3 && i < 3 && t < 3 && q != i && i != t && q != t
  }

  /** The frame used is the one whose block was wanted before the other two. */
  lemma OldestGoes(st: State, wants: seq<nat>, h: seq<Disk>, st': State, h': seq<Disk>, block: nat, j: nat, q: nat, i: nat, t: nat)
    requires Three(st, q, i, t) && Fetched(st, wants, h, st', h', block, j)
    requires st.slots[q].block.Some? && st.slots[i].block.Some? && st.slots[q].block != Some(block) && st.slots[i].block != Some(block)
    requires st.slots[t].block.Some? ==>
               && LastWanted(wants, st.slots[t].block.value) < LastWanted(wants, st.slots[q].block.value)
               && LastWanted(wants, st.slots[t].block.value) < LastWanted(wants, st.slots[i].block.value)
    ensures j == t && h' == h + (if st.slots[t].block == Some(block) then [] else Spilled(st, t))
  {
    hide Coherent, LastWanted, Spilled;
  }

  /** A block that waits is the only one that does. */
  lemma OnlyWaits(st: State, b: nat, q: nat)
    requires Coherent(st) && Dirty(st.slots) <= {b} && q < |st.slots| && st.slots[q].block == Some(b)
    ensures forall j | 0 <= j < |st.slots| && j != q :: !st.slots[j].dirty
  {
    forall j | 0 <= j < |st.slots| && j != q
      ensures !st.slots[j].dirty
    {
      assert SlotOk(st.slots[j], st.frames[j], st.disk);
      if st.slots[j].dirty {
        assert st.slots[j].block.value in Dirty(st.slots);
        FindSlot(st, q);
      }
    }
  }

  /** The block wanted last is not the one whose frame is used, if there is another. */
  lemma NewestStays(st: State, wants: seq<nat>, h: seq<Disk>, st': State, h': seq<Disk>, block: nat, j: nat, q: nat)
    requires |st.slots| == 3 && Free(st.slots) && q < 3 && st.slots[q].block.Some? && st.slots[q].block != Some(block)
    requires LastWanted(wants, st.slots[q].block.value) == |wants| && Fetched(st, wants, h, st', h', block, j)
    ensures j != q && (!st.slots[j].dirty ==> h' == h)
  {
    var other := if q == 0 then 1 else 0;
    assert !st.slots[other].pinned;
  }

  /** Fetching a block that is there changes no frame's block and nothing on the device. */
  lemma HitKeeps(st: State, wants: seq<nat>, h: seq<Disk>, st': State, h': seq<Disk>, block: nat, q: nat, j: nat)
    requires Coherent(st) && q < |st.slots| && st.slots[q].block == Some(block) && Fetched(st, wants, h, st', h', block, j)
    ensures j == q && h' == h && st'.slots[q].block == Some(block) && st'.slots[q].dirty == st.slots[q].dirty
    ensures forall k | 0 <= k < |st.slots| && k != q :: st'.slots[k] == st.slots[k]
  {
    FindSlot(st, q);
  }

  /** After one round: the commit block, its first logged block and that block's home, which waits, fill the three frames. */
  ghost predicate Round(st: State, wants: seq<nat>, head: nat, slot: nat, home: nat, q: nat, i: nat, t: nat) {
    && Three(st, q, i, t) && st.slots[q].block == Some(head) && st.slots[i].block == Some(slot) && st.slots[t].block == Some(home)
    && !st.slots[i].dirty && st.slots[t].dirty && LastWanted(wants, slot) < LastWanted(wants, home)
  }

  lemma TwiceWanted(wants: seq<nat>, s: nat, x: nat)
    ensures LastWanted(wants + [s, s], x) == if x == s then |wants| + 2 else LastWanted(wants, x)
  {
    assert wants + [s] + [s] == wants + [s, s];
    Wanted(wants, s, x);
    Wanted(wants + [s], s, x);
  }

  lemma NewerIs(wants: seq<nat>, newest: nat, x: nat)
    requires LastWanted(wants, newest) == |wants| > 0 && x != newest
    ensures LastWanted(wants, x) < |wants|
  {
  }

  lemma LastWantedSmall(wants: seq<nat>, x: nat)
    ensures LastWanted(wants, x) <= |wants|
  {
  }

  /** What a fetch leaves in the frames. */
  lemma FetchedFrames(st: State, wants: seq<nat>, h: seq<Disk>, st': State, h': seq<Disk>, block: nat, j: nat)
    requires Fetched(st, wants, h, st', h', block, j)
    ensures |st'.slots| == |st.slots| && j < |st.slots| && st'.slots[j].block == Some(block)
    ensures forall k | 0 <= k < |st.slots| && k != j :: st'.slots[k] == st.slots[k]
    ensures st.slots[j].block.None? || st.slots[j].block == Some(block) || !st'.slots[j].dirty
    ensures !st.slots[j].dirty ==> !st'.slots[j].dirty
  {
  }

  lemma LooksFrames(st: State, h: seq<Disk>, st': State, h': seq<Disk>)
    requires Looks(st, h, st', h') && Free(st.slots)
    ensures Coherent(st') && |st'.slots| == |st'.frames| && Free(st'.slots) && View(st') == View(st)
  {
  }

  lemma NotTwice(st: State, i: nat, j: nat)
    requires Coherent(st) && i < |st.slots| && j < |st.slots| && i != j && st.slots[i].block.Some?
    ensures st.slots[i].block != st.slots[j].block
  {
  }

  /** The first admission of a round spares the commit block, and writes nothing. */
  lemma FirstHalf(st: State, wants: seq<nat>, h: seq<Disk>, t: Trail, slots: seq<Slot>, h': seq<Disk>,
                  head: nat, slot: nat, home: nat, q: nat)
    requires |st.slots| == 3 && Coherent(st) && Free(st.slots) && q < 3 && st.slots[q].block == Some(head)
    requires Dirty(st.slots) <= {head} && LastWanted(wants, head) == |wants| && head != slot
    requires Copied(st, wants, h, t, slots, h', slot, home)
    ensures t.source < 3 && t.source != q && t.midway == h && |t.mid.slots| == 3 && Coherent(t.mid) && Free(t.mid.slots)
    ensures t.mid.slots[q] == st.slots[q] && t.mid.slots[t.source].block == Some(slot)
    ensures forall j | 0 <= j < 3 && j != q :: !t.mid.slots[j].dirty
  {
    hide LastWanted, Fetched, Looks, Coherent, LeastWanted, Dirty, Free;
    OnlyWaits(st, head, q);
    NewestStays(st, wants, h, t.mid, t.midway, slot, t.source, q);
    FetchedFrames(st, wants, h, t.mid, t.midway, slot, t.source);
    LooksFrames(st, h, t.mid, t.midway);
  }

  lemma CopiedFetches(st: State, wants: seq<nat>, h: seq<Disk>, t: Trail, slots: seq<Slot>, h': seq<Disk>, from: nat, to: nat)
    requires Copied(st, wants, h, t, slots, h', from, to)
    ensures Fetched(t.mid, wants + [from, from], t.midway, t.both, h', to, t.destination)
    ensures t.destination < |t.both.slots| && slots == t.both.slots[t.destination := t.both.slots[t.destination].(dirty := true)]
  {
    hide Looks;
  }

  /** The first round writes nothing to the device. */
  lemma FirstRound(st: State, wants: seq<nat>, h: seq<Disk>, t: Trail, st': State, h': seq<Disk>, head: nat, slot: nat, home: nat, q: nat)
    returns (third: nat)
    requires |st.slots| == 3 && Coherent(st) && Free(st.slots) && Coherent(st') && Free(st'.slots) && q < 3
    requires st.slots[q].block == Some(head) && Dirty(st.slots) <= {head} && LastWanted(wants, head) == |wants| > 0
    requires head != slot && head != home && slot != home && Copied(st, wants, h, t, st'.slots, h', slot, home)
    ensures Round(st', wants + [slot, slot, home], head, slot, home, q, t.source, third) && h' == h
  {
    hide LastWanted, Fetched, Looks, Coherent, LeastWanted, Dirty, Free, Spilled, Copied;
    CopiedFetches(st, wants, h, t, st'.slots, h', slot, home);
    FirstHalf(st, wants, h, t, st'.slots, h', head, slot, home, q);
    third := 3 - q - t.source;
    var wants' := wants + [slot, slot];
    TwiceWanted(wants, slot, head);
    TwiceWanted(wants, slot, slot);
    Wanted(wants', home, slot);
    Wanted(wants', home, home);
    assert wants' + [home] == wants + [slot, slot, home];
    if t.mid.slots[third].block.Some? {
      var x := t.mid.slots[third].block.value;
      NotTwice(t.mid, third, t.source);
      NotTwice(t.mid, third, q);
      TwiceWanted(wants, slot, x);
      NewerIs(wants, head, x);
    }
    OldestGoes(t.mid, wants', t.midway, t.both, h', home, t.destination, q, t.source, third);
    FetchedFrames(t.mid, wants', t.midway, t.both, h', home, t.destination);
    CleanSpills(t.mid, third);
  }

  lemma CleanSpills(st: State, i: nat)
    requires i < |st.slots| && !st.slots[i].dirty
    ensures Spilled(st, i) == []
  {
  }

  /** The second round gives the first home's frame away, and so puts that home on the device. */
  lemma SecondRound(st: State, before: seq<nat>, h: seq<Disk>, t: Trail, slots: seq<Slot>, h': seq<Disk>,
                    head: nat, slot: nat, home: nat, slot2: nat, home2: nat, q: nat, i: nat, third: nat)
    requires Round(st, before, head, slot, home, q, i, third)
    requires 0 < |h| && h[|h| - 1] == st.disk && Copied(st, before + [head], h, t, slots, h', slot2, home2)
    requires head != slot2 && head != home2 && slot2 != home2 && home != home2 && home != slot2 && slot != slot2
    requires head != slot && head != home
    ensures home < |st.disk| && |st.slots| == |st.frames| && h' == h + [st.disk[home := View(st)[home]]]
  {
    hide LastWanted, Fetched, Looks, Coherent, LeastWanted, Free, Spilled, CacheModel.View;
    var wants := before + [head];
    Wanted(before, head, slot);
    Wanted(before, head, home);
    Wanted(before, head, head);
    LastWantedSmall(before, home);
    OldestGoes(st, wants, h, t.mid, t.midway, slot2, t.source, q, third, i);
    CleanSpills(st, i);
    SecondHalf(st, wants, h, t, slots, h', head, home, slot2, home2, q, i, third);
  }

  lemma SecondHalf(st: State, wants: seq<nat>, h: seq<Disk>, t: Trail, slots: seq<Slot>, h': seq<Disk>,
                   head: nat, home: nat, slot2: nat, home2: nat, q: nat, i: nat, third: nat)
    requires Three(st, q, i, third) && st.slots[q].block == Some(head) && st.slots[third].block == Some(home) && st.slots[third].dirty
    requires 0 < |h| && h[|h| - 1] == st.disk && Copied(st, wants, h, t, slots, h', slot2, home2) && t.source == i && t.midway == h
    requires head != slot2 && head != home2 && slot2 != home2 && home != home2 && home != slot2 && head != home
    requires LastWanted(wants, home) < LastWanted(wants, head)
    ensures home < |st.disk| && |st.slots| == |st.frames| && h' == h + [st.disk[home := View(st)[home]]]
  {
    hide LastWanted, Fetched, Looks, Coherent, LeastWanted, Free, Spilled, CacheModel.View;
    var wants' := wants + [slot2, slot2];
    TwiceWanted(wants, slot2, head);
    TwiceWanted(wants, slot2, home);
    TwiceWanted(wants, slot2, slot2);
    LastWantedSmall(wants, home);
    FetchedFrames(st, wants, h, t.mid, t.midway, slot2, i);
    LooksFrames(st, h, t.mid, t.midway);
    OldestGoes(t.mid, wants', t.midway, t.both, h', home2, t.destination, q, i, third);
    SpillsShown(t.mid, third, home);
    CoherentSizes(st, third);
  }

  lemma SpillsShown(st: State, i: nat, b: nat)
    requires Coherent(st) && i < |st.slots| && st.slots[i].block == Some(b) && st.slots[i].dirty
    ensures b < |st.disk| && Spilled(st, i) == [st.disk[b := View(st)[b]]]
  {
    FindSlot(st, i);
  }

  lemma CoherentSizes(st: State, i: nat)
    requires Coherent(st) && i < |st.slots| && st.slots[i].block.Some?
    ensures |st.slots| == |st.frames| && st.slots[i].block.value < |st.disk|
  {
    FindSlot(st, i);
  }

  /** What a replay over three frames needs to tear: a commit that has not landed, and two homes it changes. */
  ghost predicate Poised(sb: Superblock, view: Disk, d: Disk, was: Stand, will: Stand) {
    && Unlanded(sb, view, d, was, will)
    && var homes := Homes(view[sb.journalStart]);
    && 2 <= |homes| && homes[0] !in was.loose
    && Changes(sb, view, d, was, will, homes[0]) && Changes(sb, view, d, was, will, homes[1])
  }

  /** The two homes, the first two logged blocks and the commit block are five blocks of the device. */
  lemma PoisedBlocks(sb: Superblock, view: Disk, d: Disk, was: Stand, will: Stand)
    requires Poised(sb, view, d, was, will)
    ensures Sane(sb, |d|) && |view| == |d| && 2 <= Count(view[sb.journalStart]) <= MAX_STAGED
    ensures sb.journalStart + 2 < sb.dataStart
    ensures var h0, h1 := Target(view[sb.journalStart], 0), Target(view[sb.journalStart], 1);
      && h0 < |d| && h1 < |d| && h0 != h1 && InRange(sb, h0) && InRange(sb, h1) && !InLog(sb, h0) && !InLog(sb, h1)
      && var e := d[h0 := view[sb.journalStart + 1]]; Torn(sb, e, was, will)
  {
    hide Rests, At, Torn, Homes, Landed, Committed, Changes, Unlanded;
    UnlandedSizes(sb, view, d, was, will);
    var homes := Homes(view[sb.journalStart]);
    UnlandedHome(sb, view, d, was, will, homes, 0);
    UnlandedHome(sb, view, d, was, will, homes, 1);
    HomesAt(view[sb.journalStart], 0);
    HomesAt(view[sb.journalStart], 1);
    OneHomeTears(sb, view, d, was, will, homes[0], homes[1]);
  }

  lemma UnlandedSizes(sb: Superblock, view: Disk, d: Disk, was: Stand, will: Stand)
    requires Unlanded(sb, view, d, was, will)
    ensures Sane(sb, |d|) && |view| == |d| == |will.state| && Committed(sb, view).Some?
    ensures Count(view[sb.journalStart]) <= MAX_STAGED && Count(view[sb.journalStart]) < sb.journalBlocks
    ensures Distinct(Homes(view[sb.journalStart])) && sb.journalStart !in Homes(view[sb.journalStart])
    ensures forall b | 0 <= b < |d| && b != sb.journalStart :: view[b] == d[b]
  {
    hide Rests, At, Homes, Committed;
  }

  lemma UnlandedHome(sb: Superblock, view: Disk, d: Disk, was: Stand, will: Stand, homes: seq<nat>, i: nat)
    requires Unlanded(sb, view, d, was, will) && homes == Homes(view[sb.journalStart]) && i < |homes|
    ensures Sane(sb, |d|) && |view| == |d| && |homes| == Count(view[sb.journalStart]) <= MAX_STAGED && |homes| < sb.journalBlocks
    ensures homes[i] < |d| && InRange(sb, homes[i]) && !InLog(sb, homes[i]) && will.state[homes[i]] == view[sb.journalStart + 1 + i]
  {
    hide Rests, At, Homes, Landed, Committed;
    LoggedAt(sb, view, will, homes, i);
  }

  /** A home named once is promised the logged block that names it. */
  lemma LoggedAt(sb: Superblock, view: Disk, will: Stand, homes: seq<nat>, i: nat)
    requires Promises(sb, view, will) && homes == Homes(view[sb.journalStart]) && i < |homes|
    ensures homes[i] < |view| && will.state[homes[i]] == view[sb.journalStart + 1 + i]
  {
    hide Committed, At, Homes, Last;
    assert InRange(sb, homes[i]) && !InLog(sb, homes[i]) && homes[i] in homes;
    assert homes[Last(homes, homes[i]) - 1] == homes[i];
  }

  /** The first round of a replay over three frames: the first home waits in the cache, and the device is as it was. */
  method TornRound(cache: Cache, sb: Superblock, ghost was: Stand, ghost will: Stand)
    returns (r: Result<(), FsError>, ghost q: nat, ghost i: nat, ghost third: nat)
    requires cache.Valid() && cache.count == 3 && Free(cache.slots) && cache.Waiting() <= {sb.journalStart}
    requires |cache.store.blocks| < U32 && Poised(sb, cache.View(), cache.store.blocks, was, will)
    modifies cache.Repr()
    ensures cache.Valid() && Free(cache.slots) && |cache.View()| == |old(cache.View())| && cache.store.Ages()
    ensures r.Err? ==> cache.store.Failed()
    ensures r.Ok? ==>
      && var view, js := old(cache.View()), sb.journalStart;
      && js + 1 < |view| && cache.store.history == old(cache.store.history)
      && var home := Target(view[js], 0);
      && Round(cache.Now(), cache.wants, js, js + 1, home, q, i, third)
      && home < |view| && cache.View() == view[home := view[js + 1]]
  {
    hide Looks, Sets, Coherent, Timed, CacheModel.View, Dirty, At, FromLe, Announces, Spills, Committed, AllPinned,
      Cramped, Homes, Free, Torn, Poised, Fetched, LastWanted, Copied, Round;
    i, third := 0, 0;
    ghost var st, h, view, w := cache.Now(), cache.store.history, cache.View(), cache.wants;
    PoisedBlocks(sb, view, cache.store.blocks, was, will);
    ghost var js, home0 := sb.journalStart, Target(view[sb.journalStart], 0);
    q := WaitingFrame(sb, st, was, will);
    FreeHelps(cache.slots, 0, 0);
    var home := ReadHome(cache, sb, 0);
    ghost var st1 := cache.Now();
    LooksSpills(st, h, st1, cache.store.history);
    if home.Err? {
      return Err(home.error), q, i, third;
    }
    HitKeeps(st, w, h, st1, cache.store.history, js, q, Find(cache.slots, js).value);
    Wanted(w, js, js);
    FreeHelps(cache.slots, js + 1, home.value);
    var copied, trail := cache.Copy(sb.journalStart + 1, home.value);
    ghost var st2 := cache.Now();
    if copied.Err? {
      LooksSpills(st1, h, st2, cache.store.history);
      return Err(copied.error), q, i, third;
    }
    SetsSees(st1, h, st2, cache.store.history, home0, View(st1)[js + 1]);
    third := FirstRound(st1, w + [js], h, trail, st2, cache.store.history, js, js + 1, home0, q);
    return Ok(()), q, trail.source, third;
  }

  /**
   The first two rounds of a replay, as a mount makes them, over three frames none of
   which is held, in the state a commit leaves whose second flush was refused. Unless
   the device fails, the first home is on it before the commit block, and a machine
   that stopped there mounts to neither state.
   */
  method TornReplay(cache: Cache, sb: Superblock, ghost was: Stand, ghost will: Stand) returns (r: Result<(), FsError>)
    requires cache.Valid() && cache.count == 3 && Free(cache.slots) && cache.Waiting() <= {sb.journalStart}
    requires |cache.store.blocks| < U32 && Poised(sb, cache.View(), cache.store.blocks, was, will)
    modifies cache.Repr()
    ensures r.Err? ==> cache.store.Failed()
    ensures r.Ok? ==> exists k | |old(cache.store.history)| <= k < |cache.store.history| ::
                        Torn(sb, cache.store.history[k], was, will)
  {
    hide Looks, Sets, Coherent, Timed, CacheModel.View, Dirty, At, FromLe, Announces, Spills, Committed, AllPinned,
      Cramped, Homes, Free, Torn, Poised, Fetched, LastWanted, Copied, Round;
    ghost var h, view, d := cache.store.history, cache.View(), cache.store.blocks;
    PoisedBlocks(sb, view, d, was, will);
    ghost var js, h0, h1 := sb.journalStart, Target(view[sb.journalStart], 0), Target(view[sb.journalStart], 1);
    ghost var q, i, third;
    r, q, i, third := TornRound(cache, sb, was, will);
    if r.Err? {
      return;
    }
    ghost var st, w := cache.Now(), cache.wants;
    FreeHelps(cache.slots, 0, 0);
    var home := ReadHome(cache, sb, 1);
    if home.Err? {
      return Err(home.error);
    }
    ghost var st1 := cache.Now();
    LooksSpills(st, h, st1, cache.store.history);
    RoundKept(st, w, h, st1, cache.store.history, js, js + 1, h0, q, i, third, Find(cache.slots, js).value);
    FreeHelps(cache.slots, js + 2, home.value);
    ghost var trail: Trail;
    r, trail := cache.Copy(sb.journalStart + 2, home.value);
    if r.Ok? {
      SecondRound(st1, w, h, trail, cache.slots, cache.store.history, js, js + 1, h0, js + 2, h1, q, i, third);
      assert Torn(sb, cache.store.history[|h|], was, will);
    }
  }

  lemma RoundKept(st: State, wants: seq<nat>, h: seq<Disk>, st': State, h': seq<Disk>,
                  head: nat, slot: nat, home: nat, q: nat, i: nat, t: nat, j: nat)
    requires Round(st, wants, head, slot, home, q, i, t) && Fetched(st, wants, h, st', h', head, j) && Coherent(st') && Free(st'.slots)
    ensures Round(st', wants, head, slot, home, q, i, t) && h' == h
  {
    hide Coherent, Fetched, Free, LastWanted;
    HitKeeps(st, wants, h, st', h', head, q, j);
    FetchedFrames(st, wants, h, st', h', head, j);
  }

  lemma WaitingFrame(sb: Superblock, st: State, was: Stand, will: Stand) returns (q: nat)
    requires Coherent(st) && Poised(sb, View(st), st.disk, was, will)
    ensures q < |st.slots| && st.slots[q].block == Some(sb.journalStart) && st.slots[q].dirty
  {
    hide Committed, Homes, Rests, Promises;
    if sb.journalStart !in Dirty(st.slots) {
      CleanAgrees(st, sb.journalStart);
    }
    q :| 0 <= q < |st.slots| && st.slots[q].dirty && st.slots[q].block == Some(sb.journalStart);
  }

  /** A commit that has not landed is poised, if its first two homes change. */
  lemma CommitsPoised(sb: Superblock, view: Disk, d: Disk, was: Stand, will: Stand, homes: seq<nat>)
    requires Commits(sb, view, d, was, will) && !Landed(sb, view, d) && Committed(sb, d).None? && Stageable(sb, homes)
    requires Count(view[sb.journalStart]) <= MAX_STAGED && homes == Homes(view[sb.journalStart]) && 2 <= |homes| < sb.journalBlocks
    requires homes[0] !in was.loose
    requires forall i | 0 <= i < 2 :: view[homes[i]] != view[sb.journalStart + 1 + i]
    ensures Poised(sb, view, d, was, will)
  {
    hide Commits, Landed, Committed, At, Homes, Changes, Unlanded, Announces, InRange, InLog;
    CommitsUnlanded(sb, view, d, was, will);
    UnlandedSizes(sb, view, d, was, will);
    HomeChanges(sb, view, d, was, will, homes, 0);
    HomeChanges(sb, view, d, was, will, homes, 1);
  }

  lemma CommitsUnlanded(sb: Superblock, view: Disk, d: Disk, was: Stand, will: Stand)
    requires Commits(sb, view, d, was, will) && !Landed(sb, view, d) && Committed(sb, d).None?
    ensures Unlanded(sb, view, d, was, will)
  {
    hide Rests, At, Homes, Landed, Committed;
  }

  lemma HomeChanges(sb: Superblock, view: Disk, d: Disk, was: Stand, will: Stand, homes: seq<nat>, i: nat)
    requires Unlanded(sb, view, d, was, will) && Stageable(sb, homes) && homes == Homes(view[sb.journalStart]) && i < |homes|
    requires view[homes[i]] != view[sb.journalStart + 1 + i]
    ensures Changes(sb, view, d, was, will, homes[i])
  {
    hide Rests, At, Homes, Landed, Committed;
    UnlandedHome(sb, view, d, was, will, homes, i);
    assert homes[i] in homes;
  }

  lemma SecureCommits(sb: Superblock, book: Book, view: Disk, dirty: set<nat>, h: seq<Disk>, calm: bool)
    requires Secure(sb, book, view, dirty, h, calm) && book.phase.Committing?
    ensures h != [] && Commits(sb, view, h[|h| - 1], book.phase.was, book.phase.will)
  {
    hide Commits, Ordered, Stands, Owned, Upright, Calm, PhaseOwned, MarkOf;
  }

  /** A volume whose commit was shown and did not land is poised, if its first two homes change. */
  lemma RefusedIsPoised(v: Volume)
    requires v.Valid() && v.book.phase.Committing? && !Landed(v.sb, v.cache.View(), v.cache.store.blocks)
    requires Committed(v.sb, v.cache.store.blocks).None? && 2 <= |v.staged| < v.sb.journalBlocks
    requires Count(v.cache.View()[v.sb.journalStart]) <= MAX_STAGED && Homes(v.cache.View()[v.sb.journalStart]) == v.staged
    requires v.staged[0] !in v.book.phase.was.loose
    requires forall i | 0 <= i < 2 :: v.cache.View()[v.staged[i]] != v.cache.View()[v.SlotBlock(i)]
    ensures Poised(v.sb, v.cache.View(), v.cache.store.blocks, v.book.phase.was, v.book.phase.will)
  {
    hide Secure, Commits, Landed, Committed, At, ReadHead, Timed, Coherent, Homes, Poised, CacheModel.View, Dirty, Quiet;
    SecureCommits(v.sb, v.book, v.cache.View(), v.cache.Waiting(), v.cache.store.history, v.Steady());
    CommitsPoised(v.sb, v.cache.View(), v.cache.store.blocks, v.book.phase.was, v.book.phase.will, v.staged);
  }

  /** Whether the cache shows a commit block that announces something and that the device does not hold. */
  method HeaderWaits(cache: Cache, sb: Superblock) returns (waits: bool)
    requires cache.Valid() && sb.journalStart < |cache.store.blocks|
    ensures waits <==> && cache.View()[sb.journalStart] != cache.store.blocks[sb.journalStart]
                       && Announces(cache.View()[sb.journalStart], sb.journalBlocks)
  {
    hide Coherent, Timed, At, Announces;
    var at := cache.Resident(sb.journalStart);
    var head := if at.Some? then cache.frames[at.value] else cache.store.blocks[sb.journalStart];
    return head != cache.store.blocks[sb.journalStart] && Announces(head, sb.journalBlocks);
  }

  /** What the first two homes of a transaction being built need for its commit to be able to tear. */
  ghost predicate TwoChange(v: Volume)
    requires v.cache.Valid()
    reads v, v.cache, v.cache.store
  {
    && 2 <= |v.staged| < v.sb.journalBlocks && v.book.phase.Building? && v.staged[0] !in v.book.phase.now.loose
    && forall i | 0 <= i < 2 ::
         && v.staged[i] < |v.cache.View()| && v.SlotBlock(i) < |v.cache.View()|
         && v.cache.View()[v.staged[i]] != v.cache.View()[v.SlotBlock(i)]
  }

  /**
   A commit over three frames none of which is held and, if its commit block was refused
   by the device, the first two rounds of the replay a mount begins with: unless the
   device fails once more they leave a disk that recovers neither to where it was nor to
   where it will be.
   */
  method CommitThenMount(v: Volume) returns (r: Result<(), FsError>, mounted: Option<Result<(), FsError>>)
    requires v.Valid() && v.open && v.cache.count == 3 && Free(v.cache.slots) && TwoChange(v)
    requires !Announces(v.cache.View()[v.sb.journalStart], v.sb.journalBlocks)
    modifies v.Repr()
    ensures mounted.None? ==> v.Valid() && (v.book.phase.Committing? ==> v.Arrived())
    ensures mounted.Some? ==> r.Err? && v.book.phase.Committing?
    ensures mounted.Some? && mounted.value.Err? ==> old(v.cache.store.faults) + 2 <= v.cache.store.faults
    ensures mounted.Some? && mounted.value.Ok? ==>
              exists k | |old(v.cache.store.history)| <= k < |v.cache.store.history| ::
                Torn(v.sb, v.cache.store.history[k], v.book.phase.was, v.book.phase.will)
  {
    hide Secure, Coherent, Timed, ReadHead, CacheModel.View, Dirty, Free, Quiet, Newest, Promised, SameOutside, Announces, Committed, At,
      Shown, Fulfils, Ordering, Finished, Stageable, Homes, Torn, Poised, Reaches;
    mounted := None;
    StraightFulfils(v.sb, v.cache.View(), v.staged);
    r := v.Commit([]);
    if r.Ok? {
      return;
    }
    var waits := HeaderWaits(v.cache, v.sb);
    StuckMeans(v.sb, v.book, v.cache.View(), v.cache.Waiting(), v.cache.store.history, v.Steady());
    if !waits {
      return;
    }
    ZeroAnnouncesNothing();
    ShownMeans(v.sb, old(v.cache.View()), v.cache.View(), v.staged);
    ShownDiffers(v.sb, old(v.cache.View()), v.cache.View(), v.staged);
    HomesApart(v.sb, v.cache.View(), v.staged);
    NothingAnnounced(v.sb, v.cache.store.blocks, Unknown);
    RefusedIsPoised(v);
    var replayed := TornReplay(v.cache, v.sb, v.book.phase.was, v.book.phase.will);
    mounted := Some(replayed);
  }

  /** A commit that is shown announces itself. */
  lemma StuckMeans(sb: Superblock, book: Book, view: Disk, dirty: set<nat>, h: seq<Disk>, calm: bool)
    requires Secure(sb, book, view, dirty, h, calm)
    ensures book.phase.Committing? ==> Sane(sb, |view|) && Announces(view[sb.journalStart], sb.journalBlocks)
  {
    hide Secure, At, Sum, Committed, Announces;
    if book.phase.Committing? {
      ShownCommits(sb, book, view, dirty, h, calm);
      CommittedMeans(sb, view);
    }
  }

  lemma StraightFulfils(sb: Superblock, view: Disk, homes: seq<nat>)
    requires homes != []
    ensures Fulfils(sb, view, homes, Ordering([], |homes|))
  {
    CoversFulfils(sb, view, homes, []);
  }
}
