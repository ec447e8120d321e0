/** Mounting: replaying a committed transaction, and starting again after a machine stopped or an operation failed. */
module Mounting {
  import opened Words
  import opened Blocks
  import opened Superblocks
  import opened CacheModel
  import opened PageCache
  import opened Journal
  import opened Recovery
  import opened Ledger
  import opened Volumes

  // ----- what the device may go through on the way

  /** What each block of a device may hold. */
  type Choices = seq<set<Block>>

  ghost predicate Within(e: Disk, choices: Choices) {
    |e| == |choices| && forall b | 0 <= b < |e| :: e[b] in choices[b]
  }

  ghost predicate AllWithin(h: seq<Disk>, base: nat, choices: Choices) {
    forall k | base <= k < |h| :: Within(h[k], choices)
  }

  /** Writing back what is shown leaves a device where it may be, if what is shown may be there. */
  lemma SpillsWithin(h: seq<Disk>, h': seq<Disk>, view: Disk, dirty: set<nat>, base: nat, choices: Choices)
    requires Spills(h, h', view, dirty) && AllWithin(h, base, choices) && base < |h| && Within(view, choices) && view != []
    ensures AllWithin(h', base, choices)
  {
    hide SpillStep, Within;
    forall k | base <= k < |h'|
      ensures Within(h'[k], choices)
    {
      if k < |h| {
        assert h'[k] == h'[..|h|][k];
      } else {
        StepsWithin(h, h', view, dirty, k, choices);
      }
    }
  }

  lemma StepsWithin(h: seq<Disk>, h': seq<Disk>, view: Disk, dirty: set<nat>, k: nat, choices: Choices)
    requires Spills(h, h', view, dirty) && 0 < |h| <= k < |h'| && Within(h[|h| - 1], choices) && Within(view, choices) && view != []
    ensures Within(h'[k], choices)
  {
    hide Spills;
    SpillsLeave(h, h', view, dirty, k, 0);
    forall b | 0 <= b < |view|
      ensures h'[k][b] in choices[b]
    {
      SpillsLeave(h, h', view, dirty, k, b);
    }
  }

  /**
   What a replay of `homes` may leave at each block: what the device held, what was
   shown, or, at a home, a logged block that names it.
   */
  ghost function Allowed(sb: Superblock, v: Disk, d: Disk, homes: seq<nat>): (choices: Choices)
    requires Sane(sb, |v|) && |d| == |v| && |homes| < sb.journalBlocks
    ensures |choices| == |v|
  {
    seq(|v|, b requires 0 <= b < |v| => {d[b], v[b]} + (set i | 0 <= i < |homes| && homes[i] == b :: v[sb.journalStart + 1 + i]))
  }

  /** What is allowed at a block: `i` is a slot that names it, or past the homes. */
  lemma AllowedIs(sb: Superblock, v: Disk, d: Disk, homes: seq<nat>, b: nat, bytes: Block) returns (i: nat)
    requires Sane(sb, |v|) && |d| == |v| && |homes| < sb.journalBlocks && b < |v| && bytes in Allowed(sb, v, d, homes)[b]
    ensures i < |homes| ==> homes[i] == b && bytes == v[sb.journalStart + 1 + i]
    ensures i >= |homes| ==> bytes == d[b] || bytes == v[b]
  {
    if bytes == d[b] || bytes == v[b] {
      i := |homes|;
    } else {
      i :| 0 <= i < |homes| && homes[i] == b && bytes == v[sb.journalStart + 1 + i];
    }
  }

  /** The homes of what is shown committed; none if nothing is. */
  ghost function Pending(sb: Superblock, v: Disk): (homes: seq<nat>)
    requires Sane(sb, |v|)
    ensures |homes| < sb.journalBlocks
  {
    if Committed(sb, v).Some? then Homes(v[sb.journalStart]) else []
  }

  /** A disk a mount of `v` over `d` may leave on its way: not yet replayed to the end, or recovered. */
  ghost predicate OnTheWay(sb: Superblock, v: Disk, d: Disk, e: Disk)
    requires Sane(sb, |v|) && |d| == |v|
  {
    Within(e, Allowed(sb, v, d, Pending(sb, v))) || Recovered(sb, v) == Ok(e)
  }

  /** The blocks a device does not hold as shown, other than the homes of what is committed. */
  ghost function Adrift(sb: Superblock, v: Disk, d: Disk): set<nat>
    requires Sane(sb, |v|) && |d| == |v|
  {
    set b | 0 <= b < |v| && v[b] != d[b] && b !in Pending(sb, v)
  }

  /** `e` recovers to what `v` does, but at the blocks in `except`. */
  ghost predicate RecoversLike(sb: Superblock, v: Disk, e: Disk, except: set<nat>)
    requires Sane(sb, |v|) && Recovered(sb, v).Ok?
  {
    && |e| == |v| && Contained(sb, e) && Recovered(sb, e).Ok?
    && forall b | 0 <= b < |v| && b !in except :: Recovered(sb, e).value[b] == Recovered(sb, v).value[b]
  }

  /** With its log on the device, a replay passes only through disks that recover as the view does, but where it was adrift. */
  lemma OnTheWayRecovers(sb: Superblock, v: Disk, d: Disk, e: Disk)
    requires Sane(sb, |v|) && Contained(sb, v) && Committed(sb, v).Some? && Recovered(sb, v).Ok?
    requires |d| == |v| && SameLog(sb, v, d) && OnTheWay(sb, v, d, e)
    ensures RecoversLike(sb, v, e, Adrift(sb, v, d))
    ensures (|e| == |v| && SameLog(sb, v, e)) || Recovered(sb, v) == Ok(e)
  {
    hide Committed, Recovered, Contained, Homes, RecoversLike;
    if Recovered(sb, v) == Ok(e) {
      RecoveredStays(sb, v);
      LikeWithMore(sb, v, e, Adrift(sb, v, d));
    } else {
      WithinRecovers(sb, v, d, e);
    }
  }

  lemma WithinRecovers(sb: Superblock, v: Disk, d: Disk, e: Disk)
    requires Sane(sb, |v|) && Contained(sb, v) && Committed(sb, v).Some? && Recovered(sb, v).Ok?
    requires |d| == |v| && SameLog(sb, v, d) && Within(e, Allowed(sb, v, d, Pending(sb, v)))
    ensures RecoversLike(sb, v, e, Adrift(sb, v, d)) && |e| == |v| && SameLog(sb, v, e)
  {
    hide Committed, Replay, At, Homes;
    var homes := Homes(v[sb.journalStart]);
    assert SameLog(sb, v, e);
    SameLogCommits(sb, v, e);
    forall b | 0 <= b < |v| && b !in Adrift(sb, v, d)
      ensures Recovered(sb, e).value[b] == Recovered(sb, v).value[b]
    {
      if b != sb.journalStart {
        RecoveredAt(sb, v, b);
        RecoveredAt(sb, e, b);
      }
    }
  }

  /** What recovery leaves recovers to itself. */
  lemma RecoveredStays(sb: Superblock, v: Disk)
    requires Sane(sb, |v|) && Contained(sb, v) && Recovered(sb, v).Ok?
    ensures Committed(sb, Recovered(sb, v).value).None? && RecoversLike(sb, v, Recovered(sb, v).value, {})
    ensures Committed(sb, v).Some? ==> Committed(sb, v).value.sequence < U64
  {
    hide Sum, FromLe, Replay;
    Spans();
    ZeroAnnouncesNothing();
  }

  // ----- the replay

  lemma OneOut(sb: Superblock, homes: seq<nat>, i: nat)
    requires i < |homes|
    ensures AllInRange(sb, homes) ==> InRange(sb, homes[i])
  {
  }

  lemma HomesAt(head: Block, i: nat)
    requires i < Count(head) <= MAX_STAGED
    ensures Homes(head)[i] == Target(head, i)
  {
  }

  lemma ReplayNothing(sb: Superblock, d: Disk, homes: seq<nat>)
    requires Sane(sb, |d|)
    ensures AllInRange(sb, homes[..0]) && Replay(sb, d, homes[..0]) == d
  {
  }

  /** A replay under way shows only what it may leave. */
  lemma ReplayWithin(sb: Superblock, v: Disk, d: Disk, homes: seq<nat>, i: nat)
    requires Sane(sb, |v|) && |d| == |v| && i <= |homes| < sb.journalBlocks && AllInRange(sb, homes[..i]) && Outside(sb, homes)
    ensures Within(Replay(sb, v, homes[..i]), Allowed(sb, v, d, homes))
    ensures Replay(sb, v, homes[..i])[sb.journalStart] == v[sb.journalStart]
  {
    hide Replay;
    forall b | 0 <= b < |v|
      ensures Replay(sb, v, homes[..i])[b] in Allowed(sb, v, d, homes)[b]
    {
      ReplayAt(sb, v, homes[..i], b);
      var k := Last(homes[..i], b);
      if k > 0 {
        assert homes[k - 1] == homes[..i][k - 1] == b;
      }
    }
    ReplayAt(sb, v, homes[..i], sb.journalStart);
    assert sb.journalStart !in homes[..i];
  }

  lemma ReplayStep(sb: Superblock, d: Disk, homes: seq<nat>, i: nat)
    requires Sane(sb, |d|) && i < |homes| < sb.journalBlocks && AllInRange(sb, homes[..i]) && InRange(sb, homes[i])
    ensures AllInRange(sb, homes[..i + 1])
    ensures Replay(sb, d, homes[..i + 1])
            == Replay(sb, d, homes[..i])[homes[i] := Replay(sb, d, homes[..i])[sb.journalStart + 1 + i]]
  {
    assert homes[..i + 1][..i] == homes[..i];
  }

  /** Nothing stands in the way of reading and copying: no pin, no failure, block numbers that fit. */
  ghost predicate Unhindered(sb: Superblock, slots: seq<Slot>, failed: bool) {
    Free(slots) && !failed && sb.journalStart < U32
  }

  /** Carries one logged block home, the ones before it having been carried. */
  method ReplayOne(cache: Cache, sb: Superblock, index: nat, ghost v: Disk, ghost d: Disk, ghost homes: seq<nat>, ghost base: nat)
    returns (r: Result<(), FsError>)
    requires cache.Valid() && Sane(sb, |cache.store.blocks|) && |cache.View()| == |v| == |d| && base < |cache.store.history|
    requires Count(v[sb.journalStart]) <= MAX_STAGED && homes == Homes(v[sb.journalStart]) && Outside(sb, homes)
    requires index < |homes| < sb.journalBlocks && AllInRange(sb, homes[..index]) && cache.View() == Replay(sb, v, homes[..index])
    requires AllWithin(cache.store.history, base, Allowed(sb, v, d, homes))
    modifies cache.Repr()
    ensures cache.Valid() && |cache.View()| == |v| && base < |cache.store.history|
    ensures AllWithin(cache.store.history, base, Allowed(sb, v, d, homes))
    ensures r.Ok? ==> AllInRange(sb, homes[..index + 1]) && cache.View() == Replay(sb, v, homes[..index + 1])
    ensures r.Err? && Unhindered(sb, old(cache.slots), cache.store.Failed()) ==> !AllInRange(sb, homes)
    ensures cache.store.Ages() && (Free(old(cache.slots)) ==> Free(cache.slots))
  {
    hide Looks, Sets, Coherent, Timed, CacheModel.View, Dirty, At, FromLe, Announces, Spills, Committed, AllPinned,
      Cramped, AllWithin, Within, Allowed, Replay, AllInRange, Homes, Free, Copied, Fetched, SpillStep;
    ghost var choices := Allowed(sb, v, d, homes);
    ghost var st, h := cache.Now(), cache.store.history;
    ReplayWithin(sb, v, d, homes, index);
    HomesAt(v[sb.journalStart], index);
    FreeHelps(st.slots, 0, 0);
    var home := ReadHome(cache, sb, index);
    ghost var st', h' := cache.Now(), cache.store.history;
    LooksSpills(st, h, st', h');
    SpillsWithin(h, h', View(st), Dirty(st.slots), base, choices);
    if home.Err? {
      OneOut(sb, homes, index);
      return Err(home.error);
    }
    FreeHelps(st'.slots, sb.journalStart + 1 + index, home.value);
    var copied, _ := cache.Copy(sb.journalStart + 1 + index, home.value);
    ghost var st'', h'' := cache.Now(), cache.store.history;
    if copied.Err? {
      LooksSpills(st', h', st'', h'');
      SpillsWithin(h', h'', View(st'), Dirty(st'.slots), base, choices);
      return copied;
    }
    SetsSees(st', h', st'', h'', home.value, View(st')[sb.journalStart + 1 + index]);
    SpillsWithin(h', h'', View(st'), Dirty(st'.slots), base, choices);
    ReplayStep(sb, v, homes, index);
    return Ok(());
  }

  /** Carries every logged block home in the cache, in log order; `d` is what the device held before the mount. */
  method ReplayLog(cache: Cache, sb: Superblock, count: nat, ghost d: Disk, ghost base: nat)
    returns (r: Result<(), FsError>)
    requires cache.Valid() && Sane(sb, |cache.store.blocks|) && base < |cache.store.history| && |d| == |cache.View()|
    requires Committed(sb, cache.View()).Some? && Contained(sb, cache.View()) && count == Count(cache.View()[sb.journalStart])
    requires AllWithin(cache.store.history, base, Allowed(sb, cache.View(), d, Homes(cache.View()[sb.journalStart])))
    modifies cache.Repr()
    ensures cache.Valid() && |cache.View()| == |old(cache.View())| && base < |cache.store.history|
    ensures var homes := Homes(old(cache.View())[sb.journalStart]);
      && AllWithin(cache.store.history, base, Allowed(sb, old(cache.View()), d, homes))
      && (r.Ok? ==> AllInRange(sb, homes) && cache.View() == Replay(sb, old(cache.View()), homes))
      && (r.Err? && Unhindered(sb, old(cache.slots), cache.store.Failed()) ==> !AllInRange(sb, homes))
    ensures cache.store.Ages() && (Free(old(cache.slots)) ==> Free(cache.slots))
  {
    hide Coherent, Timed, CacheModel.View, Dirty, At, FromLe, Announces, Committed, AllWithin, Allowed, Replay, AllInRange, Homes, Free;
    ghost var v := cache.View();
    ghost var homes := Homes(v[sb.journalStart]);
    ReplayNothing(sb, v, homes);
    for index := 0 to count
      invariant cache.Valid() && |cache.View()| == |v| && base < |cache.store.history|
      invariant AllWithin(cache.store.history, base, Allowed(sb, v, d, homes))
      invariant AllInRange(sb, homes[..index]) && cache.View() == Replay(sb, v, homes[..index])
      invariant cache.store.Ages() && (Free(old(cache.slots)) ==> Free(cache.slots))
    {
      var carried := ReplayOne(cache, sb, index, v, d, homes, base);
      if carried.Err? {
        return carried;
      }
    }
    assert homes[..count] == homes;
    return Ok(());
  }

  lemma RecoveredNone(sb: Superblock, d: Disk)
    requires Sane(sb, |d|) && Committed(sb, d).None?
    ensures Recovered(sb, d) == Ok(d)
  {
  }

  lemma RecoveredOut(sb: Superblock, d: Disk)
    requires Sane(sb, |d|) && Committed(sb, d).Some?
    ensures !AllInRange(sb, Homes(d[sb.journalStart])) ==> Recovered(sb, d).Err?
  {
  }

  lemma RecoveredSome(sb: Superblock, d: Disk)
    requires Sane(sb, |d|) && Committed(sb, d).Some? && AllInRange(sb, Homes(d[sb.journalStart]))
    ensures Recovered(sb, d) == Ok(Replay(sb, d, Homes(d[sb.journalStart]))[sb.journalStart := ZERO])
  {
    hide Committed;
  }

  /** Every disk from `base` on is one a mount may leave on its way. */
  ghost predicate AllOnTheWay(sb: Superblock, v: Disk, d: Disk, h: seq<Disk>, base: nat)
    requires Sane(sb, |v|) && |d| == |v|
  {
    forall k | base <= k < |h| :: OnTheWay(sb, v, d, h[k])
  }

  lemma WithinIsOnTheWay(sb: Superblock, v: Disk, d: Disk, h: seq<Disk>, base: nat)
    requires Sane(sb, |v|) && |d| == |v| && AllWithin(h, base, Allowed(sb, v, d, Pending(sb, v)))
    ensures AllOnTheWay(sb, v, d, h, base)
  {
    hide Within, Allowed, Pending, Recovered;
  }

  /** Puts the replayed homes on the device, and only then clears the log. */
  method FinishReplay(cache: Cache, sb: Superblock, ghost v: Disk, ghost d: Disk, ghost base: nat)
    returns (r: Result<(), FsError>)
    requires cache.Valid() && Sane(sb, |v|) && |cache.store.blocks| == |v| == |d| && base < |cache.store.history|
    requires Committed(sb, v).Some? && Contained(sb, v) && AllInRange(sb, Homes(v[sb.journalStart])) && Recovered(sb, v).Ok?
    requires cache.View() == Replay(sb, v, Homes(v[sb.journalStart]))
    requires AllWithin(cache.store.history, base, Allowed(sb, v, d, Pending(sb, v)))
    modifies cache.Repr()
    ensures cache.Valid() && |cache.store.blocks| == |v|
    ensures r.Ok? ==> cache.Waiting() == {} && cache.store.blocks == cache.View() == Recovered(sb, v).value
    ensures AllOnTheWay(sb, v, d, cache.store.history, base)
    ensures r.Err? ==> cache.store.Failed() || !Free(old(cache.slots))
    ensures cache.store.Ages() && (Free(old(cache.slots)) ==> Free(cache.slots))
  {
    hide Looks, Sets, Coherent, Timed, CacheModel.View, Dirty, At, FromLe, Announces, Spills, Committed, AllPinned,
      AllWithin, Within, Allowed, Pending, AllOnTheWay, Homes, Contained, Replay, Recovered, Free;
    ghost var st, h := cache.Now(), cache.store.history;
    RecoveredSome(sb, v);
    PendingWithin(sb, v, d);
    var flushed := cache.Flush();
    ghost var st1, h1 := cache.Now(), cache.store.history;
    LooksSpills(st, h, st1, h1);
    SpillsWithin(h, h1, View(st), Dirty(st.slots), base, Allowed(sb, v, d, Pending(sb, v)));
    WithinIsOnTheWay(sb, v, d, h1, base);
    if flushed.Err? {
      return Err(flushed.error);
    }
    FreeHelps(st1.slots, 0, 0);
    r := cache.Put(sb.journalStart, ZERO);
    ghost var st2, h2 := cache.Now(), cache.store.history;
    if r.Err? {
      LooksSpills(st1, h1, st2, h2);
      NothingWaits(st1, h1, h2);
      return;
    }
    assert ZERO[..BLOCK] == ZERO;
    SetsSees(st1, h1, st2, h2, sb.journalStart, ZERO);
    NothingWaits(st1, h1, h2);
    var cleared := cache.Flush();
    ghost var st3, h3 := cache.Now(), cache.store.history;
    LooksSpills(st2, h2, st3, h3);
    ClearedOnTheWay(sb, v, d, h2, h3, View(st2), Dirty(st2.slots), base);
    if cleared.Err? {
      return Err(cleared.error);
    }
    return Ok(());
  }

  lemma PendingWithin(sb: Superblock, v: Disk, d: Disk)
    requires Sane(sb, |v|) && |d| == |v| && Committed(sb, v).Some? && Contained(sb, v) && AllInRange(sb, Homes(v[sb.journalStart]))
    ensures Within(Replay(sb, v, Homes(v[sb.journalStart])), Allowed(sb, v, d, Pending(sb, v)))
  {
    hide Committed, Homes, Replay, Within, Allowed;
    var homes := Homes(v[sb.journalStart]);
    assert homes[..|homes|] == homes;
    ReplayWithin(sb, v, d, homes, |homes|);
  }

  /** The last write of a recovery clears the log over homes that are done. */
  lemma ClearedOnTheWay(sb: Superblock, v: Disk, d: Disk, h: seq<Disk>, h': seq<Disk>, view: Disk, dirty: set<nat>, base: nat)
    requires Sane(sb, |v|) && |d| == |v| && Recovered(sb, v) == Ok(view) && base < |h|
    requires AllOnTheWay(sb, v, d, h, base) && Spills(h, h', view, dirty)
    requires |h[|h| - 1]| == |v| && view == h[|h| - 1][sb.journalStart := view[sb.journalStart]]
    ensures AllOnTheWay(sb, v, d, h', base)
  {
    hide Committed, Recovered, SpillStep, Within, Allowed, Pending;
    forall k | base <= k < |h'|
      ensures OnTheWay(sb, v, d, h'[k])
    {
      if k < |h| {
        assert h'[k] == h'[..|h|][k];
      } else {
        ClearingIs(sb, h, h', view, dirty, k);
      }
    }
  }

  lemma LikeWithMore(sb: Superblock, v: Disk, e: Disk, except: set<nat>)
    requires Sane(sb, |v|) && Recovered(sb, v).Ok? && RecoversLike(sb, v, e, {})
    ensures RecoversLike(sb, v, e, except)
  {
  }

  /** One block differs, so each disk on the way is the one before or the one after. */
  lemma ClearingIs(sb: Superblock, h: seq<Disk>, h': seq<Disk>, view: Disk, dirty: set<nat>, k: nat)
    requires 0 < |h| <= k < |h'| && Spills(h, h', view, dirty) && Sane(sb, |view|)
    requires |h[|h| - 1]| == |view| && view == h[|h| - 1][sb.journalStart := view[sb.journalStart]]
    ensures h'[k] == h[|h| - 1] || h'[k] == view
  {
    hide SpillStep, Spills;
    SpillsLeave(h, h', view, dirty, k, sb.journalStart);
    forall b | 0 <= b < |view| && b != sb.journalStart
      ensures h'[k][b] == view[b] == h[|h| - 1][b]
    {
      SpillsLeave(h, h', view, dirty, k, b);
    }
  }

  // ----- machines that stop while they mount

  /** With nothing waiting and nothing to replay, a mount writes nothing. */
  lemma NothingReplayed(sb: Superblock, d: Disk, e: Disk)
    requires Sane(sb, |d|) && Committed(sb, d).None? && OnTheWay(sb, d, d, e)
    ensures e == d
  {
    hide Committed, Allowed;
    RecoveredNone(sb, d);
    if Recovered(sb, d) != Ok(e) {
      forall b | 0 <= b < |d|
        ensures e[b] == d[b]
      {
        var i := AllowedIs(sb, d, d, [], b, e[b]);
      }
    }
  }

  /** What a mount of a disk with nothing waiting leaves on its way is a part replayed disk. */
  lemma MountPartReplays(sb: Superblock, d: Disk, e: Disk)
    requires Sane(sb, |d|) && Contained(sb, d) && Committed(sb, d).Some? && Recovered(sb, d).Ok? && OnTheWay(sb, d, d, e)
    ensures PartReplayed(sb, d, e)
  {
    hide Committed, Homes, Replay, Final, Allowed;
    var homes := Homes(d[sb.journalStart]);
    PendingIs(sb, d);
    assert sb.journalStart !in homes;
    forall b | 0 <= b < |d|
      ensures Recovered(sb, d) != Ok(e) && b !in homes ==> e[b] == d[b]
      ensures Recovered(sb, d) == Ok(e) && b != sb.journalStart ==> e[b] == Final(sb, d, homes, b)
    {
      if Recovered(sb, d) != Ok(e) {
        var i := AllowedIs(sb, d, d, homes, b, e[b]);
      } else if b != sb.journalStart {
        RecoveredAt(sb, d, b);
      }
    }
    if Recovered(sb, d) == Ok(e) {
      RecoveredSome(sb, d);
      FinalElsewhere(sb, d, homes);
    }
  }

  lemma FinalElsewhere(sb: Superblock, d: Disk, homes: seq<nat>)
    requires Sane(sb, |d|) && |homes| < sb.journalBlocks
    ensures forall b | 0 <= b < |d| && b !in homes :: Final(sb, d, homes, b) == d[b]
  {
  }

  /** Each disk is one a machine may leave that stops while it mounts the one before. */
  ghost predicate StoppedMounts(sb: Superblock, disks: seq<Disk>) {
    && 0 < |disks| && (forall k | 0 <= k < |disks| :: Sane(sb, |disks[k]|))
    && forall k | 0 < k < |disks| :: OnTheWay(sb, disks[k - 1], disks[k - 1], disks[k])
  }

  /** Any number of machines that stop while they mount cost nothing: the last disk recovers to what the first did. */
  lemma {:induction false} StoppedMountsCostNothing(sb: Superblock, disks: seq<Disk>)
    requires StoppedMounts(sb, disks) && Contained(sb, disks[0]) && Recovered(sb, disks[0]).Ok?
    ensures var last := disks[|disks| - 1]; Contained(sb, last) && Recovered(sb, last) == Recovered(sb, disks[0])
    ensures Stops(sb, disks)
  {
    hide PartReplayed, Committed, Contained, Recovered, Sane, OnTheWay;
    if |disks| > 1 {
      var front, d, e := disks[..|disks| - 1], disks[|disks| - 2], disks[|disks| - 1];
      assert front[|front| - 1] == d;
      StoppedMountsCostNothing(sb, front);
      assert OnTheWay(sb, d, d, e);
      if Committed(sb, d).Some? {
        MountPartReplays(sb, d, e);
      } else {
        NothingReplayed(sb, d, e);
      }
      forall k | 0 < k < |disks|
        ensures if Committed(sb, disks[k - 1]).Some? then PartReplayed(sb, disks[k - 1], disks[k]) else disks[k] == disks[k - 1]
      {
        if k < |front| {
          assert front[k - 1] == disks[k - 1] && front[k] == disks[k];
        }
      }
      StopsCostNothing(sb, disks);
    }
  }

  // ----- a view that commits nothing

  /** Every state of the device from `base` on rests where it should. */
  ghost predicate AllRest(sb: Superblock, h: seq<Disk>, base: nat, s: Stand) {
    forall k | base <= k < |h| :: Rests(sb, h[k], s)
  }

  /** Writing adrift blocks back keeps a device at rest under what is shown. */
  lemma {:induction false} SpillsRest(sb: Superblock, view: Disk, h: seq<Disk>, h': seq<Disk>, dirty: set<nat>, s: Stand, base: nat)
    requires Spills(h, h', view, dirty) && Builds(sb, view, h[|h| - 1], dirty, s) && AllRest(sb, h, base, s) && base < |h|
    ensures Builds(sb, view, h'[|h'| - 1], dirty, s) && AllRest(sb, h', base, s)
    decreases |h'|
  {
    hide SpillStep, Rests;
    if |h'| > |h| {
      var front := h'[..|h'| - 1];
      assert front[..|h|] == h;
      forall k | |h| <= k < |front|
        ensures SpillStep(front[k - 1], front[k], view, dirty)
      {
        assert SpillStep(h'[k - 1], h'[k], view, dirty);
      }
      SpillsRest(sb, view, h, front, dirty, s, base);
      assert SpillStep(h'[|h'| - 2], h'[|h'| - 1], view, dirty);
      SpillRests(sb, view, h'[|h'| - 2], h'[|h'| - 1], dirty, s);
    } else {
      assert h' == h;
    }
  }

  lemma SpillRests(sb: Superblock, view: Disk, d: Disk, e: Disk, dirty: set<nat>, s: Stand)
    requires SpillStep(d, e, view, dirty) && Builds(sb, view, d, dirty, s)
    ensures Builds(sb, view, e, dirty, s) && Rests(sb, e, s)
  {
    hide Genuine, Announces;
    var b :| b in dirty && b < |view| == |d| && e == d[b := view[b]];
    BuildStep(sb, view, d, dirty, s, b);
  }

  // ----- mounting

  /**
   What a mount needs of a cache, over whatever waits. If the cache shows a committed
   transaction, the transaction names no block of the log. If it shows none, the device
   is at rest under what it shows.
   */
  ghost predicate Ready(sb: Superblock, view: Disk, d: Disk, dirty: set<nat>, s: Stand)
    requires Sane(sb, |d|) && |view| == |d|
  {
    if Committed(sb, view).Some? then Contained(sb, view) else Builds(sb, view, d, dirty, s)
  }

  /** The blocks outside the log that the device does not hold as shown. */
  ghost function Unwritten(sb: Superblock, view: Disk, d: Disk): set<nat>
    requires |view| == |d|
  {
    set b | 0 <= b < |d| && !InLog(sb, b) && view[b] != d[b]
  }

  /** Where a device with nothing known of it rests under what is shown. */
  ghost function Found(sb: Superblock, view: Disk, d: Disk): Stand
    requires Sane(sb, |d|) && |view| == |d|
  {
    var head := d[sb.journalStart];
    Stand(view, Unwritten(sb, view, d),
          if Committed(sb, d).Some? then Known(head, Payload(sb, d, Count(head)))
          else if Announces(head, sb.journalBlocks) then Unknown else Known(head, []))
  }

  /**
   A test a caller can make of a cache that shows nothing committed: the superblock
   does not wait, nor does a header that announces anything; and what the device
   itself commits, if anything, is shown at every home that does not wait.
   */
  ghost predicate Undisturbed(sb: Superblock, view: Disk, d: Disk, dirty: set<nat>)
    requires Sane(sb, |d|) && |view| == |d|
  {
    && view[0] == d[0]
    && (sb.journalStart in dirty ==> !Announces(view[sb.journalStart], sb.journalBlocks))
    && (Committed(sb, d).Some? ==>
          var homes := Homes(d[sb.journalStart]);
          && AllInRange(sb, homes) && Outside(sb, homes)
          && forall i | 0 <= i < |homes| && view[homes[i]] == d[homes[i]] :: view[homes[i]] == Final(sb, d, homes, homes[i]))
  }

  lemma UndisturbedReady(sb: Superblock, view: Disk, d: Disk, dirty: set<nat>)
    requires Sane(sb, |d|) && |view| == |d| && Committed(sb, view).None? && Undisturbed(sb, view, d, dirty)
    ensures Ready(sb, view, d, dirty, Found(sb, view, d))
  {
    hide Genuine, Committed, Announces, Homes, Payload, AllInRange, Outside;
    FoundGenuine(sb, view, d, dirty);
    FoundTraced(sb, view, d);
  }

  lemma FoundTraced(sb: Superblock, view: Disk, d: Disk)
    requires Sane(sb, |d|) && |view| == |d|
    ensures Traced(sb, d, Found(sb, view, d).origin)
  {
    hide Committed, Announces, Payload;
  }

  lemma FoundGenuine(sb: Superblock, view: Disk, d: Disk, dirty: set<nat>)
    requires Sane(sb, |d|) && |view| == |d| && Undisturbed(sb, view, d, dirty)
    ensures Genuine(sb, Found(sb, view, d))
  {
    hide Sum, At, Homes, Last, Announces, Stored;
    if Committed(sb, d).Some? {
      var homes := Homes(d[sb.journalStart]);
      forall i | 0 <= i < |homes| && homes[i] !in Unwritten(sb, view, d)
        ensures homes[i] < |d| && view[homes[i]] == Payload(sb, d, |homes|)[Last(homes, homes[i]) - 1]
      {
        assert InRange(sb, homes[i]) && !InLog(sb, homes[i]) && homes[i] in homes;
      }
    }
  }

  /**
   What the device has gone through since `base`, when it held `d`: disks a mount of `v`
   may leave on its way; and if nothing is shown committed they rest where `d` did.
   */
  ghost predicate Passed(sb: Superblock, v: Disk, d: Disk, h: seq<Disk>, base: nat, s: Stand)
    requires Sane(sb, |v|) && |d| == |v|
  {
    AllOnTheWay(sb, v, d, h, base) && (Committed(sb, v).None? ==> AllRest(sb, h, base, s))
  }

  /** The same, while a replay has not begun to clear the log. */
  ghost predicate Passing(sb: Superblock, v: Disk, d: Disk, h: seq<Disk>, base: nat, s: Stand)
    requires Sane(sb, |v|) && |d| == |v|
  {
    AllWithin(h, base, Allowed(sb, v, d, Pending(sb, v))) && (Committed(sb, v).None? ==> AllRest(sb, h, base, s))
  }

  lemma PassingPasses(sb: Superblock, v: Disk, d: Disk, h: seq<Disk>, base: nat, s: Stand)
    requires Sane(sb, |v|) && |d| == |v| && Passing(sb, v, d, h, base, s)
    ensures Passed(sb, v, d, h, base, s)
  {
    hide Committed, AllWithin, Allowed, Pending, AllOnTheWay, AllRest;
    WithinIsOnTheWay(sb, v, d, h, base);
  }

  lemma PendingIs(sb: Superblock, v: Disk)
    requires Sane(sb, |v|) && Committed(sb, v).Some?
    ensures Pending(sb, v) == Homes(v[sb.journalStart])
  {
  }

  lemma PassingReplay(sb: Superblock, v: Disk, d: Disk, h: seq<Disk>, base: nat, s: Stand)
    requires Sane(sb, |v|) && |d| == |v| && Committed(sb, v).Some?
    ensures Passing(sb, v, d, h, base, s) <==> AllWithin(h, base, Allowed(sb, v, d, Homes(v[sb.journalStart])))
  {
    hide Committed, AllWithin, Allowed, Homes;
  }

  lemma ShownWithin(sb: Superblock, v: Disk, d: Disk)
    requires Sane(sb, |v|) && |d| == |v|
    ensures Within(v, Allowed(sb, v, d, Pending(sb, v))) && Within(d, Allowed(sb, v, d, Pending(sb, v)))
  {
    hide Pending;
  }

  /** A cache that is ready begins on its way. */
  lemma ReadyStarts(sb: Superblock, st: State, h: seq<Disk>, s: Stand)
    requires Coherent(st) && 0 < |h| && h[|h| - 1] == st.disk && Sane(sb, |st.disk|)
    requires Ready(sb, View(st), st.disk, Dirty(st.slots), s)
    ensures Passing(sb, View(st), st.disk, h, |h| - 1, s) && Contained(sb, View(st))
  {
    hide Committed, Homes, Genuine, Traced, Announces, Within, Allowed, Pending, CacheModel.View;
    ShownWithin(sb, View(st), st.disk);
  }

  /** Looking keeps a cache ready. */
  lemma LookReady(sb: Superblock, st: State, h: seq<Disk>, st': State, h': seq<Disk>, d: Disk, s: Stand, base: nat)
    requires Looks(st, h, st', h') && base < |h| && h[|h| - 1] == st.disk && h'[|h'| - 1] == st'.disk && Sane(sb, |st.disk|)
    requires |d| == |st.disk| && Ready(sb, View(st), st.disk, Dirty(st.slots), s)
    requires Passing(sb, View(st), d, h, base, s)
    ensures |st'.disk| == |st.disk| && View(st') == View(st)
    ensures Ready(sb, View(st'), st'.disk, Dirty(st'.slots), s) && Passing(sb, View(st'), d, h', base, s)
  {
    hide Committed, Homes, Genuine, Traced, Announces, SpillStep, PinsKept, Coherent, AllWithin, Within, Allowed, Pending, AllRest, Rests,
      Spills, CacheModel.View;
    LooksSpills(st, h, st', h');
    SpillsSize(h, h', View(st), Dirty(st.slots));
    ShownWithin(sb, View(st), d);
    SpillsWithin(h, h', View(st), Dirty(st.slots), base, Allowed(sb, View(st), d, Pending(sb, View(st))));
    if Committed(sb, View(st)).None? {
      SpillsRest(sb, View(st), h, h', Dirty(st.slots), s, base);
      FewerBuilds(sb, View(st), st'.disk, Dirty(st.slots), Dirty(st'.slots), s);
    }
  }

  lemma SpillsSize(h: seq<Disk>, h': seq<Disk>, view: Disk, dirty: set<nat>)
    requires Spills(h, h', view, dirty) && 0 < |h[|h| - 1]| == |view|
    ensures |h'[|h'| - 1]| == |view|
  {
    hide SpillStep;
    SpillsLeave(h, h', view, dirty, |h'| - 1, 0);
  }

  lemma FewerBuilds(sb: Superblock, view: Disk, d: Disk, dirty: set<nat>, less: set<nat>, s: Stand)
    requires Builds(sb, view, d, dirty, s) && less <= dirty
    ensures Builds(sb, view, d, less, s)
  {
    hide Rests;
  }

  /** Replays the transaction the cache shows committed, if it shows one, and clears it. */
  method Recover(cache: Cache, sb: Superblock, ghost s: Stand, ghost d: Disk, ghost base: nat)
    returns (r: Result<Option<Commit>, FsError>)
    requires cache.Valid() && Sane(sb, |cache.store.blocks|) && base < |cache.store.history|
    requires Ready(sb, cache.View(), cache.store.blocks, cache.Waiting(), s) && |d| == |cache.View()|
    requires Passing(sb, cache.View(), d, cache.store.history, base, s) && Contained(sb, cache.View())
    modifies cache.Repr()
    ensures cache.Valid() && |cache.store.blocks| == |old(cache.store.blocks)| && |cache.View()| == |old(cache.View())|
    ensures Passed(sb, old(cache.View()), d, cache.store.history, base, s)
    ensures r.Ok? ==> r.value == Committed(sb, old(cache.View()))
    ensures r.Ok? && r.value.Some? ==>
              && cache.Waiting() == {} && cache.View() == cache.store.blocks
              && Recovered(sb, old(cache.View())) == Ok(cache.View())
    ensures r.Ok? ==> cache.Waiting() <= old(cache.Waiting())
    ensures r == Ok(None) ==>
              cache.View() == old(cache.View()) && Builds(sb, cache.View(), cache.store.blocks, cache.Waiting(), s)
    ensures r.Err? && Unhindered(sb, old(cache.slots), cache.store.Failed()) ==> Recovered(sb, old(cache.View())).Err?
    ensures cache.store.Ages() && (Free(old(cache.slots)) ==> Free(cache.slots))
  {
    hide Looks, Sets, Coherent, Timed, CacheModel.View, Dirty, At, FromLe, Announces, Spills, Committed, AllPinned,
      AllWithin, Within, Allowed, Pending, AllOnTheWay, Contained, Recovered, Builds, AllRest, Homes, Passing, Free;
    ghost var st, h := cache.Now(), cache.store.history;
    ghost var v := cache.View();
    FreeHelps(cache.slots, 0, 0);
    var commit := ReadCommitted(cache, sb);
    ghost var st1, h1 := cache.Now(), cache.store.history;
    LooksSpills(st, h, st1, h1);
    LookReady(sb, st, h, st1, h1, d, s, base);
    PassingPasses(sb, v, d, h1, base, s);
    if commit.Err? {
      return Err(commit.error);
    }
    if commit.value.None? {
      return Ok(None);
    }
    PassingReplay(sb, v, d, h1, base, s);
    var replayed := ReplayLog(cache, sb, commit.value.value.count, d, base);
    PassingReplay(sb, v, d, cache.store.history, base, s);
    PassingPasses(sb, v, d, cache.store.history, base, s);
    RecoveredOut(sb, v);
    if replayed.Err? {
      return Err(replayed.error);
    }
    RecoveredSome(sb, v);
    PendingIs(sb, v);
    var cleared := FinishReplay(cache, sb, v, d, base);
    if cleared.Err? {
      return Err(cleared.error);
    }
    return Ok(commit.value);
  }

  /** Where a volume starts: cleared, if a transaction was replayed; otherwise where the device rests. */
  ghost function Start(sb: Superblock, v: Disk, view: Disk, s: Stand): Stand
    requires Sane(sb, |v|)
  {
    if Committed(sb, v).Some? then Stand(view, {}, Known(ZERO, [])) else s
  }

  lemma StartBuilds(sb: Superblock, v: Disk, s: Stand)
    requires Sane(sb, |v|) && Contained(sb, v) && Committed(sb, v).Some? && Recovered(sb, v).Ok?
    ensures var view := Recovered(sb, v).value; Builds(sb, view, view, {}, Start(sb, v, view, s))
    ensures Committed(sb, v).value.sequence < U64
  {
    hide Sum, FromLe, Replay;
    Spans();
    ZeroAnnouncesNothing();
  }

  /** What a mount needs of the cache it is given; `sb` is the superblock it shows. */
  ghost predicate Mountable(view: Disk, d: Disk, dirty: set<nat>, s: Stand) {
    |view| == |d| && (d != [] && ReadHead(view[0], |d|).Ok? ==> Ready(ReadHead(view[0], |d|).value, view, d, dirty, s))
  }

  /**
   Mounts what the cache shows, replaying a committed transaction first, over
   whatever waits. Every disk on the way is one block by block of what the device held,
   what was shown and what was logged, or the recovered one; if the view commits
   nothing, it rests where it did.
   */
  method Mount(cache: Cache, ghost s: Stand) returns (r: Result<(Volume, nat), FsError>)
    requires cache.Valid() && |cache.store.blocks| < U32
    requires Mountable(cache.View(), cache.store.blocks, cache.Waiting(), s)
    modifies cache.Repr()
    ensures cache.Valid()
    ensures r.Ok? ==> fresh(r.value.0) && r.value.0.Valid() && r.value.0.cache == cache
                      && old(cache.View()) != [] && ReadHead(old(cache.View())[0], |old(cache.View())|) == Ok(r.value.0.sb)
    ensures r.Ok? ==> Mounted(r.value.0, old(cache.View()), r.value.1, s) && cache.Waiting() <= old(cache.Waiting())
    ensures old(cache.View()) != [] && ReadHead(old(cache.View())[0], |old(cache.View())|).Ok? ==>
              var sb := ReadHead(old(cache.View())[0], |old(cache.View())|).value;
              && Passed(sb, old(cache.View()), old(cache.store.blocks), cache.store.history, |old(cache.store.history)| - 1, s)
              && (!cache.store.Failed() && Free(old(cache.slots)) && Recovered(sb, old(cache.View())).Ok? ==> r.Ok?)
    ensures cache.store.Ages() && (Free(old(cache.slots)) ==> Free(cache.slots))
  {
    hide Looks, Coherent, Timed, CacheModel.View, Dirty, At, FromLe, Announces, Spills, Committed, AllPinned,
      Contained, Recovered, ReadHead, Ready, Passing, Passed, Builds, Free;
    ghost var st, h := cache.Now(), cache.store.history;
    ghost var v, d, base := cache.View(), cache.store.blocks, |h| - 1;
    FreeHelps(cache.slots, 0, 0);
    var head := cache.Page(0);
    ghost var st1, h1 := cache.Now(), cache.store.history;
    LooksSpills(st, h, st1, h1);
    if v != [] && ReadHead(v[0], |v|).Ok? {
      var sb := ReadHead(v[0], |v|).value;
      ReadyStarts(sb, st, h, s);
      LookReady(sb, st, h, st1, h1, d, s, base);
      PassingPasses(sb, v, d, h1, base, s);
    }
    if head.Err? {
      return Err(head.error);
    }
    var sb := ReadHead(head.value, |cache.store.blocks|);
    if sb.Err? {
      return Err(sb.error);
    }
    var commit := Recover(cache, sb.value, s, d, base);
    if commit.Err? {
      return Err(commit.error);
    }
    r := Open(cache, sb.value, commit.value, v, s);
  }

  /** The volume a mount gives: it shows what the view recovers to, and starts from there. */
  ghost predicate Mounted(v: Volume, was: Disk, count: nat, s: Stand)
    requires Sane(v.sb, |was|)
    reads v, v.cache, v.cache.store
  {
    && v.Valid() && Recovered(v.sb, was) == Ok(v.cache.View())
    && (Committed(v.sb, was).Some? ==> v.cache.Waiting() == {} && v.cache.View() == v.cache.store.blocks)
    && Start(v.sb, was, v.cache.View(), s).state != []
    && v.book == Opened(v.cache.store.history, Start(v.sb, was, v.cache.View(), s))
    && v.calm == (!v.cache.store.refused && Silent(v.sb, v.cache.View(), v.cache.store.blocks))
    && Commit(v.sequence, count) == match Committed(v.sb, was) case None => Commit(0, 0) case Some(c) => c
  }

  method Open(cache: Cache, sb: Superblock, commit: Option<Commit>, ghost was: Disk, ghost s: Stand)
    returns (r: Result<(Volume, nat), FsError>)
    requires cache.Valid() && |cache.store.blocks| < U32 && Sane(sb, |cache.store.blocks|) && |was| == |cache.View()|
    requires Contained(sb, was) && commit == Committed(sb, was) && ReadHead(was[0], |was|) == Ok(sb)
    requires commit.Some? ==> cache.Waiting() == {} && cache.View() == cache.store.blocks && Recovered(sb, was) == Ok(cache.View())
    requires commit.None? ==> cache.View() == was && Builds(sb, cache.View(), cache.store.blocks, cache.Waiting(), s)
    ensures cache.Valid() && r.Ok? && fresh(r.value.0) && r.value.0.cache == cache && r.value.0.sb == sb
    ensures Mounted(r.value.0, was, r.value.1, s) && cache.Waiting() == old(cache.Waiting())
    ensures cache.slots == old(cache.slots) && cache.store.history == old(cache.store.history)
  {
    hide Coherent, Timed, CacheModel.View, Dirty, At, FromLe, Announces, Committed, Contained, Recovered, ReadHead,
      Builds, Secure, Opened;
    if commit.None? {
      RecoveredNone(sb, was);
    } else {
      StartBuilds(sb, was, s);
      RecoveredRoot(sb, was);
    }
    var Commit(sequence, count) := if commit.Some? then commit.value else Commit(0, 0);
    var volume := new Volume(cache, sb, sequence, Start(sb, was, cache.View(), s));
    return Ok((volume, count));
  }

  lemma RecoveredRoot(sb: Superblock, d: Disk)
    requires Sane(sb, |d|) && Contained(sb, d) && Recovered(sb, d).Ok?
    ensures Recovered(sb, d).value[0] == d[0]
  {
    hide Committed, Replay;
    RecoveredAt(sb, d, 0);
    if Committed(sb, d).Some? {
      assert 0 !in Homes(d[sb.journalStart]);
    }
  }
}
